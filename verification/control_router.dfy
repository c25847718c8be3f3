/** Control routing: fan-out of a control to an agent's streams and the settling of the
    delivery (server/harmonograf_server/control_router.py). Every method is one atomic step
    of the event loop: no lock holder suspends inside its critical section. */
module ControlRouting {
  import opened Common

  const QUEUE_MAX := 256
  const QUEUE_FULL := "control queue full"

  datatype AckResult = AckSuccess | AckFailure | AckUnsupported
  datatype AckRecord = AckRecord(streamId: string, result: AckResult, detail: string)
  datatype DeliveryResult = Success | Unavailable | DeadlineExceeded | Failed
  datatype Outcome = Outcome(controlId: string, result: DeliveryResult, acks: seq<AckRecord>)

  /** The future a `deliver` call waits on; a timeout cancels it. */
  datatype Future = Open | Resolved(outcome: Outcome) | Cancelled

  predicate AnySuccess(acks: seq<AckRecord>) {
    exists a | a in acks :: a.result.AckSuccess?
  }

  predicate AllSuccess(acks: seq<AckRecord>) {
    forall a | a in acks :: a.result.AckSuccess?
  }

  class Subscription {
    const sessionId: string
    const agentId: string
    const streamId: string
    var queue: seq<string>
    var closed: bool

    constructor (sessionId: string, agentId: string, streamId: string)
      ensures this.sessionId == sessionId && this.agentId == agentId && this.streamId == streamId
      ensures queue == [] && !closed
    {
      this.sessionId, this.agentId, this.streamId := sessionId, agentId, streamId;
      queue, closed := [], false;
    }
  }

  /** A successful answer to a status query, for the registered callbacks. */
  datatype Answer = Answer(sessionId: string, agentId: string, detail: string)

  class Pending {
    const controlId: string
    const requireAll: bool
    /** The session and the agent a status query asks about; any other event has none. */
    const asked: Option<(string, string)>
    ghost const recipients: set<string>
    var expected: set<string>
    var acks: seq<AckRecord>
    var future: Future
    ghost var departed: set<string>
    /** What the `deliver` call has returned, once it has. */
    ghost var returned: Option<Outcome>

    constructor (controlId: string, liveIds: set<string>, requireAll: bool, asked: Option<(string, string)>)
      ensures this.controlId == controlId && this.requireAll == requireAll && this.asked == asked
      ensures recipients == liveIds
      ensures expected == liveIds && acks == [] && future == Open && departed == {} && returned == None
    {
      this.controlId, this.requireAll, this.asked, this.recipients := controlId, requireAll, asked, liveIds;
      expected, acks, future, departed, returned := liveIds, [], Open, {}, None;
    }

    ghost function Ackers(): set<string>
      reads this
    {
      set a | a in acks :: a.streamId
    }

    /** Every recipient is awaited, has acked exactly once, or has left: never two of these. */
    ghost predicate Accounted()
      reads this
    {
      && recipients == expected + Ackers() + departed
      && expected !! Ackers() && expected !! departed && Ackers() !! departed
      && (forall i, j | 0 <= i < j < |acks| :: acks[i].streamId != acks[j].streamId)
    }

    /** The resolve condition. */
    predicate Ready()
      reads this
    {
      expected == {} || (!requireAll && AnySuccess(acks))
    }

    /** What the delivery resolves to, in terms of its acks alone. */
    ghost function Verdict(): Outcome
      reads this
    {
      Outcome(controlId,
              if AnySuccess(acks) && (requireAll ==> AllSuccess(acks)) then Success else Failed,
              acks)
    }

    ghost predicate Sound()
      reads this
    {
      && Accounted()
      && recipients != {}
      && (future.Resolved? ==> Ready() && future.outcome == Verdict())
      && (returned.Some? ==>
            match future
            case Open => false
            case Resolved(o) => returned.value == o
            case Cancelled => returned.value == Outcome(controlId, DeadlineExceeded, acks))
    }

    /** The effect of `streamId` going away. */
    twostate predicate LostStream(streamId: string)
      reads this
    {
      && expected == old(expected) - {streamId} && acks == old(acks) && returned == old(returned)
      && departed == old(departed) + (old(expected) * {streamId})
      && future == if old(future.Open?) && streamId in old(expected) && Ready() then Resolved(Verdict())
                   else old(future)
    }

    /** How a delivery may change in one step: accounts only move forward, a settled delivery
        is frozen and keeps its outcome. */
    twostate predicate Advances()
      reads this
    {
      && old(acks) <= acks && expected <= old(expected) && old(departed) <= departed
      && (old(future.Resolved?) ==> future == old(future) && acks == old(acks) && expected == old(expected))
      && (old(future.Cancelled?) ==> future.Cancelled?)
      && (old(returned.Some?) ==> returned == old(returned) && acks == old(acks) && expected == old(expected))
    }
  }

  ghost predicate IsLive(subs: SubTable, streamId: string) {
    exists a :: a in subs && streamId in subs[a]
  }

  /** Of the rows in `before`, exactly those not resolved are still in the table. */
  ghost predicate Swept(before: map<string, Pending>, after: map<string, Pending>)
    reads before.Values
  {
    && after.Keys <= before.Keys
    && forall c | c in before ::
         (c in after <==> !before[c].future.Resolved?) && (c in after ==> after[c] == before[c])
  }

  /** The aliases that do not point at `agentId`. */
  function Pruned(aliases: map<string, string>, agentId: string): map<string, string> {
    map k | k in aliases && aliases[k] != agentId :: aliases[k]
  }

  type SubTable = map<string, map<string, Subscription>>

  /** The table files every subscription under its own ids, and keeps no empty bucket. */
  ghost predicate Registered(subs: SubTable, issued: set<Subscription>) {
    && (forall a | a in subs :: subs[a] != map[])
    && (forall a, s | a in subs && s in subs[a] ::
          subs[a][s] in issued && subs[a][s].agentId == a && subs[a][s].streamId == s)
  }

  function Bucket(subs: SubTable, agentId: string): map<string, Subscription> {
    if agentId in subs then subs[agentId] else map[]
  }

  function Enter(subs: SubTable, sub: Subscription): SubTable {
    subs[sub.agentId := Bucket(subs, sub.agentId)[sub.streamId := sub]]
  }

  function Leave(subs: SubTable, sub: Subscription): SubTable {
    if sub.agentId !in subs then subs
    else
      var rest := subs[sub.agentId] - {sub.streamId};
      if rest == map[] then subs - {sub.agentId} else subs[sub.agentId := rest]
  }

  lemma AliasesAfter(aliases: map<string, string>, agentId: string, registered: bool)
    ensures (if registered then aliases else Pruned(aliases, agentId)) ==
            map k | k in aliases && (registered || aliases[k] != agentId) :: aliases[k]
  {
  }

  lemma EnterTable(subs: SubTable, issued: set<Subscription>, sub: Subscription)
    requires Registered(subs, issued)
    ensures Registered(Enter(subs, sub), issued + {sub})
    ensures forall s :: IsLive(Enter(subs, sub), s) <==> IsLive(subs, s) || s == sub.streamId
  {
    var after := Enter(subs, sub);
    assert sub.streamId in after[sub.agentId];
    forall s ensures IsLive(after, s) <==> IsLive(subs, s) || s == sub.streamId {
      if a :| a in subs && s in subs[a] { assert s in after[a]; }
    }
  }

  lemma LeaveRegistered(subs: SubTable, issued: set<Subscription>, sub: Subscription)
    requires Registered(subs, issued)
    ensures Registered(Leave(subs, sub), issued)
    ensures forall a, s :: a in Leave(subs, sub) && s in Leave(subs, sub)[a] <==>
              a in subs && s in subs[a] && !(a == sub.agentId && s == sub.streamId)
  {
    if sub.agentId in subs {
      var rest := subs[sub.agentId] - {sub.streamId};
      assert forall s | s in subs[sub.agentId] && s != sub.streamId :: s in rest;
    }
  }

  /** When stream ids are unique, leaving ends exactly the leaver's stream. */
  lemma LeaveEndsStream(subs: SubTable, issued: set<Subscription>, sub: Subscription, s: string)
    requires Registered(subs, issued)
    requires forall o | o in issued && o.streamId == sub.streamId :: o == sub
    ensures IsLive(Leave(subs, sub), s) <==> IsLive(subs, s) && s != sub.streamId
  {
    LeaveRegistered(subs, issued, sub);
    if a :| a in subs && s in subs[a] && s != sub.streamId {
      assert a in Leave(subs, sub) && s in Leave(subs, sub)[a];
    }
  }

  class ControlRouter {
    /** agent id, then stream id, to the live subscription. */
    var subs: SubTable
    var pending: map<string, Pending>
    var aliases: map<string, string>
    ghost var deliveries: set<Pending>
    ghost var issued: set<Subscription>
    /** Whether some control id, some stream id, was ever used twice. */
    ghost var controlReused: bool
    ghost var streamReused: bool

    constructor ()
      ensures Valid() && deliveries == {} && issued == {} && !controlReused && !streamReused
      ensures subs == map[] && pending == map[] && aliases == map[]
    {
      subs, pending, aliases := map[], map[], map[];
      deliveries, issued, controlReused, streamReused := {}, {}, false, false;
    }

    ghost predicate UniqueStreams()
      reads this`issued, this`streamReused
    {
      !streamReused ==> forall s, s' | s in issued && s' in issued && s.streamId == s'.streamId :: s == s'
    }

    ghost predicate QueuesOk()
      reads this`issued, issued`queue
    {
      forall s | s in issued :: |s.queue| <= QUEUE_MAX
    }

    /** The table holds exactly unsettled deliveries, and none that could be settled. */
    ghost predicate TableOk()
      reads this`pending, this`deliveries, this`controlReused, deliveries
    {
      && (forall p | p in deliveries :: p.Sound())
      && (forall c | c in pending :: pending[c] in deliveries && Unsettled(c, pending[c]))
      && (!controlReused ==> forall p | p in deliveries :: Filed(p))
    }

    ghost predicate Unsettled(c: string, p: Pending)
      reads p
    {
      p.controlId == c && !p.future.Resolved? && p.returned.None? && (p.future.Open? ==> !p.Ready())
    }

    ghost predicate Filed(p: Pending)
      reads this`pending, this`deliveries, p
    {
      && (p.future.Open? ==> p.controlId in pending && pending[p.controlId] == p)
      && forall p' | p' in deliveries && p.controlId == p'.controlId :: p == p'
    }

    /** Nobody waits for a stream that is gone. */
    ghost predicate WaitsOnlyForLive()
      reads this`pending, this`deliveries, this`streamReused, this`subs, deliveries
    {
      !streamReused ==>
        forall c, s | c in pending && pending[c] in deliveries && s in pending[c].expected :: IsLive(subs, s)
    }

    ghost predicate Valid()
      reads this, deliveries, issued
    {
      Registered(subs, issued) && UniqueStreams() && QueuesOk() && TableOk() && WaitsOnlyForLive()
    }

    // ---- Subscriptions ------------------------------------------------------------------

    method RegisterAlias(subAgentId: string, streamAgentId: string)
      requires Valid()
      modifies this`aliases
      ensures Valid()
      ensures aliases == if subAgentId != "" && streamAgentId != "" && subAgentId != streamAgentId
                         then old(aliases)[subAgentId := streamAgentId] else old(aliases)
    {
      if subAgentId != "" && streamAgentId != "" && subAgentId != streamAgentId {
        aliases := aliases[subAgentId := streamAgentId];
      }
    }

    method Subscribe(sessionId: string, agentId: string, streamId: string) returns (sub: Subscription)
      requires Valid()
      modifies this`subs, this`issued, this`streamReused
      ensures Valid() && fresh(sub) && sub.agentId == agentId && sub.streamId == streamId
      ensures sub.sessionId == sessionId && !sub.closed && sub.queue == []
      ensures subs == Enter(old(subs), sub)
      ensures agentId in subs && streamId in subs[agentId] && subs[agentId][streamId] == sub
      ensures forall a, s | !(a == agentId && s == streamId) ::
                && (a in subs && s in subs[a] <==> a in old(subs) && s in old(subs)[a])
                && (a in subs && s in subs[a] ==> subs[a][s] == old(subs)[a][s])
      ensures issued == old(issued) + {sub}
      ensures streamReused == (old(streamReused) || exists s :: s in old(issued) && s.streamId == streamId)
    {
      hide TableOk, Registered, IsLive;
      sub := new Subscription(sessionId, agentId, streamId);
      EnterTable(subs, issued, sub);
      subs := subs[agentId := Bucket(subs, agentId)[streamId := sub]];
      streamReused := streamReused || exists s :: s in issued && s.streamId == streamId;
      issued := issued + {sub};
    }

    // ---- Settling -----------------------------------------------------------------------

    /** Settle a delivery of the table if its condition holds. */
    method MaybeResolve(p: Pending)
      requires p in deliveries && p.controlId in pending && pending[p.controlId] == p
      requires !p.future.Resolved? && p.Accounted()
      modifies this`pending, p`future
      ensures if old(p.future.Open?) && p.Ready()
              then p.future == Resolved(p.Verdict()) && pending == old(pending) - {p.controlId}
              else p.future == old(p.future) && pending == old(pending)
    {
      if !p.future.Open? {
        return;
      }
      var anySuccess := exists a | a in p.acks :: a.result.AckSuccess?;
      var allDone := p.expected == {};
      var result: DeliveryResult;
      if p.requireAll {
        if !allDone {
          return;
        }
        result := if anySuccess && forall a | a in p.acks :: a.result.AckSuccess? then Success else Failed;
      } else {
        if !anySuccess && !allDone {
          return;
        }
        result := if anySuccess then Success else Failed;
      }
      pending := pending - {p.controlId};
      p.future := Resolved(Outcome(p.controlId, result, p.acks));
    }

    /** An ack of `record.streamId`, which is awaited, and its consequences. */
    method Acknowledge(p: Pending, record: AckRecord)
      requires TableOk()
      requires p in deliveries && p.controlId in pending && pending[p.controlId] == p
      requires record.streamId in p.expected
      modifies this`pending, p
      ensures TableOk() && p.Advances()
      ensures p.acks == old(p.acks) + [record] && p.expected == old(p.expected) - {record.streamId}
      ensures p.departed == old(p.departed) && p.returned == old(p.returned)
      ensures if p.future.Resolved? then pending == old(pending) - {p.controlId} else pending == old(pending)
      ensures p.future == if old(p.future.Open?) && p.Ready() then Resolved(p.Verdict()) else old(p.future)
    {
      hide TableOk;
      RowOk(p);
      p.expected := p.expected - {record.streamId};
      p.acks := p.acks + [record];
      assert p.Ackers() == old(p.Ackers()) + {record.streamId};
      MaybeResolve(p);
      TableStep(p);
    }

    lemma RowOk(p: Pending)
      requires TableOk() && p in deliveries
      ensures p.Sound()
      ensures p.controlId in pending && pending[p.controlId] == p ==> Unsettled(p.controlId, p)
    {
    }

    /** A step on one row keeps the table if the row stays unsettled or is taken out. */
    twostate lemma TableStep(p: Pending)
      requires old(TableOk()) && p in old(deliveries)
      requires old(p.controlId in pending && pending[p.controlId] == p)
      requires deliveries == old(deliveries) && controlReused == old(controlReused)
      requires forall q | q in deliveries && q != p :: unchanged(q)
      requires p.Sound()
      requires if pending == old(pending) then Unsettled(p.controlId, p) && p.future.Open? == old(p.future.Open?)
               else pending == old(pending) - {p.controlId} && !p.future.Open?
      ensures TableOk()
    {
      forall q | q in deliveries && !controlReused ensures Filed(q) {
        assert old(Filed(q)) && old(Filed(p));
      }
    }

    twostate lemma WaitsKept()
      requires old(WaitsOnlyForLive()) && old(TableOk())
      requires subs == old(subs) && deliveries == old(deliveries) && streamReused == old(streamReused)
      requires forall c | c in pending :: c in old(pending) && pending[c] == old(pending)[c]
      requires forall c | c in pending :: pending[c].expected <= old(pending[c].expected)
      ensures WaitsOnlyForLive()
    {
    }

    /** An ack from the telemetry stream. It counts for the stream it names if that one is
        awaited, else for some awaited stream; acks nobody waits for are dropped. A success that answers a
        status query is handed on. */
    method RecordAck(controlId: string, result: AckResult, detail: string, streamId: string)
      returns (answer: Option<Answer>)
      requires Valid()
      modifies this`pending, deliveries
      ensures Valid() && deliveries == old(deliveries)
      ensures forall p | p in deliveries :: p.Advances() && p.departed == old(p.departed)
      ensures forall p | p in deliveries && !(controlId in old(pending) && old(pending)[controlId] == p) :: unchanged(p)
      ensures controlId !in old(pending) || old(pending[controlId].expected) == {} ==>
                answer.None? && pending == old(pending) && forall p | p in deliveries :: unchanged(p)
      ensures controlId in old(pending) && old(pending[controlId].expected) != {} ==>
                var p := old(pending)[controlId];
                && (exists sid ::
                      && sid in old(p.expected)
                      && (streamId != "" && streamId in old(p.expected) ==> sid == streamId)
                      && p.expected == old(p.expected) - {sid}
                      && p.acks == old(p.acks) + [AckRecord(sid, result, detail)])
                && p.future == (if old(p.future.Open?) && p.Ready() then Resolved(p.Verdict()) else old(p.future))
                && pending == (if p.future.Resolved? then old(pending) - {controlId} else old(pending))
                && answer == if p.asked.Some? && result.AckSuccess?
                             then Some(Answer(p.asked.value.0, p.asked.value.1, detail)) else None
    {
      answer := None;
      if controlId !in pending {
        return;
      }
      var p := pending[controlId];
      RowOk(p);
      var sid := streamId;
      if sid == "" || sid !in p.expected {
        if p.expected == {} {
          return;
        }
        sid :| sid in p.expected;
      }
      hide TableOk, Registered, WaitsOnlyForLive;
      Acknowledge(p, AckRecord(sid, result, detail));
      WaitsKept();
      if p.asked.Some? && result.AckSuccess? {
        answer := Some(Answer(p.asked.value.0, p.asked.value.1, detail));
      }
    }

    /** A stream that leaves will never ack. */
    method Depart(p: Pending, streamId: string)
      requires TableOk()
      requires p in deliveries && p.controlId in pending && pending[p.controlId] == p
      modifies this`pending, p
      ensures TableOk() && p.Advances() && p.LostStream(streamId)
      ensures pending == if p.future.Resolved? then old(pending) - {p.controlId} else old(pending)
    {
      hide TableOk;
      RowOk(p);
      if streamId in p.expected {
        p.expected := p.expected - {streamId};
        p.departed := p.departed + {streamId};
        MaybeResolve(p);
        TableStep(p);
      }
    }

    /** Take a stream out of every delivery that waits for it. */
    method DepartAll(streamId: string)
      requires TableOk()
      modifies this`pending, deliveries
      ensures TableOk()
      ensures forall c | c in old(pending) :: old(pending)[c].LostStream(streamId)
      ensures forall p | p in deliveries && p !in old(pending).Values :: unchanged(p)
      ensures Swept(old(pending), pending)
    {
      hide TableOk;
      RowsOk();
      ghost var rows := pending;
      var todo := pending.Values;
      while todo != {}
        invariant TableOk() && todo <= rows.Values
        invariant forall p | p in deliveries && p !in rows.Values - todo :: unchanged(p)
        invariant forall p | p in rows.Values && p !in todo :: p.LostStream(streamId)
        invariant Swept(rows, pending)
        invariant forall p | p in todo :: !p.future.Resolved?
      {
        var p :| p in todo;
        assert p.controlId in rows && rows[p.controlId] == p;
        todo := todo - {p};
        Depart(p, streamId);
      }
      assert forall c | c in rows :: rows[c] in rows.Values;
    }

    /** The same, seen from the deliveries: losing a stream is a step forward for each. */
    method LeaveAll(streamId: string)
      requires TableOk()
      modifies this`pending, deliveries
      ensures TableOk() && forall p | p in deliveries :: p.Advances()
      ensures forall c | c in old(pending) :: old(pending)[c].LostStream(streamId)
      ensures forall p | p in deliveries && p !in old(pending).Values :: unchanged(p)
      ensures Swept(old(pending), pending)
    {
      hide TableOk, Swept;
      RowsWait();
      ghost var rows := pending;
      DepartAll(streamId);
      forall p | p in deliveries ensures p.Advances() {
        assert p in rows.Values ==> p.LostStream(streamId);
      }
    }

    lemma RowsWait()
      requires TableOk()
      ensures forall p | p in pending.Values :: !p.future.Resolved? && p.returned.None?
    {
    }

    lemma RowsOk()
      requires TableOk()
      ensures pending.Values <= deliveries
      ensures forall c | c in pending :: pending[c].controlId == c
      ensures forall p | p in pending.Values :: !p.future.Resolved?
    {
    }

    twostate lemma WaitsAfterLeave(sub: Subscription)
      requires old(WaitsOnlyForLive()) && old(TableOk()) && old(Registered(subs, issued)) && old(UniqueStreams())
      requires sub in issued && issued == old(issued)
      requires subs == Leave(old(subs), sub) && deliveries == old(deliveries) && streamReused == old(streamReused)
      requires Swept(old(pending), pending)
      requires forall c | c in old(pending) :: old(pending)[c].LostStream(sub.streamId)
      ensures WaitsOnlyForLive()
    {
      if !streamReused {
        forall s ensures IsLive(subs, s) <==> IsLive(old(subs), s) && s != sub.streamId {
          LeaveEndsStream(old(subs), issued, sub, s);
        }
      }
    }

    /** The stream's reader takes the next event off its queue. */
    method TakeEvent(sub: Subscription) returns (event: string)
      requires Valid() && sub in issued && sub.queue != []
      modifies sub`queue
      ensures Valid() && [event] + sub.queue == old(sub.queue)
    {
      hide TableOk, WaitsOnlyForLive, Registered, UniqueStreams;
      event := sub.queue[0];
      sub.queue := sub.queue[1..];
    }

    /** The deadline of a waiting `deliver` passes: its future is cancelled. */
    method Expire(p: Pending)
      requires Valid() && p in deliveries && p.future.Open?
      modifies p`future
      ensures Valid() && p.future == Cancelled && p.Advances()
    {
      hide Registered, UniqueStreams, QueuesOk;
      RowOk(p);
      p.future := Cancelled;
      forall q | q in deliveries && !controlReused ensures Filed(q) {
        assert old(Filed(q)) && old(Filed(p));
      }
    }

    /** A `deliver` call whose future is done returns its outcome. After a timeout it takes
        its row out and reports the acks that have arrived by then. */
    method Finish(p: Pending) returns (outcome: Outcome)
      requires Valid() && p in deliveries && !p.future.Open? && p.returned.None?
      modifies this`pending, p`returned
      ensures Valid() && p.Advances() && p.returned == Some(outcome)
      ensures outcome == if p.future.Resolved? then p.Verdict()
                         else Outcome(p.controlId, DeadlineExceeded, p.acks)
      ensures pending == if p.future.Resolved? then old(pending) else old(pending) - {p.controlId}
      ensures forall c | c in pending :: pending[c] != p
    {
      hide Registered, UniqueStreams, QueuesOk, WaitsOnlyForLive, TableOk;
      RowOk(p);
      if p.future.Resolved? {
        outcome := p.future.outcome;
      } else {
        pending := pending - {p.controlId};
        outcome := Outcome(p.controlId, DeadlineExceeded, p.acks);
      }
      p.returned := Some(outcome);
      assert UniqueStreams() && QueuesOk();
      WaitsKept();
      TableFinish(p);
      OutOfTable(p);
    }

    /** Returning from a settled delivery that is out of the table keeps the table. */
    twostate lemma TableFinish(p: Pending)
      requires old(TableOk()) && p in old(deliveries) && !p.future.Open? && p.Sound()
      requires deliveries == old(deliveries) && controlReused == old(controlReused)
      requires forall q | q in deliveries && q != p :: unchanged(q)
      requires p.future == old(p.future) && (p.controlId in pending ==> pending[p.controlId] != p)
      requires pending == old(pending) || pending == old(pending) - {p.controlId}
      ensures TableOk()
    {
      forall q | q in deliveries && !controlReused ensures Filed(q) {
        assert old(Filed(q)) && old(Filed(p));
      }
    }

    lemma OutOfTable(p: Pending)
      requires TableOk() && p.returned.Some?
      ensures forall c | c in pending :: pending[c] != p
    {
    }

    method Unsubscribe(sub: Subscription)
      requires Valid() && sub in issued
      modifies this`subs, this`pending, this`aliases, deliveries, sub`closed
      ensures Valid() && sub.closed
      ensures deliveries == old(deliveries) && forall p | p in deliveries :: p.Advances()
      ensures subs == Leave(old(subs), sub)
      ensures forall a, s :: a in subs && s in subs[a] <==>
                a in old(subs) && s in old(subs)[a] && !(a == sub.agentId && s == sub.streamId)
      ensures forall c | c in old(pending) :: old(pending)[c].LostStream(sub.streamId)
      ensures forall p | p in deliveries && p !in old(pending).Values :: unchanged(p)
      ensures Swept(old(pending), pending)
      ensures aliases == map k | k in old(aliases) && (sub.agentId in subs || old(aliases)[k] != sub.agentId) ::
                old(aliases)[k]
    {
      hide TableOk, Registered, IsLive, WaitsOnlyForLive, Leave, Swept, Pruned, UniqueStreams, QueuesOk;
      LeaveRegistered(subs, issued, sub);
      AliasesAfter(aliases, sub.agentId, sub.agentId in Leave(subs, sub));
      sub.closed := true;
      subs := Leave(subs, sub);
      assert TableOk() && QueuesOk();
      LeaveAll(sub.streamId);
      WaitsAfterLeave(sub);
      assert QueuesOk() && UniqueStreams();
      if sub.agentId !in subs {
        aliases := Pruned(aliases, sub.agentId);
      }
      assert TableOk();
      assert WaitsOnlyForLive();
      assert QueuesOk();
    }

    // ---- Delivering ---------------------------------------------------------------------

    /** The live streams an event goes to: those of the agent, or of the agent it is an alias
        of; only the ones of the session when any of them matches it. */
    function TargetBucket(agentId: string): map<string, Subscription>
      reads this`subs, this`aliases
    {
      var bucket := Bucket(subs, agentId);
      if bucket == map[] && agentId in aliases && aliases[agentId] != "" then Bucket(subs, aliases[agentId])
      else bucket
    }

    function LiveIds(bucket: map<string, Subscription>, sessionId: string): set<string>
      reads bucket.Values`closed
    {
      var matched := set s | s in bucket && !bucket[s].closed && sessionId != "" && bucket[s].sessionId == sessionId;
      if matched != {} then matched else set s | s in bucket && !bucket[s].closed
    }

    /** The stream is registered and open. */
    ghost predicate Live(sub: Subscription)
      reads this`subs, sub`closed
    {
      && sub.agentId in subs && sub.streamId in subs[sub.agentId] && subs[sub.agentId][sub.streamId] == sub
      && !sub.closed
    }

    /** Who gets an event for an agent and a session: the live streams of the agent, or of the
        agent it is an alias of when it has none; of these the ones of the session, and all of
        them when none is. */
    ghost predicate Receives(sub: Subscription, agentId: string, sessionId: string)
      reads this`subs, this`aliases, this`issued, issued`closed, sub`closed
    {
      var alias := if agentId in aliases then aliases[agentId] else "";
      && Live(sub)
      && (sub.agentId == agentId || (agentId !in subs && alias != "" && sub.agentId == alias))
      && ((sessionId != "" && sub.sessionId == sessionId)
          || forall o | o in issued && Live(o) && o.agentId == sub.agentId ::
               sessionId == "" || o.sessionId != sessionId)
    }

    /** What the fan-out did for the streams of `sent`: the event is queued once, or the full
        queue counts as a failure ack. */
    twostate predicate FannedOut(new p: Pending, bucket: map<string, Subscription>, sent: set<string>)
      requires sent <= bucket.Keys
      reads p, bucket.Values
    {
      forall s | s in sent ::
        if |old(bucket[s].queue)| < QUEUE_MAX
        then bucket[s].queue == old(bucket[s].queue) + [p.controlId] && s in p.expected
        else bucket[s].queue == old(bucket[s].queue) && AckRecord(s, AckFailure, QUEUE_FULL) in p.acks
    }

    /** Enter a new delivery in the table, in the place of any earlier one with its id. */
    method File(p: Pending)
      requires TableOk() && p !in deliveries && p.Sound() && p.future.Open? && !p.Ready() && p.returned.None?
      requires WaitsOnlyForLive() && forall s | s in p.expected :: IsLive(subs, s)
      modifies this`pending, this`deliveries, this`controlReused
      ensures TableOk() && WaitsOnlyForLive() && deliveries == old(deliveries) + {p}
      ensures pending == old(pending)[p.controlId := p]
      ensures controlReused == (old(controlReused) || exists q :: q in old(deliveries) && q.controlId == p.controlId)
    {
      pending := pending[p.controlId := p];
      controlReused := controlReused || exists q :: q in deliveries && q.controlId == p.controlId;
      deliveries := deliveries + {p};
      forall q | q in deliveries && !controlReused ensures Filed(q) {
        if q != p { assert old(Filed(q)); }
      }
    }

    method Offer(p: Pending, sub: Subscription)
      requires TableOk() && p in deliveries && p.controlId in pending && pending[p.controlId] == p
      requires p.future.Open? && sub.streamId in p.expected && |sub.queue| <= QUEUE_MAX
      requires forall a | a in p.acks :: a.result.AckFailure?
      modifies this`pending, p, sub`queue
      ensures TableOk() && p.departed == old(p.departed) && p.returned == old(p.returned)
      ensures if |old(sub.queue)| < QUEUE_MAX
              then sub.queue == old(sub.queue) + [p.controlId] && p.acks == old(p.acks) && p.expected == old(p.expected)
              else && sub.queue == old(sub.queue)
                   && p.acks == old(p.acks) + [AckRecord(sub.streamId, AckFailure, QUEUE_FULL)]
                   && p.expected == old(p.expected) - {sub.streamId}
      ensures p.future == if p.expected == {} then Resolved(Outcome(p.controlId, Failed, p.acks)) else Open
      ensures pending == if p.expected == {} then old(pending) - {p.controlId} else old(pending)
    {
      hide TableOk;
      if |sub.queue| < QUEUE_MAX {
        sub.queue := sub.queue + [p.controlId];
        assert TableOk();
      } else {
        Acknowledge(p, AckRecord(sub.streamId, AckFailure, QUEUE_FULL));
        assert !AnySuccess(p.acks);
      }
    }

    /** Queue the event for every target; a full queue is an immediate failure ack. */
    method FanOut(p: Pending, bucket: map<string, Subscription>, liveIds: set<string>)
      requires TableOk() && WaitsOnlyForLive() && p in deliveries && p.controlId in pending && pending[p.controlId] == p
      requires p.future.Open? && p.acks == [] && p.expected == liveIds && liveIds <= bucket.Keys
      requires liveIds != {} && p.departed == {}
      requires forall s | s in liveIds :: bucket[s].streamId == s && bucket[s] in issued
      requires QueuesOk()
      modifies this`pending, p, (set s | s in liveIds :: bucket[s])`queue
      ensures TableOk() && WaitsOnlyForLive() && QueuesOk() && FannedOut(p, bucket, liveIds)
      ensures p.future == if p.expected == {} then Resolved(Outcome(p.controlId, Failed, p.acks)) else Open
      ensures pending == if p.expected == {} then old(pending) - {p.controlId} else old(pending)
      ensures forall a | a in p.acks :: a.result.AckFailure? && a.streamId in liveIds
      ensures p.departed == {} && p.returned == old(p.returned)
    {
      hide TableOk, WaitsOnlyForLive;
      var todo := liveIds;
      while todo != {}
        invariant TableOk() && QueuesOk() && todo <= p.expected <= liveIds
        invariant FannedOut(p, bucket, liveIds - todo)
        invariant forall s | s in todo :: bucket[s].queue == old(bucket[s].queue)
        invariant forall a | a in p.acks :: a.result.AckFailure? && a.streamId in liveIds
        invariant p.future == if p.expected == {} then Resolved(Outcome(p.controlId, Failed, p.acks)) else Open
        invariant pending == if p.expected == {} then old(pending) - {p.controlId} else old(pending)
        invariant p.departed == {} && p.returned == old(p.returned)
      {
        var sid :| sid in todo;
        todo := todo - {sid};
        Offer(p, bucket[sid]);
      }
      WaitsKept();
    }

    /** File a new delivery to the streams `liveIds` of `bucket` and fan it out. */
    method Dispatch(controlId: string, requireAll: bool, asked: Option<(string, string)>,
                    bucket: map<string, Subscription>, liveIds: set<string>)
      returns (delivery: Pending)
      requires TableOk() && WaitsOnlyForLive() && QueuesOk()
      requires liveIds != {} && liveIds <= bucket.Keys
      requires forall s | s in liveIds :: IsLive(subs, s) && bucket[s].streamId == s && bucket[s] in issued
      modifies this`pending, this`deliveries, this`controlReused, issued`queue
      ensures TableOk() && WaitsOnlyForLive() && QueuesOk()
      ensures fresh(delivery) && deliveries == old(deliveries) + {delivery}
      ensures delivery.controlId == controlId && delivery.requireAll == requireAll && delivery.asked == asked
      ensures delivery.recipients == liveIds && FannedOut(delivery, bucket, liveIds)
      ensures forall sub | sub in issued && !(sub.streamId in liveIds && bucket[sub.streamId] == sub) ::
                sub.queue == old(sub.queue)
      ensures forall a | a in delivery.acks :: a.result.AckFailure?
      ensures delivery.future == if delivery.expected == {} then Resolved(delivery.Verdict()) else Open
      ensures delivery.departed == {} && delivery.returned == None
      ensures pending == if delivery.expected == {} then old(pending) - {controlId}
                         else old(pending)[controlId := delivery]
      ensures controlReused == (old(controlReused) || exists q :: q in old(deliveries) && q.controlId == controlId)
    {
      hide TableOk, IsLive, WaitsOnlyForLive, QueuesOk;
      delivery := new Pending(controlId, liveIds, requireAll, asked);
      assert TableOk();
      File(delivery);
      assert QueuesOk();
      FanOut(delivery, bucket, liveIds);
    }

    /** Everything `deliver` does before it waits. Without a live target the call returns
        Unavailable at once; otherwise a new delivery is filed and fanned out. */
    method BeginDeliver(sessionId: string, agentId: string, controlId: string, requireAll: bool, statusQuery: bool)
      returns (outcome: Option<Outcome>, delivery: Pending?)
      requires Valid()
      modifies this`pending, this`deliveries, this`controlReused, issued`queue
      ensures Valid()
      ensures outcome.Some? <==> delivery == null
      ensures outcome.Some? <==> old(forall sub | sub in issued :: !Receives(sub, agentId, sessionId))
      ensures outcome.Some? ==> outcome.value == Outcome(controlId, Unavailable, [])
      ensures outcome.Some? ==> pending == old(pending) && deliveries == old(deliveries)
      ensures outcome.None? ==>
                && fresh(delivery) && deliveries == old(deliveries) + {delivery}
                && delivery.controlId == controlId && delivery.requireAll == requireAll
                && delivery.asked == (if statusQuery then Some((sessionId, agentId)) else None)
                && delivery.recipients ==
                     old(set sub | sub in issued && Receives(sub, agentId, sessionId) :: sub.streamId)
                && (forall a | a in delivery.acks :: a.result.AckFailure?)
                && delivery.future == (if delivery.expected == {} then Resolved(delivery.Verdict()) else Open)
                && delivery.departed == {} && delivery.returned == None
                && pending == if delivery.expected == {} then old(pending) - {controlId}
                              else old(pending)[controlId := delivery]
      ensures forall sub | sub in issued && outcome.None? && old(Receives(sub, agentId, sessionId)) ::
                if |old(sub.queue)| < 256
                then sub.queue == old(sub.queue) + [controlId] && sub.streamId in delivery.expected
                else && sub.queue == old(sub.queue)
                     && AckRecord(sub.streamId, AckFailure, QUEUE_FULL) in delivery.acks
      ensures forall sub | sub in issued && (outcome.Some? || !old(Receives(sub, agentId, sessionId))) ::
                sub.queue == old(sub.queue)
      ensures controlReused == (old(controlReused)
        || (outcome.None? && exists q :: q in old(deliveries) && q.controlId == controlId))
    {
      hide TableOk, Registered, IsLive, WaitsOnlyForLive, UniqueStreams, QueuesOk, TargetBucket, LiveIds, Receives;
      var bucket := TargetBucket(agentId);
      var liveIds := LiveIds(bucket, sessionId);
      TargetsReceive(agentId, sessionId);
      if liveIds == {} {
        return Some(Outcome(controlId, Unavailable, [])), null;
      }
      TargetsAreLive(agentId, sessionId);
      outcome := None;
      var asked := if statusQuery then Some((sessionId, agentId)) else None;
      delivery := Dispatch(controlId, requireAll, asked, bucket, liveIds);
      assert UniqueStreams();
    }

    lemma TargetsAreLive(agentId: string, sessionId: string)
      requires Registered(subs, issued)
      ensures LiveIds(TargetBucket(agentId), sessionId) <= TargetBucket(agentId).Keys
      ensures forall s | s in TargetBucket(agentId) ::
                IsLive(subs, s) && TargetBucket(agentId)[s] in issued && TargetBucket(agentId)[s].streamId == s
    {
    }

    /** The streams of an agent's bucket are its live streams and those closed in it. */
    lemma BucketStreams(agentId: string)
      requires Registered(subs, issued)
      ensures var bucket, alias := TargetBucket(agentId), if agentId in aliases then aliases[agentId] else "";
              && (forall s | s in bucket :: bucket[s] in issued && bucket[s].streamId == s)
              && (forall s, o | s in bucket && o in bucket :: bucket[s].agentId == bucket[o].agentId)
              && (forall sub | sub in issued ::
                    Live(sub) && (sub.agentId == agentId || (agentId !in subs && alias != "" && sub.agentId == alias))
                    <==> sub.streamId in bucket && bucket[sub.streamId] == sub && !sub.closed)
              && (forall sub, s | sub in issued && Live(sub) && s in bucket && sub.agentId == bucket[s].agentId ::
                    sub.streamId in bucket && bucket[sub.streamId] == sub && !sub.closed)
    {
    }

    /** The targets are the streams that receive the event. */
    lemma TargetsReceive(agentId: string, sessionId: string)
      requires Registered(subs, issued)
      ensures var bucket, liveIds := TargetBucket(agentId), LiveIds(TargetBucket(agentId), sessionId);
              && liveIds <= bucket.Keys
              && (forall sub | sub in issued :: Receives(sub, agentId, sessionId) <==>
                    sub.streamId in liveIds && bucket[sub.streamId] == sub)
              && liveIds == set sub | sub in issued && Receives(sub, agentId, sessionId) :: sub.streamId
    {
      hide TargetBucket, Registered, Live;
      var bucket, liveIds := TargetBucket(agentId), LiveIds(TargetBucket(agentId), sessionId);
      BucketStreams(agentId);
      forall sub | sub in issued
        ensures Receives(sub, agentId, sessionId) <==> sub.streamId in liveIds && bucket[sub.streamId] == sub
      {
        if sub.streamId in bucket && bucket[sub.streamId] == sub { Targeted(bucket, sub, sessionId); }
      }
      forall s | s in liveIds ensures Receives(bucket[s], agentId, sessionId) && bucket[s].streamId == s { }
    }

    /** A stream of the bucket is a target exactly when the session rule lets it be. */
    lemma Targeted(bucket: map<string, Subscription>, sub: Subscription, sessionId: string)
      requires sub.streamId in bucket && bucket[sub.streamId] == sub
      requires forall s | s in bucket :: bucket[s] in issued && bucket[s].streamId == s
      requires forall s | s in bucket :: !bucket[s].closed ==> Live(bucket[s]) && bucket[s].agentId == sub.agentId
      requires forall o | o in issued && Live(o) && o.agentId == sub.agentId ::
                 o.streamId in bucket && bucket[o.streamId] == o && !o.closed
      ensures sub.streamId in LiveIds(bucket, sessionId) <==>
              && !sub.closed
              && ((sessionId != "" && sub.sessionId == sessionId)
                  || forall o | o in issued && Live(o) && o.agentId == sub.agentId ::
                       sessionId == "" || o.sessionId != sessionId)
    {
      hide Live;
      var matched := set s | s in bucket && !bucket[s].closed && sessionId != "" && bucket[s].sessionId == sessionId;
      if s :| s in matched {
        assert bucket[s] in issued && Live(bucket[s]);
      } else {
        forall o | o in issued && Live(o) && o.agentId == sub.agentId
          ensures sessionId == "" || o.sessionId != sessionId
        {
          assert o.streamId !in matched;
        }
      }
    }

    // ---- What settling means ------------------------------------------------------------

    /** A waiting delivery is never forgotten: it is in the table, some stream can still
        settle it, and with unique stream ids every awaited stream is live. */
    lemma WaitingIsServed(p: Pending)
      requires Valid() && p in deliveries && p.future.Open? && !controlReused
      ensures p.controlId in pending && pending[p.controlId] == p && p.expected != {}
      ensures !p.requireAll ==> forall a | a in p.acks :: a.result != AckSuccess
      ensures !streamReused ==> forall s | s in p.expected :: IsLive(subs, s)
    {
      RowOk(p);
      assert Filed(p);
    }
  }

  /** A settled delivery succeeded exactly when a stream acked success and, under
      require_all, every recipient that did not leave acked success. */
  lemma SettledMeaning(p: Pending)
    requires p.Sound() && p.future.Resolved?
    ensures p.future.outcome.controlId == p.controlId && p.future.outcome.acks == p.acks
    ensures p.future.outcome.result == Success || p.future.outcome.result == Failed
    ensures p.future.outcome.result == Success <==>
            && (exists a :: a in p.acks && a.result == AckSuccess)
            && (p.requireAll ==> forall s | s in p.recipients && s !in p.departed ::
                  exists a :: a in p.acks && a.streamId == s && a.result == AckSuccess)
    ensures p.future.outcome.result == Failed ==>
              forall s | s in p.recipients && s !in p.departed :: exists a :: a in p.acks && a.streamId == s
  {
    if p.requireAll && AnySuccess(p.acks) {
      if AllSuccess(p.acks) {
        forall s | s in p.recipients && s !in p.departed
          ensures exists a :: a in p.acks && a.streamId == s && a.result == AckSuccess
        {
          assert s in p.Ackers();
        }
      } else {
        var i :| 0 <= i < |p.acks| && !p.acks[i].result.AckSuccess?;
        assert p.acks[i] in p.acks && p.acks[i].streamId in p.Ackers();
        forall a | a in p.acks && a.streamId == p.acks[i].streamId ensures a == p.acks[i] {
          var j :| 0 <= j < |p.acks| && p.acks[j] == a;
        }
      }
    }
    forall s | s in p.recipients && s !in p.departed && s !in p.expected
      ensures exists a :: a in p.acks && a.streamId == s
    {
      assert s in p.Ackers();
    }
  }

  /** "Every subscription has ack'd" is more than require_all waits for: it holds of a
      settled require_all delivery if and only if no recipient left. */
  lemma EveryoneAckedIffNoneLeft(p: Pending)
    requires p.Sound() && p.future.Resolved? && p.requireAll
    ensures p.Ackers() == p.recipients <==> p.departed == {}
  {
  }

  /** ... and recipients do leave: whenever the last two awaited streams of a require_all
      delivery without a failure are one that acks success and one that leaves, the delivery
      succeeds without the ack of the latter. */
  method AckThenLeave(router: ControlRouter, p: Pending, acker: string, leaver: Subscription)
    requires router.Valid() && p in router.deliveries && leaver in router.issued
    requires leaver.streamId != acker && acker != ""
    requires p.requireAll && p.future.Open? && p.controlId in router.pending && router.pending[p.controlId] == p
    requires p.expected == {acker, leaver.streamId} && AllSuccess(p.acks)
    modifies router, router.deliveries, leaver
    ensures router.Valid() && p in router.deliveries
    ensures p.future.Resolved? && p.future.outcome.result == Success
    ensures leaver.streamId in p.departed && leaver.streamId !in p.Ackers()
  {
    hide ControlRouter.TableOk, ControlRouter.WaitsOnlyForLive, Registered, IsLive, Leave, Swept, Pruned;
    hide ControlRouter.UniqueStreams, ControlRouter.QueuesOk;
    var answer := router.RecordAck(p.controlId, AckSuccess, "", acker);
    assert p.expected == {leaver.streamId} && p.future.Open? && AllSuccess(p.acks) && AnySuccess(p.acks);
    router.Unsubscribe(leaver);
    router.RowOk(p);
  }

  method TwoStreams() returns (router: ControlRouter, x: Subscription, y: Subscription)
    ensures fresh(router) && fresh(x) && fresh(y) && router.Valid() && router.issued == {x, y}
    ensures router.deliveries == {} && router.aliases == map[] && router.pending == map[]
    ensures x.streamId == "x" && y.streamId == "y" && x.queue == y.queue == []
    ensures forall sub | sub in router.issued :: router.Receives(sub, "a", "s")
  {
    hide ControlRouter.Valid;
    router := new ControlRouter();
    x := router.Subscribe("s", "a", "x");
    y := router.Subscribe("s", "a", "y");
    assert router.subs["a"] == map["x" := x, "y" := y];
  }

  /** Two streams and a require_all delivery to both. */
  method DeliverToTwo() returns (router: ControlRouter, leaver: Subscription, delivery: Pending)
    ensures fresh(router) && router.Valid() && fresh(router.deliveries) && fresh(leaver)
    ensures delivery in router.deliveries && leaver in router.issued && leaver.streamId == "y"
    ensures delivery.requireAll && delivery.future.Open? && delivery.acks == []
    ensures delivery.recipients == delivery.expected == {"x", "y"}
    ensures delivery.controlId in router.pending && router.pending[delivery.controlId] == delivery
  {
    hide ControlRouter.Valid, ControlRouter.Receives;
    var x;
    router, x, leaver := TwoStreams();
    var outcome, begun := router.BeginDeliver("s", "a", "c", true, false);
    assert x in router.issued && leaver in router.issued;
    delivery := begun;
    assert "x" in delivery.expected && "y" in delivery.expected;
    DeliverySound(router, delivery);
    NobodyAcked(delivery);
  }

  lemma DeliverySound(router: ControlRouter, p: Pending)
    requires router.Valid() && p in router.deliveries
    ensures p.Sound()
  {
  }

  lemma NobodyAcked(p: Pending)
    requires p.Sound() && p.recipients <= p.expected
    ensures p.acks == []
  {
    FirstAcker(p);
  }

  lemma FirstAcker(p: Pending)
    ensures p.acks != [] ==> p.acks[0].streamId in p.Ackers()
  {
    if p.acks != [] {
      assert p.acks[0] in p.acks;
    }
  }

  /** So a require_all delivery can succeed although one of its recipients never acked. */
  method SuccessWithoutEveryone() returns (router: ControlRouter, delivery: Pending)
    ensures router.Valid() && delivery in router.deliveries && delivery.requireAll
    ensures delivery.future.Resolved? && delivery.future.outcome.result == Success
    ensures delivery.Ackers() != delivery.recipients
  {
    hide ControlRouter.Valid;
    var leaver;
    router, leaver, delivery := DeliverToTwo();
    AckThenLeave(router, delivery, "x", leaver);
  }
}
