/** The telemetry plugin's ledger of open spans, driven by callbacks in any order
    (client/harmonograf_client/telemetry_plugin.py). */
module SpanLedger {
  import opened Common

  type SpanId = nat

  datatype Status = Completed | Cancelled | Failed

  /** What the plugin hands to the client. */
  datatype Emission = Started(id: SpanId) | Ended(id: SpanId, status: Status)

  /** What a callback's context carries: the invocation id (empty when there is none), a name
      made from the context object's identity, and its session id (empty when unknown). */
  datatype Context = Context(invocationId: string, objectKey: string, sessionId: string)

  /** Where an open span is filed. */
  datatype Place = Run(key: string) | Model(key: string) | Tool(key: string)

  function RunKey(c: Context): string {
    if c.invocationId != "" then c.invocationId else c.objectKey
  }

  function ModelKey(c: Context): string {
    if c.invocationId != "" then c.invocationId else "_ctx:" + c.objectKey
  }

  /** The emissions so far started spans 0, 1, ..., n - 1 in turn and ended each span of
      `ended` once, after its start. */
  ghost predicate Paired(log: seq<Emission>, n: nat, ended: set<SpanId>)
    decreases |log|
  {
    if log == [] then n == 0 && ended == {}
    else
      var init := log[..|log| - 1];
      match log[|log| - 1]
      case Started(id) => id == n - 1 && Paired(init, n - 1, ended)
      case Ended(id, _) => id < n && id in ended && Paired(init, n, ended - {id})
  }

  /** Each span has at most one end, which follows its start; exactly the ids below `n` have
      started and exactly those of `ended` have ended. */
  lemma {:induction false} PairedMeaning(log: seq<Emission>, n: nat, ended: set<SpanId>)
    requires Paired(log, n, ended)
    ensures forall i, j | 0 <= i < j < |log| && log[i].id == log[j].id :: log[i].Started? && log[j].Ended?
    ensures forall id: nat :: id < n <==> Started(id) in log
    ensures forall id :: id in ended <==> exists s :: Ended(id, s) in log
    ensures forall e | e in log :: e.id < n && (e.Ended? ==> e.id in ended)
    decreases |log|
  {
    if log != [] {
      var init, last := log[..|log| - 1], log[|log| - 1];
      var n', ended' := if last.Started? then n - 1 else n, if last.Ended? then ended - {last.id} else ended;
      PairedMeaning(init, n', ended');
      assert log == init + [last];
      assert forall e :: e in log <==> e in init || e == last;
      forall i | 0 <= i < |init| && init[i].id == last.id ensures init[i].Started? && last.Ended? {
        assert init[i] in init;
      }
      forall id ensures id in ended <==> exists s :: Ended(id, s) in log {
        if id in ended' {
          var s :| Ended(id, s) in init;
          assert Ended(id, s) in log;
        } else if last.Ended? && id == last.id {
          assert Ended(id, last.status) in log;
        } else {
          assert forall s :: Ended(id, s) !in init;
        }
      }
    }
  }

  /** Started spans are open, ended or leaked, and only one of these. */
  ghost predicate Balanced(n: nat, open: set<SpanId>, ended: set<SpanId>, leaked: set<SpanId>) {
    && (forall id: nat :: id < n <==> id in open || id in ended || id in leaked)
    && open !! ended && open !! leaked && ended !! leaked
  }

  lemma BalancedStart(n: nat, open: set<SpanId>, ended: set<SpanId>, leaked: set<SpanId>, gone: set<SpanId>)
    requires Balanced(n, open, ended, leaked) && gone <= open
    ensures Balanced(n + 1, (open - gone) + {n}, ended, leaked + gone)
  {
  }

  lemma BalancedEnd(n: nat, open: set<SpanId>, ended: set<SpanId>, leaked: set<SpanId>, id: SpanId)
    requires Balanced(n, open, ended, leaked) && id in open
    ensures Balanced(n, open - {id}, ended + {id}, leaked) && id < n && id !in ended
  {
  }

  lemma PairedStart(log: seq<Emission>, n: nat, ended: set<SpanId>)
    requires Paired(log, n, ended)
    ensures Paired(log + [Started(n)], n + 1, ended)
  {
    assert (log + [Started(n)])[..|log|] == log;
  }

  lemma PairedEnd(log: seq<Emission>, n: nat, ended: set<SpanId>, id: SpanId, status: Status)
    requires Paired(log, n, ended) && id < n && id !in ended
    ensures Paired(log + [Ended(id, status)], n, ended + {id})
  {
    assert (log + [Ended(id, status)])[..|log|] == log;
    assert ended + {id} - {id} == ended;
  }

  // ---- The filing maps --------------------------------------------------------------

  datatype Files = Files(runs: map<string, SpanId>, models: map<string, seq<SpanId>>, tools: map<string, SpanId>)

  ghost predicate At(f: Files, place: Place, id: SpanId) {
    match place
    case Run(k) => k in f.runs && f.runs[k] == id
    case Tool(k) => k in f.tools && f.tools[k] == id
    case Model(k) => k in f.models && id in f.models[k]
  }

  /** A queue holds its spans in the order they started. */
  ghost predicate Oldest(q: seq<SpanId>) {
    forall i, j | 0 <= i < j < |q| :: q[i] < q[j]
  }

  /** The three maps and the set of open spans agree, so no span is filed twice. */
  ghost predicate Filed(f: Files, open: map<SpanId, Place>) {
    && (forall id | id in open :: At(f, open[id], id))
    && (forall k | k in f.runs :: f.runs[k] in open && open[f.runs[k]] == Run(k))
    && (forall k | k in f.tools :: f.tools[k] in open && open[f.tools[k]] == Tool(k))
    && (forall k | k in f.models :: f.models[k] != [] && Oldest(f.models[k]))
    && (forall k, id | k in f.models && id in f.models[k] :: id in open && open[id] == Model(k))
  }

  ghost function InSlot(m: map<string, SpanId>, key: string): set<SpanId> {
    if key in m then {m[key]} else {}
  }

  lemma FiledRun(f: Files, open: map<SpanId, Place>, key: string, id: SpanId)
    requires Filed(f, open) && id !in open
    ensures InSlot(f.runs, key) <= open.Keys
    ensures Filed(f.(runs := f.runs[key := id]), (open - InSlot(f.runs, key))[id := Run(key)])
  {
  }

  lemma FiledTool(f: Files, open: map<SpanId, Place>, key: string, id: SpanId)
    requires Filed(f, open) && id !in open
    ensures InSlot(f.tools, key) <= open.Keys
    ensures Filed(f.(tools := f.tools[key := id]), (open - InSlot(f.tools, key))[id := Tool(key)])
  {
  }

  function QueueOf(m: map<string, seq<SpanId>>, key: string): seq<SpanId> {
    if key in m then m[key] else []
  }

  lemma FiledModel(f: Files, open: map<SpanId, Place>, key: string, id: SpanId)
    requires Filed(f, open) && forall i | i in open :: i < id
    ensures Filed(f.(models := f.models[key := QueueOf(f.models, key) + [id]]), open[id := Model(key)])
  {
    hide Oldest;
    var q := QueueOf(f.models, key);
    EmptyIsOldest();
    forall i | i in q ensures i < id {
      assert i in open && open[i] == Model(key);
    }
    assert Oldest(q);
    QueueGrows(q, id);
    forall k, i | k in f.models && i in f.models[k] ensures i != id {
      assert i in open;
    }
  }

  lemma EmptyIsOldest()
    ensures Oldest([])
  {
  }

  lemma QueueGrows(q: seq<SpanId>, id: SpanId)
    requires Oldest(q) && forall i | i in q :: i < id
    ensures Oldest(q + [id]) && forall i :: i in q + [id] <==> i in q || i == id
  {
    forall i, j | 0 <= i < j < |q + [id]| ensures (q + [id])[i] < (q + [id])[j] {
      assert q[i] in q;
    }
  }

  lemma UnfiledRun(f: Files, open: map<SpanId, Place>, key: string)
    requires Filed(f, open) && key in f.runs
    ensures f.runs[key] in open && open[f.runs[key]] == Run(key)
    ensures Filed(f.(runs := f.runs - {key}), open - {f.runs[key]})
  {
  }

  lemma UnfiledTool(f: Files, open: map<SpanId, Place>, key: string)
    requires Filed(f, open) && key in f.tools
    ensures f.tools[key] in open && open[f.tools[key]] == Tool(key)
    ensures Filed(f.(tools := f.tools - {key}), open - {f.tools[key]})
  {
  }

  function Dequeued(m: map<string, seq<SpanId>>, key: string): map<string, seq<SpanId>>
    requires key in m && m[key] != []
  {
    if |m[key]| == 1 then m - {key} else m[key := m[key][1..]]
  }

  lemma UnfiledModel(f: Files, open: map<SpanId, Place>, key: string)
    requires Filed(f, open) && key in f.models
    ensures f.models[key] != []
    ensures f.models[key][0] in open && open[f.models[key][0]] == Model(key)
    ensures Filed(f.(models := Dequeued(f.models, key)), open - {f.models[key][0]})
  {
    hide Oldest;
    QueueTail(f.models[key]);
  }

  lemma QueueTail(q: seq<SpanId>)
    requires Oldest(q) && q != []
    ensures q[0] !in q[1..] && Oldest(q[1..])
    ensures forall id :: id in q <==> id == q[0] || id in q[1..]
  {
    assert q == [q[0]] + q[1..];
  }

  /** The owner of a span is the invocation of the callback that opened it, empty when its
      context had none. An owned run or model span is filed under its owner. Tools whose slot was taken over
      by another call may carry the earlier call's invocation. */
  ghost predicate Belongs(open: map<SpanId, Place>, owner: map<SpanId, string>, toolInv: map<string, string>,
                          leaked: set<SpanId>) {
    && open.Keys <= owner.Keys
    && (forall id | id in open && !open[id].Tool? && owner[id] != "" :: owner[id] == open[id].key)
    && (leaked == {} ==> forall id | id in open && open[id].Tool? ::
          owner[id] == if open[id].key in toolInv then toolInv[open[id].key] else "")
    && (forall k | k in toolInv :: toolInv[k] != "")
  }

  class Ledger {
    var invocationSpans: map<string, SpanId>
    var modelSpans: map<string, seq<SpanId>>
    var toolSpans: map<string, SpanId>
    var toolSpanInvocations: map<string, string>
    var wrapperInvocations: set<string>
    var rootSession: Option<string>
    var rootInvocation: Option<string>
    var nextId: SpanId
    var log: seq<Emission>

    // Where each open span is filed, the invocation of the callback that opened it, the spans that ended, and
    // those that were pushed out of their slot by another span under the same key.
    ghost var open: map<SpanId, Place>
    ghost var owner: map<SpanId, string>
    ghost var ended: set<SpanId>
    ghost var leaked: set<SpanId>

    ghost function Maps(): Files
      reads this`invocationSpans, this`modelSpans, this`toolSpans
    {
      Files(invocationSpans, modelSpans, toolSpans)
    }

    ghost predicate Valid()
      reads this
    {
      && Filed(Maps(), open)
      && Paired(log, nextId, ended)
      && Balanced(nextId, open.Keys, ended, leaked)
      && Belongs(open, owner, toolSpanInvocations, leaked)
      && toolSpanInvocations.Keys <= toolSpans.Keys
    }

    constructor ()
      ensures Valid() && open == map[] && log == [] && ended == leaked == {}
      ensures rootSession == None && rootInvocation == None && wrapperInvocations == {}
    {
      invocationSpans, modelSpans, toolSpans, toolSpanInvocations := map[], map[], map[], map[];
      wrapperInvocations, rootSession, rootInvocation := {}, None, None;
      nextId, log, open, owner, ended, leaked := 0, [], map[], map[], {}, {};
    }

    // ---- Opening and closing one span -------------------------------------------------

    /** A span starts under a run key; a span already filed there is pushed out. */
    method OpenRun(key: string, invocationId: string)
      requires Valid() && (invocationId != "" ==> key == invocationId)
      modifies this`invocationSpans, this`nextId, this`log, this`open, this`owner, this`leaked
      ensures Valid() && log == old(log) + [Started(old(nextId))]
      ensures leaked == old(leaked) + InSlot(old(invocationSpans), key)
      ensures open == (old(open) - InSlot(old(invocationSpans), key))[old(nextId) := Run(key)]
      ensures owner == old(owner)[old(nextId) := invocationId]
      ensures invocationSpans == old(invocationSpans)[key := old(nextId)]
    {
      hide Filed, Paired, Balanced, Belongs;
      var id := nextId;
      ghost var gone := InSlot(invocationSpans, key);
      FreshId(nextId, open.Keys, ended, leaked);
      OpenBelongs(open, owner, toolSpanInvocations, leaked, id, Run(key), invocationId, gone);
      PairedStart(log, id, ended);
      FiledRun(Maps(), open, key, id);
      BalancedStart(id, open.Keys, ended, leaked, gone);
      open, owner, leaked := (open - gone)[id := Run(key)], owner[id := invocationId], leaked + gone;
      assert open.Keys == (old(open).Keys - gone) + {id};
      log, nextId := log + [Started(id)], id + 1;
      invocationSpans := invocationSpans[key := id];
    }

    method OpenModel(key: string, invocationId: string)
      requires Valid() && (invocationId != "" ==> key == invocationId)
      modifies this`modelSpans, this`nextId, this`log, this`open, this`owner
      ensures Valid() && log == old(log) + [Started(old(nextId))]
      ensures open == old(open)[old(nextId) := Model(key)] && owner == old(owner)[old(nextId) := invocationId]
      ensures modelSpans == old(modelSpans)[key := QueueOf(old(modelSpans), key) + [old(nextId)]]
    {
      hide Filed, Paired, Balanced, Belongs;
      var id := nextId;
      FreshId(nextId, open.Keys, ended, leaked);
      OpenBelongs(open, owner, toolSpanInvocations, leaked, id, Model(key), invocationId, {});
      assert open - {} == open;
      PairedStart(log, id, ended);
      FiledModel(Maps(), open, key, id);
      BalancedStart(id, open.Keys, ended, leaked, {});
      open, owner := open[id := Model(key)], owner[id := invocationId];
      assert open.Keys == old(open).Keys - {} + {id} && leaked + {} == leaked;
      log, nextId := log + [Started(id)], id + 1;
      modelSpans := modelSpans[key := QueueOf(modelSpans, key) + [id]];
    }

    /** A span starts under a tool context; a span already filed there is pushed out, and an
        invocation already noted there stays when the new context has none. */
    method OpenTool(key: string, invocationId: string)
      requires Valid()
      modifies this`toolSpans, this`toolSpanInvocations, this`nextId, this`log, this`open, this`owner, this`leaked
      ensures Valid() && log == old(log) + [Started(old(nextId))]
      ensures leaked == old(leaked) + InSlot(old(toolSpans), key)
      ensures open == (old(open) - InSlot(old(toolSpans), key))[old(nextId) := Tool(key)]
      ensures owner == old(owner)[old(nextId) := invocationId] && toolSpans == old(toolSpans)[key := old(nextId)]
    {
      hide Filed, Paired, Balanced, Belongs;
      var id := nextId;
      ghost var gone := InSlot(toolSpans, key);
      FreshId(nextId, open.Keys, ended, leaked);
      PairedStart(log, id, ended);
      FiledTool(Maps(), open, key, id);
      BalancedStart(id, open.Keys, ended, leaked, gone);
      OpenToolBelongs(Maps(), open, owner, toolSpanInvocations, leaked, key, id, invocationId);
      open, owner, leaked := (open - gone)[id := Tool(key)], owner[id := invocationId], leaked + gone;
      assert open.Keys == (old(open).Keys - gone) + {id};
      log, nextId := log + [Started(id)], id + 1;
      toolSpans := toolSpans[key := id];
      if invocationId != "" {
        toolSpanInvocations := toolSpanInvocations[key := invocationId];
      }
    }

    method CloseRun(key: string, status: Status)
      requires Valid() && key in invocationSpans
      modifies this`invocationSpans, this`log, this`open, this`ended
      ensures Valid() && invocationSpans == old(invocationSpans) - {key}
      ensures log == old(log) + [Ended(old(invocationSpans)[key], status)]
      ensures open == old(open) - {old(invocationSpans)[key]}
    {
      hide Filed, Paired, Balanced;
      var id := invocationSpans[key];
      UnfiledRun(Maps(), open, key);
      invocationSpans := invocationSpans - {key};
      End(id, status);
    }

    method CloseTool(key: string, status: Status)
      requires Valid() && key in toolSpans
      modifies this`toolSpans, this`toolSpanInvocations, this`log, this`open, this`ended
      ensures Valid() && toolSpans == old(toolSpans) - {key}
      ensures toolSpanInvocations == old(toolSpanInvocations) - {key}
      ensures log == old(log) + [Ended(old(toolSpans)[key], status)]
      ensures open == old(open) - {old(toolSpans)[key]}
    {
      hide Filed, Paired, Balanced;
      var id := toolSpans[key];
      UnfiledTool(Maps(), open, key);
      CloseToolBelongs(Maps(), open, owner, toolSpanInvocations, leaked, key);
      toolSpans := toolSpans - {key};
      toolSpanInvocations := toolSpanInvocations - {key};
      End(id, status);
    }

    /** The oldest model span under the key ends. */
    method CloseModel(key: string, status: Status)
      requires Valid() && key in modelSpans
      modifies this`modelSpans, this`log, this`open, this`ended
      ensures Valid() && old(modelSpans)[key] != [] && modelSpans == Dequeued(old(modelSpans), key)
      ensures log == old(log) + [Ended(old(modelSpans)[key][0], status)]
      ensures open == old(open) - {old(modelSpans)[key][0]}
    {
      hide Filed, Paired, Balanced;
      var queue := modelSpans[key];
      UnfiledModel(Maps(), open, key);
      modelSpans := if |queue| == 1 then modelSpans - {key} else modelSpans[key := queue[1..]];
      End(queue[0], status);
    }

    method End(id: SpanId, status: Status)
      requires id in open && Paired(log, nextId, ended) && Balanced(nextId, open.Keys, ended, leaked)
      modifies this`log, this`open, this`ended
      ensures Paired(log, nextId, ended) && Balanced(nextId, open.Keys, ended, leaked)
      ensures log == old(log) + [Ended(id, status)] && open == old(open) - {id}
    {
      BalancedEnd(nextId, open.Keys, ended, leaked, id);
      PairedEnd(log, nextId, ended, id, status);
      hide Paired, Balanced;
      log, open, ended := log + [Ended(id, status)], open - {id}, ended + {id};
      assert open.Keys == old(open).Keys - {id};
    }

    // ---- Callbacks --------------------------------------------------------------------

    /** The first run with a session becomes the root. A goldfive wrapper opens no span. */
    method BeforeRun(ctx: Context, wrapper: bool)
      requires Valid()
      modifies this
      ensures Valid()
      ensures if old(rootSession) == None && ctx.sessionId != ""
        then rootSession == Some(ctx.sessionId)
             && rootInvocation == (if ctx.invocationId != "" then Some(ctx.invocationId) else None)
        else rootSession == old(rootSession) && rootInvocation == old(rootInvocation)
      ensures wrapper ==>
        && open == old(open) && log == old(log) && leaked == old(leaked)
        && wrapperInvocations == old(wrapperInvocations) + (if ctx.invocationId != "" then {ctx.invocationId} else {})
      ensures !wrapper ==>
        && log == old(log) + [Started(old(nextId))] && wrapperInvocations == old(wrapperInvocations)
        && owner == old(owner)[old(nextId) := ctx.invocationId]
        && var key := if ctx.invocationId != "" then ctx.invocationId else ctx.objectKey;
           && leaked == old(leaked) + InSlot(old(invocationSpans), key)
           && open == (old(open) - InSlot(old(invocationSpans), key))[old(nextId) := Run(key)]
    {
      hide Filed, Paired, Balanced, Belongs;
      if rootSession == None && ctx.sessionId != "" {
        rootSession := Some(ctx.sessionId);
        rootInvocation := if ctx.invocationId != "" then Some(ctx.invocationId) else None;
      }
      if wrapper {
        if ctx.invocationId != "" {
          wrapperInvocations := wrapperInvocations + {ctx.invocationId};
        }
        return;
      }
      OpenRun(RunKey(ctx), ctx.invocationId);
    }

    /** A wrapper's end only forgets the wrapper: the root session stays cached even when the
        wrapper is the root. Any other end closes the run and its leftover model spans, and
        releases the root session when the run is the root. */
    method AfterRun(ctx: Context)
      requires Valid()
      modifies this
      ensures Valid() && leaked == old(leaked) && OnlyEnds(old(log), log, Completed)
      ensures var inv := ctx.invocationId;
        if inv != "" && inv in old(wrapperInvocations) then
          && wrapperInvocations == old(wrapperInvocations) - {inv} && open == old(open)
          && rootSession == old(rootSession) && rootInvocation == old(rootInvocation)
        else
          && wrapperInvocations == old(wrapperInvocations)
          && open == old(open) - (if inv != "" then FiledAt(old(open), Model(inv)) else {})
                   - FiledAt(old(open), Run(if inv in old(invocationSpans) then inv else ctx.objectKey))
          && if inv != "" && old(rootInvocation) == Some(inv) then rootSession == None && rootInvocation == None
             else rootSession == old(rootSession) && rootInvocation == old(rootInvocation)
    {
      hide Filed, Paired, Balanced, Belongs;
      var inv := ctx.invocationId;
      if inv != "" && inv in wrapperInvocations {
        wrapperInvocations := wrapperInvocations - {inv};
        return;
      }
      if inv != "" {
        CloseModels(inv, Completed);
      }
      var key := if inv in invocationSpans then inv else ctx.objectKey;
      RunUnchanged(old(open), open, inv, key);
      CloseRunIfOpen(key, Completed);
      if rootInvocation.Some? && inv != "" && inv == rootInvocation.value {
        rootSession, rootInvocation := None, None;
      }
    }

    method CloseRunIfOpen(key: string, status: Status)
      requires Valid()
      modifies this`invocationSpans, this`log, this`open, this`ended
      ensures Valid() && invocationSpans == old(invocationSpans) - {key}
      ensures open == old(open) - FiledAt(old(open), Run(key)) && OnlyEnds(old(log), log, status)
    {
      hide Paired, Balanced, Belongs;
      assert FiledAt(open, Run(key)) == InSlot(invocationSpans, key);
      if key in invocationSpans {
        CloseRun(key, status);
      } else {
        assert invocationSpans - {key} == invocationSpans && open - {} == open;
      }
    }

    /** Every model span under the key ends, oldest first. */
    method CloseModels(key: string, status: Status)
      requires Valid()
      modifies this`modelSpans, this`log, this`open, this`ended
      ensures Valid() && modelSpans == old(modelSpans) - {key}
      ensures open == old(open) - FiledAt(old(open), Model(key)) && OnlyEnds(old(log), log, status)
    {
      hide Filed, Paired, Balanced, Belongs;
      while key in modelSpans
        invariant Valid() && modelSpans - {key} == old(modelSpans) - {key}
        invariant open.Keys <= old(open).Keys && OnlyEnds(old(log), log, status)
        invariant forall id | id in open :: open[id] == old(open)[id]
        invariant forall id | id in old(open) && old(open)[id] != Model(key) :: id in open
        decreases |QueueOf(modelSpans, key)|
      {
        UnfiledModel(Maps(), open, key);
        CloseModel(key, status);
      }
      NoModelsLeft(Maps(), open, key);
      assert modelSpans - {key} == modelSpans;
      assert open == old(open) - FiledAt(old(open), Model(key));
    }

    method BeforeModel(ctx: Context)
      requires Valid()
      modifies this`modelSpans, this`nextId, this`log, this`open, this`owner
      ensures Valid() && log == old(log) + [Started(old(nextId))]
      ensures owner == old(owner)[old(nextId) := ctx.invocationId]
      ensures var key := if ctx.invocationId != "" then ctx.invocationId else "_ctx:" + ctx.objectKey;
        && open == old(open)[old(nextId) := Model(key)]
        && modelSpans == old(modelSpans)[key := QueueOf(old(modelSpans), key) + [old(nextId)]]
    {
      OpenModel(ModelKey(ctx), ctx.invocationId);
    }

    /** The final response closes the oldest open model call of the invocation; a partial one
        and a stray one close nothing. */
    method AfterModel(ctx: Context, partial: bool, failed: bool)
      requires Valid()
      modifies this`modelSpans, this`log, this`open, this`ended
      ensures Valid()
      ensures var key := if ctx.invocationId != "" then ctx.invocationId else "_ctx:" + ctx.objectKey;
        var mine := FiledAt(old(open), Model(key));
        if mine == {} || partial then log == old(log) && open == old(open) && modelSpans == old(modelSpans)
        else exists first ::
          && first in mine && (forall id | id in mine :: first <= id)
          && log == old(log) + [Ended(first, if failed then Failed else Completed)] && open == old(open) - {first}
    {
      hide Filed, Paired, Balanced, Belongs;
      var key := ModelKey(ctx);
      ModelsAt(Maps(), open, key);
      if key !in modelSpans {
        return;
      }
      if partial {
        return;
      }
      CloseModel(key, if failed then Failed else Completed);
    }

    method BeforeTool(ctx: Context)
      requires Valid()
      modifies this`toolSpans, this`toolSpanInvocations, this`nextId, this`log, this`open, this`owner, this`leaked
      ensures Valid() && log == old(log) + [Started(old(nextId))]
      ensures leaked == old(leaked) + InSlot(old(toolSpans), ctx.objectKey)
      ensures open == (old(open) - InSlot(old(toolSpans), ctx.objectKey))[old(nextId) := Tool(ctx.objectKey)]
      ensures owner == old(owner)[old(nextId) := ctx.invocationId]
    {
      OpenTool(ctx.objectKey, ctx.invocationId);
    }

    /** The tool call of this context ends, successfully or with an error; a stray end closes nothing. */
    method AfterTool(ctx: Context, failed: bool)
      requires Valid()
      modifies this`toolSpans, this`toolSpanInvocations, this`log, this`open, this`ended
      ensures Valid() && toolSpans == old(toolSpans) - {ctx.objectKey}
      ensures if ctx.objectKey !in old(toolSpans) then log == old(log) && open == old(open)
        else log == old(log) + [Ended(old(toolSpans)[ctx.objectKey], if failed then Failed else Completed)]
             && open == old(open) - {old(toolSpans)[ctx.objectKey]}
    {
      hide Filed, Paired, Balanced, Belongs;
      if ctx.objectKey in toolSpans {
        CloseTool(ctx.objectKey, if failed then Failed else Completed);
      } else {
        assert toolSpans - {ctx.objectKey} == toolSpans;
      }
    }

    /** Cancelling an invocation ends the open spans found under it, and nothing else. */
    method OnCancellation(invocationId: string)
      requires Valid()
      modifies this
      ensures Valid() && leaked == old(leaked) && OnlyEnds(old(log), log, Cancelled)
      ensures invocationId == "" ==> open == old(open) && rootSession == old(rootSession)
      ensures invocationId != "" ==> open == old(open) - Under(old(open), old(toolSpanInvocations), invocationId)
      ensures invocationId != "" ==> if old(rootInvocation) == Some(invocationId)
        then rootSession == None && rootInvocation == None
        else rootSession == old(rootSession) && rootInvocation == old(rootInvocation)
    {
      hide Filed, Paired, Balanced, Belongs, FiledAt, ToolsOf, Under;
      if invocationId == "" {
        return;
      }
      CloseModels(invocationId, Cancelled);
      CloseToolsOf(invocationId, Cancelled);
      CloseRunIfOpen(invocationId, Cancelled);
      UnderParts(old(open), old(toolSpanInvocations), invocationId);
      if rootInvocation.Some? && invocationId == rootInvocation.value {
        rootSession, rootInvocation := None, None;
      }
    }

    method CloseToolsOf(invocationId: string, status: Status)
      requires Valid()
      modifies this`toolSpans, this`toolSpanInvocations, this`log, this`open, this`ended
      ensures Valid() && OnlyEnds(old(log), log, status)
      ensures open == old(open) - ToolsOf(old(open), old(toolSpanInvocations), invocationId)
    {
      hide Filed, Paired, Balanced, Belongs, ToolsIn, ToolsOf, FiledAt, OnlyEnds;
      var stale := set key | key in toolSpanInvocations && toolSpanInvocations[key] == invocationId;
      ghost var done: set<string> := {};
      ToolsInNone(open);
      ToolsOfKeys(open, toolSpanInvocations, invocationId, stale);
      OnlyEndsSame(log, status);
      while stale != {}
        invariant Valid() && OnlyEnds(old(log), log, status)
        invariant stale <= toolSpanInvocations.Keys
        invariant open == old(open) - ToolsIn(old(open), done)
        invariant ToolsIn(old(open), done + stale) == ToolsOf(old(open), old(toolSpanInvocations), invocationId)
        decreases |stale|
      {
        var key :| key in stale;
        ToolAt(Maps(), open, key);
        OnlyEndsMore(old(log), log, toolSpans[key], status);
        CloseTool(key, status);
        ToolsInStep(old(open), done, key);
        assert done + stale == (done + {key}) + (stale - {key});
        stale, done := stale - {key}, done + {key};
      }
      assert done + {} == done;
    }

    method CloseAllRuns(status: Status)
      requires Valid()
      modifies this`invocationSpans, this`log, this`open, this`ended
      ensures Valid() && OnlyEnds(old(log), log, status) && invocationSpans == map[]
    {
      hide Filed, Paired, Balanced, Belongs;
      while invocationSpans.Keys != {}
        invariant Valid() && OnlyEnds(old(log), log, status)
        decreases invocationSpans.Keys
      {
        var key :| key in invocationSpans.Keys;
        CloseRun(key, status);
      }
    }

    method CloseAllModels(status: Status)
      requires Valid()
      modifies this`modelSpans, this`log, this`open, this`ended
      ensures Valid() && OnlyEnds(old(log), log, status) && modelSpans == map[]
    {
      hide Filed, Paired, Balanced, Belongs;
      while modelSpans.Keys != {}
        invariant Valid() && OnlyEnds(old(log), log, status)
        decreases modelSpans.Keys
      {
        var key :| key in modelSpans.Keys;
        CloseModels(key, status);
      }
    }

    method CloseAllTools(status: Status)
      requires Valid()
      modifies this`toolSpans, this`toolSpanInvocations, this`log, this`open, this`ended
      ensures Valid() && OnlyEnds(old(log), log, status) && toolSpans == map[]
    {
      hide Filed, Paired, Balanced, Belongs;
      while toolSpans.Keys != {}
        invariant Valid() && OnlyEnds(old(log), log, status)
        decreases toolSpans.Keys
      {
        var key :| key in toolSpans.Keys;
        CloseTool(key, status);
      }
    }

    /** The end-of-run sweep: nothing stays open, whatever came before. */
    method OnRunEnd()
      requires Valid()
      modifies this
      ensures Valid() && leaked == old(leaked) && OnlyEnds(old(log), log, Completed)
      ensures open == map[] && ended == old(ended) + old(open).Keys
      ensures rootSession == old(rootSession) && rootInvocation == old(rootInvocation)
      ensures wrapperInvocations == old(wrapperInvocations)
    {
      hide Filed, Paired, Balanced, Belongs;
      CloseAllRuns(Completed);
      CloseAllModels(Completed);
      CloseAllTools(Completed);
      NothingFiled(Maps(), open);
      AllEnded(nextId, old(open).Keys, old(ended), open.Keys, ended, leaked);
    }

    /** The session a span is stamped with. */
    function StampSession(ctx: Context, home: string): string
      reads this`rootSession
    {
      if rootSession.Some? && rootSession.value != "" then rootSession.value
      else if ctx.sessionId != "" then ctx.sessionId
      else home
    }
  }

  /** Only span ends of one status were emitted since. */
  ghost predicate OnlyEnds(before: seq<Emission>, after: seq<Emission>, status: Status) {
    && |before| <= |after| && after[..|before|] == before
    && forall i | |before| <= i < |after| :: after[i].Ended? && after[i].status == status
  }

  ghost function FiledAt(open: map<SpanId, Place>, place: Place): set<SpanId> {
    set id | id in open && open[id] == place
  }

  ghost function ToolsOf(open: map<SpanId, Place>, toolInv: map<string, string>, inv: string): set<SpanId> {
    set id | id in open && open[id].Tool? && open[id].key in toolInv && toolInv[open[id].key] == inv
  }

  ghost function ToolsIn(open: map<SpanId, Place>, keys: set<string>): set<SpanId> {
    set id | id in open && open[id].Tool? && open[id].key in keys
  }

  lemma ToolsInNone(open: map<SpanId, Place>)
    ensures open - ToolsIn(open, {}) == open
  {
  }

  lemma ToolsOfKeys(open: map<SpanId, Place>, toolInv: map<string, string>, inv: string, keys: set<string>)
    requires forall k :: k in keys <==> k in toolInv && toolInv[k] == inv
    ensures ToolsIn(open, {} + keys) == ToolsOf(open, toolInv, inv)
  {
  }

  lemma OnlyEndsSame(log: seq<Emission>, status: Status)
    ensures OnlyEnds(log, log, status)
  {
  }

  lemma OnlyEndsMore(before: seq<Emission>, after: seq<Emission>, id: SpanId, status: Status)
    requires OnlyEnds(before, after, status)
    ensures OnlyEnds(before, after + [Ended(id, status)], status)
  {
  }

  lemma ToolsInStep(open: map<SpanId, Place>, keys: set<string>, key: string)
    ensures open - ToolsIn(open, keys + {key})
         == (open - ToolsIn(open, keys)) - FiledAt(open - ToolsIn(open, keys), Tool(key))
  {
  }

  lemma UnderParts(open: map<SpanId, Place>, toolInv: map<string, string>, inv: string)
    ensures var o1 := open - FiledAt(open, Model(inv));
      var o2 := o1 - ToolsOf(o1, toolInv, inv);
      o2 - FiledAt(o2, Run(inv)) == open - Under(open, toolInv, inv)
  {
  }

  /** When nothing is open any more, everything that was open has ended. */
  lemma AllEnded(n: nat, open: set<SpanId>, ended: set<SpanId>, open': set<SpanId>, ended': set<SpanId>,
                 leaked: set<SpanId>)
    requires Balanced(n, open, ended, leaked) && Balanced(n, open', ended', leaked) && open' == {}
    ensures ended' == ended + open
  {
    forall id ensures id in ended' <==> id in ended + open {
      assert id in ended' ==> id < n;
    }
  }

  ghost function Under(open: map<SpanId, Place>, toolInv: map<string, string>, inv: string): set<SpanId> {
    FiledAt(open, Model(inv)) + ToolsOf(open, toolInv, inv) + FiledAt(open, Run(inv))
  }

  lemma RunUnchanged(before: map<SpanId, Place>, after: map<SpanId, Place>, inv: string, key: string)
    requires after == before || after == before - FiledAt(before, Model(inv))
    ensures FiledAt(after, Run(key)) == FiledAt(before, Run(key))
  {
  }

  lemma NoModelsLeft(f: Files, open: map<SpanId, Place>, key: string)
    requires Filed(f, open) && key !in f.models
    ensures forall id | id in open :: open[id] != Model(key)
  {
  }

  /** The queue of a key holds its open model spans, oldest first. */
  lemma ModelsAt(f: Files, open: map<SpanId, Place>, key: string)
    requires Filed(f, open)
    ensures key !in f.models ==> FiledAt(open, Model(key)) == {}
    ensures key in f.models ==>
      && f.models[key] != [] && f.models[key][0] in FiledAt(open, Model(key))
      && forall id | id in FiledAt(open, Model(key)) :: f.models[key][0] <= id
  {
  }

  lemma ToolAt(f: Files, open: map<SpanId, Place>, key: string)
    requires Filed(f, open) && key in f.tools
    ensures FiledAt(open, Tool(key)) == {f.tools[key]}
  {
  }

  lemma NothingFiled(f: Files, open: map<SpanId, Place>)
    requires Filed(f, open) && f == Files(map[], map[], map[])
    ensures open == map[]
  {
    assert forall id | id in open :: At(f, open[id], id);
  }

  /** With no slot ever taken over, what a cancellation ends is exactly what the callbacks of
      that invocation opened and did not close, if and only if no span opened without an
      invocation id is filed under a key that reads like that id. */
  lemma CancelEndsItsOwn(ledger: Ledger, inv: string)
    requires ledger.Valid() && ledger.leaked == {} && inv != ""
    ensures Under(ledger.open, ledger.toolSpanInvocations, inv)
         == (set id | id in ledger.open && ledger.owner[id] == inv)
       <==> !(exists id :: id in ledger.open && ledger.owner[id] == "" && !ledger.open[id].Tool?
                           && ledger.open[id].key == inv)
  {
    hide Filed, Paired, Balanced;
    var under, own := Under(ledger.open, ledger.toolSpanInvocations, inv),
      set id | id in ledger.open && ledger.owner[id] == inv;
    if id :| id in ledger.open && ledger.owner[id] == "" && !ledger.open[id].Tool? && ledger.open[id].key == inv {
      assert id in under && id !in own;
    }
  }

  /** A model call is paired through its invocation: whatever context of the invocation the
      response comes with, it ends the oldest call still open there. */
  method ModelEndsByInvocation(ledger: Ledger, before: Context, after: Context, failed: bool) returns (id: SpanId)
    requires ledger.Valid() && before.invocationId == after.invocationId != ""
    modifies ledger
    ensures ledger.Valid()
    ensures ledger.log == old(ledger.log) + [Started(old(ledger.nextId)),
                                             Ended(id, if failed then Failed else Completed)]
    ensures if FiledAt(old(ledger.open), Model(before.invocationId)) == {} then id == old(ledger.nextId)
            else && id in FiledAt(old(ledger.open), Model(before.invocationId))
                 && forall other | other in FiledAt(old(ledger.open), Model(before.invocationId)) :: id <= other
  {
    hide Filed, Paired, Balanced, Belongs;
    ghost var mine := FiledAt(ledger.open, Model(before.invocationId));
    ghost var n := ledger.nextId;
    FreshId(n, ledger.open.Keys, ledger.ended, ledger.leaked);
    ledger.BeforeModel(before);
    assert FiledAt(ledger.open, Model(before.invocationId)) == mine + {n};
    ModelsAt(ledger.Maps(), ledger.open, before.invocationId);
    id := ledger.modelSpans[before.invocationId][0];
    ledger.AfterModel(after, false, failed);
  }

  /** ... and a cancellation of the invocation ends it, if nothing else has. */
  method ModelEndsByCancellation(ledger: Ledger, before: Context)
    requires ledger.Valid() && before.invocationId != ""
    modifies ledger
    ensures ledger.Valid()
    ensures Ended(old(ledger.nextId), Cancelled) in ledger.log
  {
    hide Filed, Paired, Balanced, Belongs;
    ghost var id := ledger.nextId;
    ledger.BeforeModel(before);
    NotEndedYet(ledger, id);
    ghost var log := ledger.log;
    ledger.OnCancellation(before.invocationId);
    EndedSince(ledger, log, id, Cancelled);
  }

  lemma NotEndedYet(ledger: Ledger, id: SpanId)
    requires ledger.Valid() && id in ledger.open
    ensures Started(id) in ledger.log && id !in ledger.leaked && forall s :: Ended(id, s) !in ledger.log
  {
    PairedMeaning(ledger.log, ledger.nextId, ledger.ended);
  }

  lemma EndedSince(ledger: Ledger, before: seq<Emission>, id: SpanId, status: Status)
    requires ledger.Valid() && OnlyEnds(before, ledger.log, status)
    requires Started(id) in before && forall s :: Ended(id, s) !in before
    requires id !in ledger.open && id !in ledger.leaked
    ensures Ended(id, status) in ledger.log
  {
    PairedMeaning(ledger.log, ledger.nextId, ledger.ended);
    assert forall e | e in before :: e in ledger.log;
    var s :| Ended(id, s) in ledger.log;
    var i :| 0 <= i < |ledger.log| && ledger.log[i] == Ended(id, s);
    assert ledger.log[..|before|] == before;
  }

  lemma FreshId(n: nat, open: set<SpanId>, ended: set<SpanId>, leaked: set<SpanId>)
    requires Balanced(n, open, ended, leaked)
    ensures n !in open && forall id | id in open :: id < n
  {
  }

  lemma OpenBelongs(open: map<SpanId, Place>, owner: map<SpanId, string>, toolInv: map<string, string>,
                    leaked: set<SpanId>, id: SpanId, place: Place, inv: string, gone: set<SpanId>)
    requires Belongs(open, owner, toolInv, leaked) && !place.Tool? && id !in open && (inv != "" ==> place.key == inv)
    ensures Belongs((open - gone)[id := place], owner[id := inv], toolInv, leaked + gone)
  {
  }

  lemma OpenToolBelongs(f: Files, open: map<SpanId, Place>, owner: map<SpanId, string>, toolInv: map<string, string>,
                        leaked: set<SpanId>, key: string, id: SpanId, inv: string)
    requires Filed(f, open) && Belongs(open, owner, toolInv, leaked) && toolInv.Keys <= f.tools.Keys && id !in open
    ensures var gone := InSlot(f.tools, key);
      var noted := if inv != "" then toolInv[key := inv] else toolInv;
      Belongs((open - gone)[id := Tool(key)], owner[id := inv], noted, leaked + gone)
  {
  }

  lemma CloseToolBelongs(f: Files, open: map<SpanId, Place>, owner: map<SpanId, string>, toolInv: map<string, string>,
                         leaked: set<SpanId>, key: string)
    requires Filed(f, open) && Belongs(open, owner, toolInv, leaked) && key in f.tools
    ensures Belongs(open - {f.tools[key]}, owner, toolInv - {key}, leaked)
  {
  }

  /** The first run with a session is released by its own end exactly when it is no wrapper,
      has an invocation id, and that id is not still noted as a wrapper's. */
  method RootIsReleasedIff(ledger: Ledger, root: Context, wrapper: bool)
    requires ledger.Valid() && ledger.rootSession == None && root.sessionId != ""
    modifies ledger
    ensures ledger.Valid()
    ensures ledger.rootSession == None
       <==> !wrapper && root.invocationId != "" && root.invocationId !in old(ledger.wrapperInvocations)
    ensures ledger.rootSession != None ==> ledger.rootSession == Some(root.sessionId)
    ensures forall later: Context, home :: ledger.StampSession(later, home) ==
              if ledger.rootSession != None then root.sessionId
              else if later.sessionId != "" then later.sessionId else home
  {
    ledger.BeforeRun(root, wrapper);
    ledger.AfterRun(root);
  }

  /** The session of a wrapper, or of a root without an invocation id, outlives its run and the
      end-of-run sweep: a later run of another session is still stamped with it. */
  method RootOutlivesItsRun(ledger: Ledger, root: Context, wrapper: bool, later: Context, home: string)
    returns (stamped: string)
    requires ledger.Valid() && ledger.rootSession == None
    requires root.sessionId != "" && (wrapper || root.invocationId == "")
    modifies ledger
    ensures ledger.Valid() && stamped == root.sessionId
  {
    RootIsReleasedIff(ledger, root, wrapper);
    ledger.OnRunEnd();
    ledger.BeforeRun(later, false);
    stamped := ledger.StampSession(later, home);
  }
}
