/** The client's bounded event buffer with tiered overflow (client/harmonograf_client/buffer.py). */
module EventBuffer {
  datatype Kind = SpanStart | SpanUpdate | SpanEnd | PayloadChunk | GoldfiveEvent
                | RefineAttempted | RefineFailed | UserMessage

  /** A buffered envelope; only its payload-reference flag changes after construction. The
      session may be empty. */
  class Envelope {
    const kind: Kind
    const spanId: string
    const sessionId: string
    var hasPayloadRef: bool

    constructor (kind: Kind, spanId: string, sessionId: string, hasPayloadRef: bool)
      ensures this.kind == kind && this.spanId == spanId && this.sessionId == sessionId
      ensures this.hasPayloadRef == hasPayloadRef
    {
      this.kind, this.spanId, this.sessionId, this.hasPayloadRef := kind, spanId, sessionId, hasPayloadRef;
    }
  }

  /** The position of the oldest update, or the length when there is none. */
  ghost function OldestUpdate(q: seq<Envelope>): (i: nat)
    ensures i <= |q|
    ensures i < |q| ==> q[i].kind.SpanUpdate?
    ensures forall j | 0 <= j < i :: !q[j].kind.SpanUpdate?
  {
    if q == [] then 0 else if q[0].kind.SpanUpdate? then 0 else 1 + OldestUpdate(q[1..])
  }

  /** The position of the oldest envelope with a payload reference, or the length. */
  ghost function OldestRef(q: seq<Envelope>): (i: nat)
    reads q
    ensures i <= |q|
    ensures i < |q| ==> q[i].hasPayloadRef
    ensures forall j | 0 <= j < i :: !q[j].hasPayloadRef
  {
    if q == [] then 0 else if q[0].hasPayloadRef then 0 else 1 + OldestRef(q[1..])
  }

  twostate predicate FlagsKept(q: seq<Envelope>)
    reads q
  {
    forall e | e in q :: e.hasPayloadRef == old(e.hasPayloadRef)
  }

  /** Only the envelope at position `k` lost its reference. */
  twostate predicate FlagCleared(q: seq<Envelope>, k: nat)
    reads q
  {
    && k < |q| && !q[k].hasPayloadRef
    && forall e | e in q && e != q[k] :: e.hasPayloadRef == old(e.hasPayloadRef)
  }

  /** `kept` is what is left of `offered` at the increasing positions `slots`. */
  ghost predicate Subsequence(kept: seq<Envelope>, offered: seq<Envelope>, slots: seq<nat>) {
    && |slots| == |kept|
    && (forall i | 0 <= i < |slots| :: slots[i] < |offered| && offered[slots[i]] == kept[i])
    && (forall i, j | 0 <= i < j < |slots| :: slots[i] < slots[j])
  }

  ghost function Updates(s: seq<Envelope>): (r: seq<Envelope>) {
    if s == [] then []
    else Updates(s[..|s| - 1]) + if s[|s| - 1].kind.SpanUpdate? then [s[|s| - 1]] else []
  }

  /** A whole run: what was pushed, what came out, what is held and what was evicted. */
  datatype Run = Run(offered: seq<Envelope>, popped: seq<Envelope>, held: seq<Envelope>,
                     evicted: seq<Envelope>, slots: seq<nat>)
  {
    /** Nothing is invented, duplicated or reordered: what came out followed by what is
        held is a subsequence of what went in, and the rest was evicted. */
    ghost predicate Accounted() {
      && Subsequence(popped + held, offered, slots)
      && multiset(offered) == multiset(popped + held) + multiset(evicted)
      && |offered| == |popped| + |held| + |evicted|
    }

    ghost function Pushed(env: Envelope): Run {
      this.(offered := offered + [env], held := held + [env], slots := slots + [|offered|])
    }

    ghost function Removed(k: nat): Run
      requires k < |held| && |slots| == |popped| + |held|
    {
      this.(held := held[..k] + held[k + 1..], evicted := evicted + [held[k]],
            slots := slots[..|popped| + k] + slots[|popped| + k + 1..])
    }

    ghost function Popped(n: nat): Run
      requires n <= |held|
    {
      this.(popped := popped + held[..n], held := held[n..])
    }
  }

  lemma PushedAccounted(r: Run, env: Envelope)
    requires r.Accounted()
    ensures r.Pushed(env).Accounted()
  {
    assert r.popped + (r.held + [env]) == (r.popped + r.held) + [env];
  }

  lemma SubsequenceWithout(kept: seq<Envelope>, offered: seq<Envelope>, slots: seq<nat>, k: nat)
    requires Subsequence(kept, offered, slots) && k < |kept|
    ensures Subsequence(kept[..k] + kept[k + 1..], offered, slots[..k] + slots[k + 1..])
  {
  }

  lemma WithoutInTail(a: seq<Envelope>, b: seq<Envelope>, k: nat)
    requires k < |b|
    ensures a + (b[..k] + b[k + 1..]) == (a + b)[..|a| + k] + (a + b)[|a| + k + 1..]
    ensures multiset(a + b) == multiset(a + (b[..k] + b[k + 1..])) + multiset{b[k]}
  {
    assert a + b == a + b[..k] + [b[k]] + b[k + 1..];
    assert a + (b[..k] + b[k + 1..]) == a + b[..k] + b[k + 1..];
  }

  lemma UpdatesAppend(s: seq<Envelope>, e: Envelope)
    ensures Updates(s + [e]) == Updates(s) + if e.kind.SpanUpdate? then [e] else []
  {
    assert (s + [e])[..|s|] == s;
  }

  lemma RemovedAccounted(r: Run, k: nat)
    requires r.Accounted() && k < |r.held|
    ensures r.Removed(k).Accounted()
    ensures |Updates(r.Removed(k).evicted)| == |Updates(r.evicted)| + if r.held[k].kind.SpanUpdate? then 1 else 0
  {
    hide Subsequence, Updates;
    assert |r.slots| == |r.popped| + |r.held| by { SlotCount(r); }
    SubsequenceWithout(r.popped + r.held, r.offered, r.slots, |r.popped| + k);
    WithoutInTail(r.popped, r.held, k);
    UpdatesAppend(r.evicted, r.held[k]);
  }

  lemma SlotCount(r: Run)
    requires r.Accounted()
    ensures |r.slots| == |r.popped| + |r.held|
  {
  }

  lemma PoppedAccounted(r: Run, n: nat)
    requires r.Accounted() && n <= |r.held|
    ensures r.Popped(n).Accounted()
  {
    assert r.popped + r.held == r.popped + r.held[..n] + r.held[n..];
  }

  class EventRingBuffer {
    const capacity: nat
    var queue: seq<Envelope>
    var droppedUpdates: nat
    var droppedPayloadRefs: nat
    var droppedSpans: nat

    ghost var run: Run

    ghost predicate Tracked()
      reads this`run, this`queue
    {
      run.held == queue && run.Accounted()
    }

    /** pushes == popped + held + dropped updates + dropped spans. */
    ghost predicate Counted()
      reads this`run, this`droppedUpdates, this`droppedSpans
    {
      |Updates(run.evicted)| == droppedUpdates && |run.evicted| == droppedUpdates + droppedSpans
    }

    ghost predicate Valid()
      reads this
    {
      && 0 < capacity
      && Tracked()
      && Counted()
      && |queue| <= capacity + droppedPayloadRefs
    }

    constructor (capacity: nat)
      requires 0 < capacity
      ensures Valid() && this.capacity == capacity && queue == [] && run == Run([], [], [], [], [])
      ensures droppedUpdates == droppedPayloadRefs == droppedSpans == 0
    {
      this.capacity := capacity;
      queue, run := [], Run([], [], [], [], []);
      droppedUpdates, droppedPayloadRefs, droppedSpans := 0, 0, 0;
    }

    /** One eviction tier runs: the oldest update leaves; with no update the oldest payload
        reference is stripped (and no slot is freed); with neither the oldest envelope leaves. */
    method EvictOne() returns (ok: bool)
      requires Tracked() && Counted()
      modifies this`queue, this`droppedUpdates, this`droppedPayloadRefs, this`droppedSpans
      modifies this`run, queue
      ensures Tracked() && Counted()
      ensures ok == (old(queue) != [])
      ensures var u := OldestUpdate(old(queue));
        u < |old(queue)| ==>
          && run == old(run).Removed(u) && FlagsKept(old(queue))
          && droppedPayloadRefs == old(droppedPayloadRefs)
      ensures OldestUpdate(old(queue)) == |old(queue)| && old(OldestRef(queue)) < |old(queue)| ==>
          && run == old(run) && FlagCleared(old(queue), old(OldestRef(queue)))
          && droppedPayloadRefs == old(droppedPayloadRefs) + 1
      ensures OldestUpdate(old(queue)) == old(OldestRef(queue)) == |old(queue)| ==>
          && FlagsKept(old(queue)) && droppedPayloadRefs == old(droppedPayloadRefs)
          && run == if old(queue) == [] then old(run) else old(run).Removed(0)
    {
      hide Run.Accounted, Updates, Run.Removed, OldestUpdate, OldestRef, Tracked, Counted;
      var i := 0;
      while i < |queue|
        invariant i <= OldestUpdate(queue)
      {
        if queue[i].kind.SpanUpdate? {
          RemoveAt(i);
          return true;
        }
        i := i + 1;
      }
      i := 0;
      while i < |queue|
        invariant i <= OldestRef(queue)
      {
        if queue[i].hasPayloadRef {
          ClearFlag(i);
          return true;
        }
        i := i + 1;
      }
      if queue != [] {
        RemoveAt(0);
        return true;
      }
      return false;
    }

    method ClearFlag(k: nat)
      requires k < |queue|
      modifies queue[k], this`droppedPayloadRefs
      ensures FlagCleared(queue, k) && droppedPayloadRefs == old(droppedPayloadRefs) + 1
    {
      queue[k].hasPayloadRef := false;
      droppedPayloadRefs := droppedPayloadRefs + 1;
    }

    /** An envelope leaves the queue and the counter of its kind goes up. */
    method RemoveAt(k: nat)
      requires k < |queue| && Tracked() && Counted()
      modifies this`queue, this`run, this`droppedUpdates, this`droppedSpans
      ensures Tracked() && Counted() && run == old(run).Removed(k)
      ensures FlagsKept(old(queue))
    {
      RemovedAccounted(run, k);
      if queue[k].kind.SpanUpdate? {
        droppedUpdates := droppedUpdates + 1;
      } else {
        droppedSpans := droppedSpans + 1;
      }
      run := run.Removed(k);
      queue := queue[..k] + queue[k + 1..];
    }

    /** Every push is stored, at the new end. At capacity one tier runs first, and the middle
        tier leaves the queue as long as it was, so that the push exceeds the capacity. */
    method Push(env: Envelope) returns (stored: bool)
      requires Valid()
      modifies this`queue, this`droppedUpdates, this`droppedPayloadRefs, this`droppedSpans
      modifies this`run, queue
      ensures Valid() && stored
      ensures |queue| == |old(queue)| + if old(PushGrows(queue, capacity)) then 1 else 0
      ensures |old(queue)| < capacity ==>
          && run == old(run).Pushed(env) && FlagsKept(old(queue))
          && droppedPayloadRefs == old(droppedPayloadRefs)
      ensures var u := OldestUpdate(old(queue));
        capacity <= |old(queue)| && u < |old(queue)| ==>
          && run == old(run).Removed(u).Pushed(env) && FlagsKept(old(queue))
          && droppedPayloadRefs == old(droppedPayloadRefs)
      ensures var r := old(OldestRef(queue));
        capacity <= |old(queue)| == OldestUpdate(old(queue)) && r < |old(queue)| ==>
          && run == old(run).Pushed(env) && FlagCleared(old(queue), r)
          && droppedPayloadRefs == old(droppedPayloadRefs) + 1
      ensures capacity <= |old(queue)| == OldestUpdate(old(queue)) == old(OldestRef(queue)) ==>
          && run == old(run).Removed(0).Pushed(env) && FlagsKept(old(queue))
          && droppedPayloadRefs == old(droppedPayloadRefs)
    {
      hide Run.Accounted, Updates, OldestUpdate, OldestRef;
      if |queue| < capacity {
        Append(env);
        return true;
      }
      var freed := EvictOne();
      Append(env);
      return true;
    }

    method Append(env: Envelope)
      requires Tracked()
      modifies this`queue, this`run
      ensures Tracked() && run == old(run).Pushed(env)
    {
      PushedAccounted(run, env);
      run := run.Pushed(env);
      queue := queue + [env];
    }

    /** The oldest envelopes leave in order; a limit of zero or less takes none. */
    method PopBatch(maxItems: int) returns (out: seq<Envelope>)
      requires Valid()
      modifies this`queue, this`run
      ensures Valid() && out + queue == old(queue) && run == old(run).Popped(|out|)
      ensures |out| == if maxItems <= 0 then 0 else if maxItems < |old(queue)| then maxItems else |old(queue)|
    {
      hide Run.Accounted, Updates;
      if maxItems <= 0 {
        return [];
      }
      var n := if maxItems < |queue| then maxItems else |queue|;
      PoppedAccounted(run, n);
      out := [];
      while |out| < n
        invariant |out| <= n <= |old(queue)|
        invariant out + queue == old(queue) && run == old(run)
      {
        out, queue := out + [queue[0]], queue[1..];
      }
      run := run.Popped(n);
    }
  }

  lemma {:induction false} UpdatesConcat(a: seq<Envelope>, b: seq<Envelope>)
    ensures Updates(a + b) == Updates(a) + Updates(b)
  {
    if b == [] {
      assert a + b == a;
    } else {
      UpdatesConcat(a, b[..|b| - 1]);
      assert a + b == (a + b[..|b| - 1]) + [b[|b| - 1]];
      UpdatesAppend(a + b[..|b| - 1], b[|b| - 1]);
    }
  }

  lemma SplitAt(s: seq<Envelope>, k: nat)
    requires k < |s|
    ensures multiset(s) == multiset(s[..k] + s[k + 1..]) + multiset{s[k]}
    ensures |Updates(s)| == |Updates(s[..k] + s[k + 1..])| + if s[k].kind.SpanUpdate? then 1 else 0
  {
    hide Updates;
    assert s == s[..k] + [s[k]] + s[k + 1..];
    UpdatesConcat(s[..k] + [s[k]], s[k + 1..]);
    UpdatesAppend(s[..k], s[k]);
    UpdatesConcat(s[..k], s[k + 1..]);
  }

  lemma CancelOne(a: multiset<Envelope>, b: multiset<Envelope>, e: Envelope)
    requires a + multiset{e} == b + multiset{e}
    ensures a == b
  {
    assert (a + multiset{e}) - multiset{e} == a && (b + multiset{e}) - multiset{e} == b;
  }

  lemma {:induction false} UpdatesPermute(a: seq<Envelope>, b: seq<Envelope>)
    requires multiset(a) == multiset(b)
    ensures |Updates(a)| == |Updates(b)|
    decreases |a|
  {
    hide Updates;
    if a == [] {
      assert |b| == |multiset(b)| == |multiset(a)| == 0;
    } else {
      assert a[0] in multiset(b);
      var k :| 0 <= k < |b| && b[k] == a[0];
      SplitAt(a, 0);
      SplitAt(b, k);
      var a', b' := a[..0] + a[1..], b[..k] + b[k + 1..];
      CancelOne(multiset(a'), multiset(b'), a[0]);
      UpdatesPermute(a', b');
    }
  }

  /** The counters tell the truth by kind: span updates that went in are out, held or in
      `droppedUpdates`, and every other envelope is out, held or in `droppedSpans`. */
  lemma NothingLostUncounted(b: EventRingBuffer)
    requires b.Valid()
    ensures var (run, kept) := (b.run, b.run.popped + b.queue);
      && |Updates(run.offered)| == |Updates(kept)| + b.droppedUpdates
      && |run.offered| - |Updates(run.offered)| == |kept| - |Updates(kept)| + b.droppedSpans
  {
    var kept := b.run.popped + b.queue;
    UpdatesPermute(b.run.offered, kept + b.run.evicted);
    UpdatesConcat(kept, b.run.evicted);
  }

  /** A push makes the queue longer exactly when there was room, or when the middle tier ran:
      this is what lets the buffer outgrow its capacity. */
  ghost predicate PushGrows(q: seq<Envelope>, capacity: nat)
    reads q
  {
    |q| < capacity || (OldestUpdate(q) == |q| && OldestRef(q) < |q|)
  }

  /** The capacity does not bound the queue: for any capacity and any length, span starts
      that carry payload references fill the buffer to that length, with nothing dropped. */
  method FloodWithReferences(capacity: nat, length: nat) returns (buffer: EventRingBuffer)
    requires 0 < capacity
    ensures buffer.Valid() && buffer.capacity == capacity && |buffer.queue| == length
    ensures buffer.droppedUpdates == buffer.droppedSpans == 0
  {
    hide Run.Accounted, Updates, OldestUpdate, OldestRef;
    buffer := new EventRingBuffer(capacity);
    assert Updates([]) == [] && Flooded([]) by { FloodStart(); }
    while |buffer.queue| < length
      invariant buffer.Valid() && fresh(buffer) && buffer.capacity == capacity
      invariant |buffer.queue| <= length && fresh(buffer.queue)
      invariant buffer.run.evicted == [] && Flooded(buffer.queue)
    {
      var env := new Envelope(SpanStart, "", "", true);
      ghost var before := buffer.queue;
      FloodedScan(before);
      var stored := buffer.Push(env);
      assert buffer.queue == before + [env];
    }
    assert Updates([]) == [] by { FloodStart(); }
  }

  ghost predicate Flooded(q: seq<Envelope>)
    reads q
  {
    && (forall i | 0 <= i < |q| :: q[i].kind.SpanStart?)
    && (q != [] ==> q[|q| - 1].hasPayloadRef)
  }

  lemma FloodStart()
    ensures Updates([]) == [] && Flooded([])
  {
  }

  lemma FloodedScan(q: seq<Envelope>)
    requires Flooded(q)
    ensures OldestUpdate(q) == |q|
    ensures q != [] ==> OldestRef(q) < |q|
  {
  }
}
