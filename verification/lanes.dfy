/** Greedy lane packing of the spans of one agent row (frontend/src/gantt/layout.ts). */
module Lanes {
  import opened Common
  import opened Sorting

  /** The fields `packLanes` touches. Times are whole milliseconds and do not change
      during a call; an absent end is a span that is still running. */
  class Span {
    const id: string
    const startMs: int
    const endMs: Option<int>
    var lane: int

    constructor (id: string, startMs: int, endMs: Option<int>)
      ensures this.id == id && this.startMs == startMs && this.endMs == endMs
    {
      this.id, this.startMs, this.endMs, this.lane := id, startMs, endMs, 0;
    }
  }

  /** The span is over at instant `t` (its end is exclusive). */
  predicate EndedBy(end: Option<int>, t: int) {
    end.Some? && end.value <= t
  }

  predicate ActiveAt(s: Span, t: int) {
    s.startMs <= t && !EndedBy(s.endMs, t)
  }

  /** The comparator of the sort: start, then end, a running span last. */
  predicate StartsBefore(a: Span, b: Span) {
    a.startMs < b.startMs ||
    (a.startMs == b.startMs &&
     (b.endMs.None? || (a.endMs.Some? && a.endMs.value <= b.endMs.value)))
  }

  /** By start, then by end, and of spans with one start those still running last. */
  ghost predicate InStartOrder(s: seq<Span>) {
    forall i, j | 0 <= i < j < |s| ::
      && s[i].startMs <= s[j].startMs
      && (s[i].startMs == s[j].startMs && s[j].endMs.Some? ==>
            s[i].endMs.Some? && s[i].endMs.value <= s[j].endMs.value)
  }

  lemma SortedInStartOrder(s: seq<Span>)
    requires Sorted(StartsBefore, s)
    ensures InStartOrder(s)
  {
    forall i, j | 0 <= i < j < |s| ensures StartsBefore(s[i], s[j]) {
      InOrder(s, i, j);
    }
  }

  /** Spans of one lane follow each other: each ends no later than the next one starts. */
  lemma LaneMatesFollow(s: seq<Span>, lane: map<Span, int>)
    requires FirstFit(s, lane)
    ensures forall i, j | 0 <= i < j < |s| && lane[s[i]] == lane[s[j]] ::
              s[i].endMs.Some? && s[i].endMs.value <= s[j].startMs
  {
    forall i, j | 0 <= i < j < |s| && lane[s[i]] == lane[s[j]] ensures EndedBy(s[i].endMs, s[j].startMs) {
      assert LaneFree(s, lane, j, lane[s[j]]);
    }
  }

  predicate IsInstant(s: Span) {
    EndedBy(s.endMs, s.startMs)
  }

  // ---- What a packing is ------------------------------------------------------------

  /** No span before position `i` on lane `k` is still running when span `i` starts. */
  ghost predicate LaneFree(s: seq<Span>, lane: map<Span, int>, i: nat, k: int)
    requires i < |s|
  {
    forall j | 0 <= j < i && s[j] in lane && lane[s[j]] == k :: EndedBy(s[j].endMs, s[i].startMs)
  }

  /** Every span sits on the lowest lane that is free when it starts. */
  ghost predicate FirstFit(s: seq<Span>, lane: map<Span, int>) {
    forall i | 0 <= i < |s| ::
      && s[i] in lane && 0 <= lane[s[i]]
      && LaneFree(s, lane, i, lane[s[i]])
      && forall k | 0 <= k < lane[s[i]] :: !LaneFree(s, lane, i, k)
  }

  ghost function Concurrent(spans: set<Span>, t: int): set<Span> {
    set s | s in spans && ActiveAt(s, t)
  }

  ghost predicate IsMaxConcurrency(spans: set<Span>, m: nat) {
    && (forall t :: |Concurrent(spans, t)| <= m)
    && (exists t :: |Concurrent(spans, t)| == m)
  }

  ghost predicate Overlap(a: Span, b: Span) {
    exists t :: ActiveAt(a, t) && ActiveAt(b, t)
  }

  /** An assignment a renderer may draw: overlapping spans never share a lane. */
  ghost predicate ValidAssignment(spans: set<Span>, lane: map<Span, int>) {
    && spans <= lane.Keys
    && forall a, b | a in spans && b in spans && a != b && Overlap(a, b) :: lane[a] != lane[b]
  }

  ghost function LanesUsed(spans: set<Span>, lane: map<Span, int>): set<int>
    requires spans <= lane.Keys
  {
    Image(spans, lane)
  }

  /** The number `packLanes` returns: one more than the highest lane, one for no span. */
  ghost predicate IsLaneCount(s: seq<Span>, lane: map<Span, int>, count: nat) {
    && 1 <= count
    && (forall i | 0 <= i < |s| :: s[i] in lane && lane[s[i]] < count)
    && (s == [] ==> count == 1)
    && (s != [] ==> exists i :: 0 <= i < |s| && s[i] in lane && lane[s[i]] == count - 1)
  }

  ghost function Elements(s: seq<Span>): set<Span> {
    set x | x in s
  }

  /** Spans placed before `i` that still run when `i` starts. */
  ghost function Busy(s: seq<Span>, i: nat): set<Span>
    requires i < |s|
  {
    set j | 0 <= j < i && !EndedBy(s[j].endMs, s[i].startMs) :: s[j]
  }

  lemma InOrder(s: seq<Span>, i: nat, j: nat)
    requires Sorted(StartsBefore, s) && i <= j < |s|
    ensures StartsBefore(s[i], s[j])
  {
    var leq := StartsBefore;
    assert i < j ==> leq(s[i], s[j]);
  }

  // ---- The packing theory -----------------------------------------------------------

  /** The order and the first-fit rule leave no freedom: the lanes are determined. */
  lemma {:induction false} FirstFitUnique(s: seq<Span>, lane: map<Span, int>, other: map<Span, int>, n: nat)
    requires n <= |s| && FirstFit(s, lane) && FirstFit(s, other)
    ensures forall i | 0 <= i < n :: lane[s[i]] == other[s[i]]
  {
    if n > 0 {
      var i := n - 1;
      FirstFitUnique(s, lane, other, i);
      var k, k' := lane[s[i]], other[s[i]];
      assert k < k' ==> !LaneFree(s, other, i, k);
      assert k' < k ==> !LaneFree(s, lane, i, k');
    }
  }

  lemma FirstFitIsValid(s: seq<Span>, lane: map<Span, int>)
    requires FirstFit(s, lane)
    ensures ValidAssignment(Elements(s), lane)
  {
    forall a, b | a in Elements(s) && b in Elements(s) && a != b && Overlap(a, b)
      ensures lane[a] != lane[b]
    {
      var t :| ActiveAt(a, t) && ActiveAt(b, t);
      var i :| 0 <= i < |s| && s[i] == a;
      var j :| 0 <= j < |s| && s[j] == b;
      assert i < j ==> LaneFree(s, lane, j, lane[b]);
      assert j < i ==> LaneFree(s, lane, i, lane[a]);
    }
  }

  lemma BusyApart(s: seq<Span>, lane: map<Span, int>, i: nat, a: nat, b: nat)
    requires FirstFit(s, lane) && Sorted(StartsBefore, s) && a < b < i < |s|
    requires !EndedBy(s[a].endMs, s[i].startMs)
    ensures lane[s[a]] != lane[s[b]]
  {
    InOrder(s, b, i);
    assert LaneFree(s, lane, b, lane[s[b]]);
  }

  /** The busy spans hold distinct lanes, none of them the lane span `i` gets. */
  lemma BusyLanes(s: seq<Span>, lane: map<Span, int>, i: nat)
    requires FirstFit(s, lane) && Sorted(StartsBefore, s) && i < |s|
    ensures Busy(s, i) <= lane.Keys
    ensures |LanesUsed(Busy(s, i), lane)| == |Busy(s, i)|
    ensures lane[s[i]] !in LanesUsed(Busy(s, i), lane)
  {
    forall x, y | x in Busy(s, i) && y in Busy(s, i) && lane[x] == lane[y] ensures x == y {
      var a :| 0 <= a < i && s[a] == x && !EndedBy(s[a].endMs, s[i].startMs);
      var b :| 0 <= b < i && s[b] == y && !EndedBy(s[b].endMs, s[i].startMs);
      if a < b {
        BusyApart(s, lane, i, a, b);
      } else if b < a {
        BusyApart(s, lane, i, b, a);
      }
    }
    InjectiveImage(Busy(s, i), lane);
  }

  /** Opening lane `k` means that lanes `0..k-1` are all busy. */
  lemma LowerLanesBusy(s: seq<Span>, lane: map<Span, int>, i: nat)
    requires FirstFit(s, lane) && Sorted(StartsBefore, s) && i < |s|
    ensures lane[s[i]] <= |Busy(s, i)|
  {
    BusyLanes(s, lane, i);
    var used := LanesUsed(Busy(s, i), lane);
    forall k | k in Below(lane[s[i]]) ensures k in used {
      assert !LaneFree(s, lane, i, k);
    }
    SubsetSize(Below(lane[s[i]]), used);
  }

  /** For every input the lane count is the largest number of spans that are running, or
      starting, when some span starts. */
  lemma LaneCountIsPeakLoad(s: seq<Span>, lane: map<Span, int>, count: nat)
    requires FirstFit(s, lane) && Sorted(StartsBefore, s) && IsLaneCount(s, lane, count)
    ensures forall i | 0 <= i < |s| :: |Busy(s, i)| + 1 <= count
    ensures s != [] ==> exists i :: 0 <= i < |s| && |Busy(s, i)| + 1 == count
  {
    forall i | 0 <= i < |s| ensures |Busy(s, i)| + 1 <= count {
      BusyLanes(s, lane, i);
      var used := LanesUsed(Busy(s, i), lane) + {lane[s[i]]};
      SubsetSize(used, Below(count));
    }
    if s != [] {
      var i :| 0 <= i < |s| && s[i] in lane && lane[s[i]] == count - 1;
      LowerLanesBusy(s, lane, i);
      assert |Busy(s, i)| + 1 == count;
    }
  }

  // ---- Lane count against concurrency -----------------------------------------------

  /** Spans that start strictly before `t` and are still running at `t`. */
  ghost function Around(spans: set<Span>, t: int): set<Span> {
    set s | s in spans && s.startMs < t && !EndedBy(s.endMs, t)
  }

  /** Instant spans are not active at any time, yet they take a lane. */
  ghost predicate InstantsFit(spans: set<Span>, peak: nat) {
    forall s | s in spans && IsInstant(s) :: |Around(spans, s.startMs)| < peak
  }

  lemma {:induction false} LastActive(s: seq<Span>, t: int, n: nat) returns (i: nat)
    requires n <= |s| && exists j :: 0 <= j < n && ActiveAt(s[j], t)
    ensures i < n && ActiveAt(s[i], t)
    ensures forall j | i < j < n :: !ActiveAt(s[j], t)
  {
    if ActiveAt(s[n-1], t) {
      i := n - 1;
    } else {
      i := LastActive(s, t, n - 1);
    }
  }

  lemma ConcurrencyAtMostCount(s: seq<Span>, lane: map<Span, int>, count: nat, t: int)
    requires FirstFit(s, lane) && Sorted(StartsBefore, s) && IsLaneCount(s, lane, count)
    ensures |Concurrent(Elements(s), t)| <= count
  {
    var active := Concurrent(Elements(s), t);
    if active != {} {
      var x :| x in active;
      var i := LastActive(s, t, |s|);
      forall y | y in active ensures y in Busy(s, i) + {s[i]} {
        var j :| 0 <= j < |s| && s[j] == y;
        if j < i { InOrder(s, j, i); }
      }
      SubsetSize(active, Busy(s, i) + {s[i]});
      LaneCountIsPeakLoad(s, lane, count);
    }
  }

  /** A span that lasts is active at its start together with everything busy then. */
  lemma BusyIsConcurrent(s: seq<Span>, i: nat)
    requires Sorted(StartsBefore, s) && Distinct(s) && i < |s| && !IsInstant(s[i])
    ensures |Busy(s, i)| + 1 <= |Concurrent(Elements(s), s[i].startMs)|
  {
    var all := Busy(s, i) + {s[i]};
    forall y | y in all ensures y in Concurrent(Elements(s), s[i].startMs) {
      if y != s[i] {
        var j :| 0 <= j < i && s[j] == y && !EndedBy(s[j].endMs, s[i].startMs);
        InOrder(s, j, i);
      }
    }
    SubsetSize(all, Concurrent(Elements(s), s[i].startMs));
  }

  lemma BusyIsAround(s: seq<Span>, i: nat)
    requires Sorted(StartsBefore, s) && i < |s| && IsInstant(s[i])
    ensures Busy(s, i) == Around(Elements(s), s[i].startMs)
  {
    forall y | y in Busy(s, i) ensures y in Around(Elements(s), s[i].startMs) {
      var j :| 0 <= j < i && s[j] == y && !EndedBy(s[j].endMs, s[i].startMs);
      InOrder(s, j, i);
    }
    forall y | y in Around(Elements(s), s[i].startMs) ensures y in Busy(s, i) {
      var j :| 0 <= j < |s| && s[j] == y;
      if i < j { InOrder(s, i, j); }
    }
  }

  /** The documented law, with the exact condition under which the code meets it: the
      lane count is the peak concurrency if and only if there is a span and every instant
      span starts where at least one lane of the peak is idle. */
  lemma LaneCountIsMaxConcurrency(s: seq<Span>, lane: map<Span, int>, count: nat, peak: nat)
    requires FirstFit(s, lane) && Sorted(StartsBefore, s) && Distinct(s)
    requires IsLaneCount(s, lane, count) && IsMaxConcurrency(Elements(s), peak)
    ensures count == peak <==> s != [] && InstantsFit(Elements(s), peak)
  {
    LaneCountIsPeakLoad(s, lane, count);
    var t :| |Concurrent(Elements(s), t)| == peak;
    if s == [] {
      assert Concurrent(Elements(s), t) == {};
      return;
    }
    ConcurrencyAtMostCount(s, lane, count, t);
    var i :| 0 <= i < |s| && |Busy(s, i)| + 1 == count;
    if IsInstant(s[i]) {
      BusyIsAround(s, i);
      assert s[i] in Elements(s);
    } else {
      BusyIsConcurrent(s, i);
    }
    if count == peak {
      forall x | x in Elements(s) && IsInstant(x) ensures |Around(Elements(s), x.startMs)| < peak {
        var j :| 0 <= j < |s| && s[j] == x;
        BusyIsAround(s, j);
      }
    }
  }

  /** The header's "= max concurrency at any timestamp" fails for this input: an instant
      span inside a running one takes a second lane though at most one span is active. */
  lemma InstantAddsALane(a: Span, b: Span, lane: map<Span, int>, count: nat)
    requires a != b && a.startMs == 0 && a.endMs == Some(10)
    requires b.startMs == 5 && b.endMs == Some(5)
    requires FirstFit([a, b], lane) && IsLaneCount([a, b], lane, count)
    ensures count == 2 && IsMaxConcurrency(Elements([a, b]), 1)
  {
    var s := [a, b];
    assert LaneFree(s, lane, 0, 0) && lane[s[0]] == 0;
    assert LaneFree(s, lane, 1, 1) && !LaneFree(s, lane, 1, 0) && lane[s[1]] == 1;
    forall t ensures Concurrent(Elements(s), t) == if ActiveAt(a, t) then {a} else {} {
      assert s[0] in Elements(s);
    }
    assert |Concurrent(Elements(s), 0)| == 1;
  }

  /** For spans that all last, the count is the peak concurrency. */
  lemma PeakForLastingSpans(s: seq<Span>, lane: map<Span, int>, count: nat)
    requires FirstFit(s, lane) && Sorted(StartsBefore, s) && Distinct(s) && s != []
    requires IsLaneCount(s, lane, count) && forall x | x in s :: !IsInstant(x)
    ensures IsMaxConcurrency(Elements(s), count)
  {
    LaneCountIsPeakLoad(s, lane, count);
    var i :| 0 <= i < |s| && |Busy(s, i)| + 1 == count;
    assert s[i] in s;
    BusyIsConcurrent(s, i);
    forall t ensures |Concurrent(Elements(s), t)| <= count {
      ConcurrencyAtMostCount(s, lane, count, t);
    }
    assert |Concurrent(Elements(s), s[i].startMs)| == count;
  }

  /** No valid assignment uses fewer lanes than there are spans active at one instant. */
  lemma AssignmentNeedsPeak(spans: set<Span>, lane: map<Span, int>, t: int)
    requires ValidAssignment(spans, lane)
    ensures |Concurrent(spans, t)| <= |LanesUsed(spans, lane)|
  {
    var active := Concurrent(spans, t);
    forall a, b | a in active && b in active && lane[a] == lane[b] ensures a == b {
      if a != b { assert Overlap(a, b); }
    }
    InjectiveImage(active, lane);
    SubsetSize(LanesUsed(active, lane), LanesUsed(spans, lane));
  }

  /** Optimality: greedy packing uses no more lanes than any valid assignment. */
  lemma PackingIsOptimal(s: seq<Span>, lane: map<Span, int>, count: nat, other: map<Span, int>)
    requires FirstFit(s, lane) && Sorted(StartsBefore, s) && Distinct(s) && s != []
    requires IsLaneCount(s, lane, count) && forall x | x in s :: !IsInstant(x)
    requires ValidAssignment(Elements(s), other)
    ensures count <= |LanesUsed(Elements(s), other)|
  {
    PeakForLastingSpans(s, lane, count);
    var t :| |Concurrent(Elements(s), t)| == count;
    AssignmentNeedsPeak(Elements(s), other, t);
  }

  // ---- The in-place algorithm -------------------------------------------------------

  lemma StartsBeforeIsOrder(s: seq<Span>)
    ensures OrderOn(StartsBefore, s)
  {
  }

  /** One round of the sort: the element at `i` moves into the sorted prefix. */
  method InsertNext(a: array<Span>, i: nat)
    requires i < a.Length
    modifies a
    ensures a[..i+1] == Insert(StartsBefore, old(a[..i]), old(a[i]))
    ensures forall m | i < m < a.Length :: a[m] == old(a[m])
  {
    var x := a[i];
    ghost var pre := a[..i];
    var j := i;
    while j > 0 && !StartsBefore(a[j-1], x)
      invariant j <= i
      invariant forall m | 0 <= m < j :: a[m] == pre[m]
      invariant forall m | j < m <= i :: a[m] == pre[m-1]
      invariant forall m | j <= m < i :: !StartsBefore(pre[m], x)
      invariant forall m | i < m < a.Length :: a[m] == old(a[m])
    {
      a[j] := a[j-1];
      j := j - 1;
    }
    a[j] := x;
    InsertAt(StartsBefore, pre, x, j);
    assert a[..i+1] == pre[..j] + [x] + pre[j..];
  }

  /** `spans.sort`: stable and in place. */
  method SortSpans(a: array<Span>)
    modifies a
    ensures a[..] == StableSort(StartsBefore, old(a[..]))
    ensures InStartOrder(a[..]) && multiset(a[..]) == multiset(old(a[..]))
  {
    ghost var given := a[..];
    for i := 0 to a.Length
      invariant a[..i] == StableSort(StartsBefore, given[..i])
      invariant forall m | i <= m < a.Length :: a[m] == given[m]
    {
      InsertNext(a, i);
      assert given[..i+1][..i] == given[..i];
    }
    assert given[..a.Length] == given && a[..a.Length] == a[..];
    StartsBeforeIsOrder(given);
    StableSortSorts(StartsBefore, given);
    SortedInStartOrder(a[..]);
  }

  ghost function LaneMap(spans: seq<Span>): map<Span, int>
    reads set s | s in spans
  {
    map s | s in spans :: s.lane
  }

  /** The scan for a free lane, and the facts the loop of `PackLanes` keeps about
      `laneEnds`: `owner[k]` is the position of the last span put on lane `k`. */
  ghost predicate EndsTrack(s: seq<Span>, lanes: seq<int>, laneEnds: seq<Option<int>>, owner: seq<nat>) {
    && |lanes| <= |s| && |owner| == |laneEnds|
    && (forall j | 0 <= j < |lanes| :: 0 <= lanes[j] < |laneEnds|)
    && (forall k | 0 <= k < |laneEnds| :: LaneTrack(s, lanes, k, laneEnds[k], owner[k]))
  }

  ghost predicate LaneTrack(s: seq<Span>, lanes: seq<int>, k: int, end: Option<int>, owner: nat)
    requires |lanes| <= |s|
  {
    && owner < |lanes| && lanes[owner] == k && end == s[owner].endMs
    && forall j | 0 <= j < |lanes| && lanes[j] == k ::
         j == owner || (j < owner && EndedBy(s[j].endMs, s[owner].startMs))
  }

  ghost predicate FitsSoFar(s: seq<Span>, lanes: seq<int>, i: nat)
    requires i < |lanes| <= |s|
  {
    && !Blocked(s, lanes, i, lanes[i])
    && forall k | 0 <= k < lanes[i] :: Blocked(s, lanes, i, k)
  }

  ghost predicate AllFit(s: seq<Span>, lanes: seq<int>)
    requires |lanes| <= |s|
  {
    forall i | 0 <= i < |lanes| :: FitsSoFar(s, lanes, i)
  }

  ghost predicate Blocked(s: seq<Span>, lanes: seq<int>, i: nat, k: int)
    requires i < |s| && i <= |lanes| <= |s|
  {
    exists j :: 0 <= j < i && lanes[j] == k && !EndedBy(s[j].endMs, s[i].startMs)
  }

  lemma BlockedIffRunning(s: seq<Span>, lanes: seq<int>, laneEnds: seq<Option<int>>, owner: seq<nat>, k: nat)
    requires EndsTrack(s, lanes, laneEnds, owner) && Sorted(StartsBefore, s)
    requires |lanes| < |s| && k < |laneEnds|
    ensures Blocked(s, lanes, |lanes|, k) <==> !EndedBy(laneEnds[k], s[|lanes|].startMs)
  {
    InOrder(s, owner[k], |lanes|);
  }

  /** One round of the loop: a span put on the first lane whose end has passed, or on a
      new lane, fits and keeps `laneEnds` up to date. */
  lemma PlaceSpan(s: seq<Span>, lanes: seq<int>, laneEnds: seq<Option<int>>, owner: seq<nat>, lane: nat)
    requires EndsTrack(s, lanes, laneEnds, owner) && Sorted(StartsBefore, s)
    requires |lanes| < |s| && lane <= |laneEnds|
    requires forall k | 0 <= k < lane :: !EndedBy(laneEnds[k], s[|lanes|].startMs)
    requires lane < |laneEnds| ==> EndedBy(laneEnds[lane], s[|lanes|].startMs)
    ensures FitsSoFar(s, lanes + [lane], |lanes|)
    ensures lane < |laneEnds| ==>
              EndsTrack(s, lanes + [lane], laneEnds[lane := s[|lanes|].endMs], owner[lane := |lanes|])
    ensures lane == |laneEnds| ==>
              EndsTrack(s, lanes + [lane], (laneEnds + [Some(0)])[lane := s[|lanes|].endMs],
                        (owner + [0])[lane := |lanes|])
  {
    var i, lanes' := |lanes|, lanes + [lane];
    forall k | 0 <= k < |laneEnds| ensures Blocked(s, lanes', i, k) <==> Blocked(s, lanes, i, k) {
      BlockedKept(s, lanes, lane, i, k);
    }
    forall k | 0 <= k < |laneEnds| {
      BlockedIffRunning(s, lanes, laneEnds, owner, k);
    }
    if lane < |laneEnds| {
      InOrder(s, owner[lane], i);
    }
  }

  lemma BlockedKept(s: seq<Span>, lanes: seq<int>, lane: int, i: nat, k: int)
    requires i <= |lanes| < |s|
    ensures Blocked(s, lanes + [lane], i, k) <==> Blocked(s, lanes, i, k)
  {
    var lanes' := lanes + [lane];
    if Blocked(s, lanes, i, k) {
      var j :| 0 <= j < i && lanes[j] == k && !EndedBy(s[j].endMs, s[i].startMs);
      assert lanes'[j] == k;
    }
    if Blocked(s, lanes', i, k) {
      var j :| 0 <= j < i && lanes'[j] == k && !EndedBy(s[j].endMs, s[i].startMs);
      assert lanes[j] == k;
    }
  }

  lemma FitsGiveFirstFit(s: seq<Span>, lanes: seq<int>, lane: map<Span, int>)
    requires |lanes| == |s| && forall i | 0 <= i < |s| :: s[i] in lane && lane[s[i]] == lanes[i] >= 0
    requires AllFit(s, lanes)
    ensures FirstFit(s, lane)
  {
    forall i | 0 <= i < |s|
      ensures LaneFree(s, lane, i, lane[s[i]])
      ensures forall k | 0 <= k < lane[s[i]] :: !LaneFree(s, lane, i, k)
    {
      assert FitsSoFar(s, lanes, i);
      forall k | 0 <= k < lanes[i] ensures !LaneFree(s, lane, i, k) {
        assert Blocked(s, lanes, i, k);
      }
    }
  }

  lemma AllFitStep(s: seq<Span>, lanes: seq<int>, lane: int)
    requires |lanes| < |s| && AllFit(s, lanes) && FitsSoFar(s, lanes + [lane], |lanes|)
    ensures AllFit(s, lanes + [lane])
  {
    forall j | 0 <= j < |lanes| ensures FitsSoFar(s, lanes + [lane], j) {
      assert FitsSoFar(s, lanes, j);
      forall k ensures Blocked(s, lanes + [lane], j, k) <==> Blocked(s, lanes, j, k) {
        BlockedKept(s, lanes, lane, j, k);
      }
    }
  }

  /** The inner scan: the lowest lane whose end has passed, -1 when there is none. */
  method FindLane(laneEnds: seq<Option<int>>, startMs: int) returns (lane: int)
    ensures -1 <= lane < |laneEnds|
    ensures forall k | 0 <= k < if lane == -1 then |laneEnds| else lane ::
              laneEnds[k].None? || laneEnds[k].value > startMs
    ensures lane != -1 ==> laneEnds[lane].Some? && laneEnds[lane].value <= startMs
  {
    for i := 0 to |laneEnds|
      invariant forall k | 0 <= k < i :: !EndedBy(laneEnds[k], startMs)
    {
      if EndedBy(laneEnds[i], startMs) {
        return i;
      }
    }
    lane := -1;
  }

  /** The loop over the sorted spans. */
  method AssignLanes(spans: array<Span>) returns (count: nat)
    requires Sorted(StartsBefore, spans[..]) && Distinct(spans[..])
    modifies (set s | s in spans[..])`lane
    ensures FirstFit(spans[..], LaneMap(spans[..]))
    ensures IsLaneCount(spans[..], LaneMap(spans[..]), count)
    ensures forall i, j | 0 <= i < j < spans.Length && spans[i].lane == spans[j].lane ::
              spans[i].endMs.Some? && spans[i].endMs.value <= spans[j].startMs
  {
    ghost var s := spans[..];
    var laneEnds: seq<Option<int>> := [];
    ghost var lanes: seq<int>, owner: seq<nat> := [], [];
    var maxLane := 0;
    for i := 0 to spans.Length
      invariant spans[..] == s && |lanes| == i
      invariant EndsTrack(s, lanes, laneEnds, owner) && AllFit(s, lanes)
      invariant forall j | 0 <= j < i :: s[j].lane == lanes[j]
      invariant maxLane == if i == 0 then 0 else |laneEnds| - 1
      invariant i > 0 ==> |laneEnds| > 0
    {
      var span := spans[i];
      var lane := FindLane(laneEnds, span.startMs);
      PlaceSpan(s, lanes, laneEnds, owner, if lane == -1 then |laneEnds| else lane);
      if lane == -1 {
        lane := |laneEnds|;
        laneEnds := laneEnds + [Some(0)];
        owner := owner + [0];
      }
      laneEnds := laneEnds[lane := span.endMs];
      owner := owner[lane := i];
      assert forall j | 0 <= j < i :: s[j] != span;
      span.lane := lane;
      AllFitStep(s, lanes, lane);
      lanes := lanes + [lane];
      if lane > maxLane {
        maxLane := lane;
      }
    }
    assert |s| > 0 ==> LaneTrack(s, lanes, maxLane, laneEnds[maxLane], owner[maxLane]);
    FitsGiveFirstFit(s, lanes, LaneMap(s));
    LaneMatesFollow(s, LaneMap(s));
    count := maxLane + 1;
  }

  /** Sort, then give each span the lowest free lane. For spans that all last, the lanes
      form a valid assignment and their number is the peak concurrency. */
  method PackLanes(spans: array<Span>) returns (count: nat)
    requires Distinct(spans[..])
    modifies spans, (set s | s in spans[..])`lane
    ensures spans[..] == StableSort(StartsBefore, old(spans[..]))
    ensures Sorted(StartsBefore, spans[..]) && Distinct(spans[..])
    ensures InStartOrder(spans[..]) && multiset(spans[..]) == old(multiset(spans[..]))
    ensures FirstFit(spans[..], LaneMap(spans[..]))
    ensures IsLaneCount(spans[..], LaneMap(spans[..]), count)
    ensures ValidAssignment(Elements(spans[..]), LaneMap(spans[..]))
    ensures forall i, j | 0 <= i < j < spans.Length && spans[i].lane == spans[j].lane ::
              spans[i].endMs.Some? && spans[i].endMs.value <= spans[j].startMs
    ensures spans.Length > 0 && (forall s | s in spans[..] :: !IsInstant(s)) ==>
              IsMaxConcurrency(Elements(spans[..]), count)
  {
    hide FirstFit, IsLaneCount, ValidAssignment, LaneMap, Elements, IsInstant;
    hide StableSort, Sorted, OrderOn, InStartOrder;
    ghost var given := spans[..];
    SortSpans(spans);
    StartsBeforeIsOrder(given);
    StableSortSorts(StartsBefore, given);
    DistinctPermutation(given, spans[..]);
    SameElements(spans[..], given);
    count := AssignLanes(spans);
    FirstFitIsValid(spans[..], LaneMap(spans[..]));
    if spans.Length > 0 && forall s | s in spans[..] :: !IsInstant(s) {
      PeakForLastingSpans(spans[..], LaneMap(spans[..]), count);
    }
  }
}
