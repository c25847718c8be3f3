/** Outcome attribution and the composition of all passes into the intervention timeline
    (server/harmonograf_server/interventions.py). */
module InterventionTimeline {
  import opened Common
  import opened Sorting
  import opened Interventions
  import opened InterventionLaws
  import opened InterventionPasses

  /** A stored plan: `revisionKind` in lower case, `cancelled` its tasks in status CANCELLED. */
  datatype Plan = Plan(createdAt: int, revisionIndex: int, revisionKind: string, triggerEventId: string, cancelled: nat)

  predicate PlanEarlier(a: Plan, b: Plan) {
    a.createdAt <= b.createdAt
  }

  predicate Revises(p: Plan, triggerEventId: string) {
    p.revisionIndex > 0 && p.triggerEventId != "" && p.triggerEventId == triggerEventId
  }

  predicate InWindow(p: Plan, r: Row, window: int) {
    && 0 <= p.createdAt - r.at <= window && p.revisionKind != "" && p.revisionIndex > 0
    && (r.driftKind == "" || p.revisionKind == r.driftKind)
  }

  // ---- Attribution on rows ----------------------------------------------------------------------

  /** The first revision plan, in order of creation, that names the row's trigger. */
  function RevisionFor(plans: seq<Plan>, triggerEventId: string): (p: Option<Plan>)
    ensures p.Some? ==> p.value in plans && Revises(p.value, triggerEventId)
    ensures p.None? ==> forall q | q in plans :: !Revises(q, triggerEventId)
  {
    if plans == [] then None
    else
      var p := RevisionFor(plans[..|plans|-1], triggerEventId);
      assert plans == plans[..|plans|-1] + [plans[|plans|-1]];
      if p.Some? then p else if Revises(plans[|plans|-1], triggerEventId) then Some(plans[|plans|-1]) else None
  }

  function FirstInWindow(plans: seq<Plan>, r: Row, window: int): (p: Option<Plan>)
    ensures p.Some? ==> p.value in plans && InWindow(p.value, r, window)
    ensures p.None? ==> forall q | q in plans :: !InWindow(q, r, window)
  {
    if plans == [] then None
    else
      var p := FirstInWindow(plans[..|plans|-1], r, window);
      assert plans == plans[..|plans|-1] + [plans[|plans|-1]];
      if p.Some? then p else if InWindow(plans[|plans|-1], r, window) then Some(plans[|plans|-1]) else None
  }

  /** The newest plan created after `at`. */
  function LatestAfter(plans: seq<Plan>, at: int): (p: Option<Plan>)
    ensures p.Some? ==> p.value in plans && p.value.createdAt > at
    ensures forall q | q in plans && q.createdAt > at :: p.Some? && q.createdAt <= p.value.createdAt
  {
    if plans == [] then None
    else
      var p, last := LatestAfter(plans[..|plans|-1], at), plans[|plans|-1];
      assert plans == plans[..|plans|-1] + [last];
      if last.createdAt > at && (p.None? || last.createdAt > p.value.createdAt) then Some(last) else p
  }

  function CascadeCount(plans: seq<Plan>, at: int): nat {
    match LatestAfter(plans, at)
    case Some(p) => p.cancelled
    case None => 0
  }

  predicate WantsOutcome(r: Row) {
    (r.source == "drift" || r.source == "user") && r.outcome.Unset?
  }

  function AttributeRow(r: Row, plans: seq<Plan>, window: int): Row {
    if !WantsOutcome(r) then r
    else
      var strict := RevisionFor(plans, r.triggerEventId);
      var fallback := if strict.None? && window > 0 then FirstInWindow(plans, r, window) else strict;
      if fallback.Some? then
        r.(outcome := PlanRevised(fallback.value.revisionIndex), planRevisionIndex := fallback.value.revisionIndex)
      else if CascadeCount(plans, r.at) > 0 then r.(outcome := CascadeCancel(CascadeCount(plans, r.at)))
      else r.(outcome := Recorded)
  }

  function Attribute(rows: seq<Row>, plans: seq<Plan>, window: int): (out: seq<Row>)
    ensures |out| == |rows| && forall i | 0 <= i < |rows| :: out[i] == AttributeRow(rows[i], plans, window)
  {
    if rows == [] then []
    else Attribute(rows[..|rows|-1], plans, window) + [AttributeRow(rows[|rows|-1], plans, window)]
  }

  /** Strict ids decide first: a drift or user row whose trigger some revision names gets that
      revision, the earliest created one. */
  lemma StrictIdDecides(r: Row, plans: seq<Plan>, window: int, p: Plan)
    requires Sorted(PlanEarlier, plans)
    requires WantsOutcome(r) && p in plans && Revises(p, r.triggerEventId)
    ensures exists q :: q in plans && Revises(q, r.triggerEventId) && q.createdAt <= p.createdAt &&
              AttributeRow(r, plans, window).outcome == PlanRevised(q.revisionIndex) &&
              AttributeRow(r, plans, window).planRevisionIndex == q.revisionIndex
  {
    RevisionIsEarliest(plans, r.triggerEventId, p);
  }

  lemma {:induction false} RevisionIsEarliest(plans: seq<Plan>, triggerEventId: string, p: Plan)
    requires Sorted(PlanEarlier, plans) && p in plans && Revises(p, triggerEventId)
    ensures RevisionFor(plans, triggerEventId).Some?
    ensures RevisionFor(plans, triggerEventId).value.createdAt <= p.createdAt
  {
    var t, last := plans[..|plans|-1], plans[|plans|-1];
    assert plans == t + [last];
    var q := RevisionFor(t, triggerEventId);
    if q.Some? {
      var i :| 0 <= i < |t| && t[i] == q.value;
      if p in t {
        PlansPrefix(plans);
        RevisionIsEarliest(t, triggerEventId, p);
      } else {
        var leq := PlanEarlier;
        assert leq(plans[i], plans[|plans|-1]);
      }
    }
  }

  lemma PlansPrefix(plans: seq<Plan>)
    requires plans != [] && Sorted(PlanEarlier, plans)
    ensures Sorted(PlanEarlier, plans[..|plans|-1])
  {
    var leq, t := PlanEarlier, plans[..|plans|-1];
    forall i, j {:trigger leq(t[i], t[j])} | 0 <= i < j < |t| ensures leq(t[i], t[j]) {
      assert leq(plans[i], plans[j]);
    }
  }

  // ---- The whole timeline -------------------------------------------------------------------------

  /** The rows of a session before the legacy pass. */
  ghost function Timeline(rows: seq<Row>, plans: seq<Plan>, window: int): seq<Row> {
    Merge(Collapse(Attribute(StableSort(Earlier, rows), StableSort(PlanEarlier, plans), window)))
  }

  /** The rows a timeline is collapsed and merged from. */
  ghost function Attributed(rows: seq<Row>, plans: seq<Plan>, window: int): seq<Row> {
    Attribute(StableSort(Earlier, rows), StableSort(PlanEarlier, plans), window)
  }

  lemma AttributeKeeps(r: Row, plans: seq<Plan>, window: int)
    ensures var a := AttributeRow(r, plans, window);
            && a.at == r.at && a.conditionId == r.conditionId && a.triggerEventId == r.triggerEventId
            && a.absorbed == r.absorbed && a.count == r.count && a.driftKind == r.driftKind && a.source == r.source
  {
  }

  lemma {:induction false} AttributeSorted(rows: seq<Row>, plans: seq<Plan>, window: int)
    requires Sorted(Earlier, rows)
    ensures Sorted(Earlier, Attribute(rows, plans, window))
  {
    var out, leq := Attribute(rows, plans, window), Earlier;
    hide AttributeRow, Attribute;
    forall i, j {:trigger leq(out[i], out[j])} | 0 <= i < j < |out| ensures leq(out[i], out[j]) {
      AttributeKeeps(rows[i], plans, window);
      AttributeKeeps(rows[j], plans, window);
      assert leq(rows[i], rows[j]);
    }
  }

  /** The attributed rows are the given rows, one by one, in time order. */
  ghost predicate ComeFrom(out: seq<Row>, rows: seq<Row>, plans: seq<Plan>, window: int) {
    && (forall r | r in rows :: AttributeRow(r, plans, window) in out)
    && (forall a | a in out :: exists r :: r in rows && a == AttributeRow(r, plans, window))
  }

  lemma AttributedRows(rows: seq<Row>, plans: seq<Plan>, window: int)
    ensures Sorted(Earlier, Attributed(rows, plans, window))
    ensures ComeFrom(Attributed(rows, plans, window), rows, StableSort(PlanEarlier, plans), window)
  {
    hide AttributeRow, Sorted, OrderOn, StableSort, ComeFrom, Attribute;
    var s, ps := StableSort(Earlier, rows), StableSort(PlanEarlier, plans);
    EarlierIsOrder(rows);
    StableSortSorts(Earlier, rows);
    AttributeSorted(s, ps, window);
    AttributedFrom(s, rows, ps, window, Attribute(s, ps, window));
  }

  lemma AttributedFrom(s: seq<Row>, rows: seq<Row>, plans: seq<Plan>, window: int, out: seq<Row>)
    requires multiset(s) == multiset(rows) && out == Attribute(s, plans, window)
    ensures ComeFrom(out, rows, plans, window)
  {
    hide AttributeRow;
    SameElements(s, rows);
    forall r | r in rows ensures AttributeRow(r, plans, window) in out {
      var i :| 0 <= i < |s| && s[i] == r;
      assert out[i] in out;
    }
    forall a | a in out ensures exists r :: r in rows && a == AttributeRow(r, plans, window) {
      var i :| 0 <= i < |out| && out[i] == a;
      assert s[i] in s;
    }
  }

  lemma ComeFromProjected(out: seq<Row>, rows: seq<Row>, plans: seq<Plan>, window: int)
    requires ComeFrom(out, rows, plans, window) && Projected(rows) && UnsharedTriggers(rows)
    ensures Projected(out) && UnsharedTriggers(out)
    ensures forall c :: Triggers(out, c) == Triggers(rows, c)
  {
    hide AttributeRow;
    forall r ensures AttributeRow(r, plans, window).conditionId == r.conditionId &&
                     AttributeRow(r, plans, window).triggerEventId == r.triggerEventId
    {
      AttributeKeeps(r, plans, window);
    }
    forall a | a in out
      ensures a.absorbed == {} && a.count == 1
      ensures a.conditionId != "" ==> a.triggerEventId != "" && a.driftKind != "" && !Standalone(a)
    {
      var r :| r in rows && a == AttributeRow(r, plans, window);
      AttributeKeeps(r, plans, window);
    }
    forall c ensures Triggers(out, c) == Triggers(rows, c) {
      forall x | x in Triggers(rows, c) ensures x in Triggers(out, c) {
        var r :| r in rows && r.conditionId == c && r.triggerEventId == x;
        assert AttributeRow(r, plans, window) in out;
      }
    }
    forall a, b | a in out && b in out && a.conditionId != "" && b.conditionId != "" &&
      a.triggerEventId == b.triggerEventId ensures a.conditionId == b.conditionId
    {
      assert a.triggerEventId in Triggers(out, a.conditionId) && b.triggerEventId in Triggers(out, b.conditionId);
      TriggersUnshared(rows, a.conditionId, b.conditionId, a.triggerEventId);
    }
  }

  lemma AttributedProjected(rows: seq<Row>, plans: seq<Plan>, window: int)
    requires Projected(rows) && UnsharedTriggers(rows)
    ensures Projected(Attributed(rows, plans, window)) && UnsharedTriggers(Attributed(rows, plans, window))
    ensures forall c :: Triggers(Attributed(rows, plans, window), c) == Triggers(rows, c)
  {
    hide Projected, UnsharedTriggers, Triggers, ComeFrom;
    AttributedRows(rows, plans, window);
    ComeFromProjected(Attributed(rows, plans, window), rows, StableSort(PlanEarlier, plans), window);
  }

  /** The timeline is in time order and merging it again would not change it. */
  lemma TimelineIsSettled(rows: seq<Row>, plans: seq<Plan>, window: int)
    requires Projected(rows) && UnsharedTriggers(rows)
    ensures Sorted(Earlier, Timeline(rows, plans, window))
    ensures Merge(Timeline(rows, plans, window)) == Timeline(rows, plans, window)
  {
    var a := Attributed(rows, plans, window);
    AttributedRows(rows, plans, window);
    AttributedProjected(rows, plans, window);
    CollapseIsWellAliased(a);
    MergeIsIdempotent(Collapse(a));
    RegroupSorted(ByCondition, CollapseGroup, a);
    RegroupSorted(MergeKey(AliasOf(Collapse(a))), MergeGroup, Collapse(a));
  }

  lemma SameCarries(a: seq<Row>, rows: seq<Row>, c: string)
    requires Triggers(a, c) == Triggers(rows, c)
    ensures forall m :: Carries(a, c, m) == Carries(rows, c, m)
  {
  }

  lemma HasKey(a: seq<Row>, d: Row)
    requires d in a && d.conditionId != ""
    ensures d.conditionId in KeysOf(ByCondition, a)
  {
    KeyedIsKey(ByCondition, a, d);
  }

  lemma OutcomeReachesRow(a: seq<Row>, d: Row, m: Row)
    requires Projected(a) && UnsharedTriggers(a) && d in a && d.conditionId != "" && d.outcome.Attributed()
    requires m in Merge(Collapse(a)) && Carries(a, d.conditionId, m)
    ensures m.outcome.Attributed()
  {
    hide MergeGroup, CollapseGroup, Triggers, Projected, UnsharedTriggers;
    HasKey(a, d);
    SortedGroupMembers(ByCondition, a, d.conditionId);
    CollapsedOutcome(StableSort(Earlier, GroupOf(ByCondition, a, d.conditionId)));
    var g := ConditionGroup(a, d.conditionId, m);
    MergedOutcome(g);
  }

  lemma OutcomeFound(rows: seq<Row>, plans: seq<Plan>, window: int, d: Row, p: Plan) returns (a: Row)
    requires d in rows && WantsOutcome(d) && p in plans && Revises(p, d.triggerEventId)
    ensures a in Attributed(rows, plans, window) && a.conditionId == d.conditionId && a.outcome.Attributed()
  {
    var ps := StableSort(PlanEarlier, plans);
    AttributedRows(rows, plans, window);
    a := AttributeRow(d, ps, window);
    AttributeKeeps(d, ps, window);
    assert OrderOn(PlanEarlier, plans);
    StableSortSorts(PlanEarlier, plans);
    assert p in multiset(ps);
    StrictIdDecides(d, ps, window, p);
  }

  // ---- The legacy time window -----------------------------------------------------------------------

  predicate IsOrphanPlan(r: Row) {
    r.triggerEventId == "" && r.driftKind != "" && r.outcome.PlanRevised?
  }

  predicate SameLane(prior: Row, r: Row) {
    (prior.source == "user" || prior.source == "drift") && prior.driftKind == r.driftKind
  }

  /** The row, looking back from position `n`, that an orphan plan row folds onto. */
  function TargetBefore(kept: seq<Row>, n: nat, r: Row, window: int): (t: Option<nat>)
    requires n <= |kept|
    ensures t.Some? ==> t.value < n && SameLane(kept[t.value], r) && 0 <= r.at - kept[t.value].at <= window
  {
    if n == 0 then None
    else if !SameLane(kept[n-1], r) then TargetBefore(kept, n - 1, r, window)
    else if 0 <= r.at - kept[n-1].at <= window then Some(n - 1)
    else if r.at - kept[n-1].at > window then None
    else TargetBefore(kept, n - 1, r, window)
  }

  function FoldPlan(target: Row, r: Row): Row {
    target.(outcome := if target.outcome.Attributed() then target.outcome else r.outcome,
            planRevisionIndex := if target.planRevisionIndex == 0 then r.planRevisionIndex
              else target.planRevisionIndex,
            severity := if target.severity == "" then r.severity else target.severity)
  }

  function FoldOne(kept: seq<Row>, r: Row, window: int): seq<Row> {
    if !IsOrphanPlan(r) then kept + [r]
    else match TargetBefore(kept, |kept|, r, window)
      case Some(i) => kept[i := FoldPlan(kept[i], r)]
      case None => kept + [r]
  }

  function FoldOrphans(rows: seq<Row>, window: int): seq<Row> {
    if rows == [] then [] else FoldOne(FoldOrphans(rows[..|rows|-1], window), rows[|rows|-1], window)
  }

  // ---- What the legacy pass touches -----------------------------------------------------------------

  /** `kept[i]` is a row of the orphan's lane, inside the window before it. */
  predicate InWindowLane(kept: seq<Row>, i: nat, r: Row, window: int)
    requires i < |kept|
  {
    SameLane(kept[i], r) && 0 <= r.at - kept[i].at <= window
  }

  /** In time order, the target is the latest row of the lane inside the window, and there is
      none exactly when there is no such row. */
  lemma TargetIsLatest(kept: seq<Row>, r: Row, window: int)
    requires Sorted(Earlier, kept)
    ensures TargetBefore(kept, |kept|, r, window).None? <==>
              forall j | 0 <= j < |kept| :: !InWindowLane(kept, j, r, window)
    ensures forall i: nat :: TargetBefore(kept, |kept|, r, window) == Some(i) <==>
              i < |kept| && InWindowLane(kept, i, r, window)
              && forall j | i < j < |kept| :: !InWindowLane(kept, j, r, window)
  {
    LatestBefore(kept, |kept|, r, window);
  }

  lemma {:induction false} LatestBefore(kept: seq<Row>, n: nat, r: Row, window: int)
    requires Sorted(Earlier, kept) && n <= |kept|
    ensures match TargetBefore(kept, n, r, window)
            case None => forall j | 0 <= j < n :: !InWindowLane(kept, j, r, window)
            case Some(i) => InWindowLane(kept, i, r, window)
                            && forall j | i < j < n :: !InWindowLane(kept, j, r, window)
  {
    if n > 0 {
      LatestBefore(kept, n - 1, r, window);
      var leq := Earlier;
      assert forall j | 0 <= j < n - 1 :: leq(kept[j], kept[n-1]);
    }
  }

  /** The kept rows stay in time order, so the look-back always finds the latest row. */
  lemma {:induction false} FoldStaysInOrder(rows: seq<Row>, window: int)
    requires Sorted(Earlier, rows)
    ensures Sorted(Earlier, FoldOrphans(rows, window))
    ensures forall k | k in FoldOrphans(rows, window) :: exists r :: r in rows && r.at == k.at
  {
    if rows != [] {
      var t, x := rows[..|rows|-1], rows[|rows|-1];
      var leq := Earlier;
      assert Sorted(Earlier, t);
      FoldStaysInOrder(t, window);
      var kept := FoldOrphans(t, window);
      assert rows == t + [x];
      forall k | k in kept ensures leq(k, x) {
        var r :| r in t && r.at == k.at;
        var i :| 0 <= i < |t| && t[i] == r;
        assert leq(rows[i], rows[|rows|-1]);
      }
      FoldOneInOrder(kept, x, window);
      forall k | k in FoldOne(kept, x, window) ensures exists r :: r in rows && r.at == k.at {
        FoldOneTimes(kept, x, window, k);
      }
    }
  }

  lemma FoldOneInOrder(kept: seq<Row>, x: Row, window: int)
    requires Sorted(Earlier, kept) && forall k | k in kept :: Earlier(k, x)
    ensures Sorted(Earlier, FoldOne(kept, x, window))
  {
    var leq, out := Earlier, FoldOne(kept, x, window);
    forall i, j | 0 <= i < j < |out| ensures leq(out[i], out[j]) {
      assert j < |kept| ==> leq(kept[i], kept[j]);
      assert kept[i] in kept;
    }
  }

  lemma FoldOneTimes(kept: seq<Row>, x: Row, window: int, k: Row)
    requires k in FoldOne(kept, x, window)
    ensures k.at == x.at || exists m :: m in kept && m.at == k.at
  {
    var out := FoldOne(kept, x, window);
    var i :| 0 <= i < |out| && out[i] == k;
    assert i < |kept| ==> kept[i] in kept && kept[i].at == k.at;
  }

  /** The orphan has an outcome, a revision or a severity that the row lacks. */
  predicate Lacks(t: Row, r: Row) {
    || !t.outcome.Attributed()
    || (t.planRevisionIndex == 0 && r.planRevisionIndex != 0)
    || (t.severity == "" && r.severity != "")
  }

  predicate FoldsOnto(kept: seq<Row>, r: Row, window: int, i: nat) {
    IsOrphanPlan(r) && TargetBefore(kept, |kept|, r, window) == Some(i)
  }

  /** One row of input changes a kept row exactly when it is an orphan that folds onto it and
      has something it lacks. */
  lemma TouchedOnce(kept: seq<Row>, r: Row, window: int, i: nat)
    requires i < |kept|
    ensures |kept| <= |FoldOne(kept, r, window)|
    ensures FoldOne(kept, r, window)[i] == kept[i] <==> !(FoldsOnto(kept, r, window, i) && Lacks(kept[i], r))
  {
  }

  /** Filling in what a row lacks, and nothing else. */
  ghost predicate Grown(a: Row, b: Row) {
    && b == a.(outcome := b.outcome, planRevisionIndex := b.planRevisionIndex, severity := b.severity)
    && (b.outcome == a.outcome || (!a.outcome.Attributed() && b.outcome.Attributed()))
    && (b.planRevisionIndex == a.planRevisionIndex || a.planRevisionIndex == 0)
    && (b.severity == a.severity || a.severity == "")
  }

  lemma GrownStep(a: Row, kept: seq<Row>, r: Row, window: int, i: nat)
    requires i < |kept| && Grown(a, kept[i])
    ensures |kept| <= |FoldOne(kept, r, window)| && Grown(a, FoldOne(kept, r, window)[i])
    ensures kept[i] != a ==> FoldOne(kept, r, window)[i] != a
  {
  }

  lemma {:induction false} KeptPositions(rows: seq<Row>, window: int, m: nat, n: nat)
    requires m <= n <= |rows|
    ensures |FoldOrphans(rows[..m], window)| <= |FoldOrphans(rows[..n], window)|
    ensures forall i | 0 <= i < |FoldOrphans(rows[..m], window)| ::
              Grown(FoldOrphans(rows[..m], window)[i], FoldOrphans(rows[..n], window)[i])
    decreases n
  {
    hide FoldOne, FoldOrphans, Grown;
    var before := FoldOrphans(rows[..m], window);
    if m == n {
      forall i | 0 <= i < |before| ensures Grown(before[i], before[i]) { GrownSelf(before[i]); }
    } else {
      KeptPositions(rows, window, m, n - 1);
      FoldOneMore(rows, n - 1, window);
      FoldNotShorter(FoldOrphans(rows[..n-1], window), rows[n-1], window);
      forall i | 0 <= i < |before| ensures Grown(before[i], FoldOrphans(rows[..n], window)[i]) {
        GrownStep(before[i], FoldOrphans(rows[..n-1], window), rows[n-1], window, i);
      }
    }
  }

  lemma GrownSelf(a: Row)
    ensures Grown(a, a)
  {
  }

  lemma FoldNotShorter(kept: seq<Row>, r: Row, window: int)
    ensures |kept| <= |FoldOne(kept, r, window)|
  {
  }

  /** Over the whole pass: a row that is kept after the first `m` inputs is unchanged after the
      first `n` exactly when no orphan in between folds onto it with something it lacks. */
  lemma {:induction false} KeptUnlessFoldedOnto(rows: seq<Row>, window: int, m: nat, n: nat, i: nat)
    requires m <= n <= |rows| && i < |FoldOrphans(rows[..m], window)|
    ensures i < |FoldOrphans(rows[..n], window)|
    ensures FoldOrphans(rows[..n], window)[i] == FoldOrphans(rows[..m], window)[i] <==>
              forall j | m <= j < n :: !(FoldsOnto(FoldOrphans(rows[..j], window), rows[j], window, i)
                                         && Lacks(FoldOrphans(rows[..m], window)[i], rows[j]))
    decreases n
  {
    hide FoldOne, FoldOrphans, Grown, FoldsOnto, Lacks;
    KeptPositions(rows, window, m, n);
    if m < n {
      var a, last := FoldOrphans(rows[..m], window)[i], FoldOrphans(rows[..n-1], window);
      KeptPositions(rows, window, m, n - 1);
      KeptUnlessFoldedOnto(rows, window, m, n - 1, i);
      FoldOneMore(rows, n - 1, window);
      TouchedOnce(last, rows[n-1], window, i);
      GrownStep(a, last, rows[n-1], window, i);
    }
  }

  /** `kept[i]` is the latest row of the orphan's lane inside the window before it. */
  predicate LatestInReach(kept: seq<Row>, r: Row, window: int, i: nat) {
    && IsOrphanPlan(r) && i < |kept| && InWindowLane(kept, i, r, window)
    && forall j | i < j < |kept| :: !InWindowLane(kept, j, r, window)
  }

  /** In time order an orphan folds onto the latest row of its lane inside the window. */
  lemma FoldsOntoLatest(rows: seq<Row>, window: int, j: nat, i: nat)
    requires Sorted(Earlier, rows) && j < |rows|
    ensures FoldsOnto(FoldOrphans(rows[..j], window), rows[j], window, i)
       <==> LatestInReach(FoldOrphans(rows[..j], window), rows[j], window, i)
  {
    hide FoldOrphans, TargetBefore, InWindowLane;
    SortedPart(rows, j);
    FoldStaysInOrder(rows[..j], window);
    TargetIsLatest(FoldOrphans(rows[..j], window), rows[j], window);
  }

  lemma SortedPart(rows: seq<Row>, j: nat)
    requires Sorted(Earlier, rows) && j <= |rows|
    ensures Sorted(Earlier, rows[..j])
  {
    var leq := Earlier;
    assert forall a, b | 0 <= a < b < j :: leq(rows[a], rows[b]);
  }

  /** Over the whole pass, in time order: a row that is kept after the first `m` inputs is
      unchanged after the first `n` exactly when no orphan in between, for which it is the
      latest row of the lane inside the window, has something it lacks. */
  lemma KeptUntouchedIff(rows: seq<Row>, window: int, m: nat, n: nat, i: nat)
    requires Sorted(Earlier, rows) && m <= n <= |rows| && i < |FoldOrphans(rows[..m], window)|
    ensures i < |FoldOrphans(rows[..n], window)|
    ensures FoldOrphans(rows[..n], window)[i] == FoldOrphans(rows[..m], window)[i] <==>
              forall j | m <= j < n :: !(LatestInReach(FoldOrphans(rows[..j], window), rows[j], window, i)
                                         && Lacks(FoldOrphans(rows[..m], window)[i], rows[j]))
  {
    hide FoldOrphans, FoldsOnto, LatestInReach, Lacks, Sorted;
    KeptUnlessFoldedOnto(rows, window, m, n, i);
    forall j | m <= j < n
      ensures FoldsOnto(FoldOrphans(rows[..j], window), rows[j], window, i)
         <==> LatestInReach(FoldOrphans(rows[..j], window), rows[j], window, i)
    {
      FoldsOntoLatest(rows, window, j, i);
    }
  }

  /** What is left of `rows`: the rows at the increasing positions `at`, filled in, among them
      all but orphan plan rows. */
  ghost predicate Survives(out: seq<Row>, rows: seq<Row>, at: seq<nat>) {
    && |at| == |out|
    && (forall k | 0 <= k < |at| :: at[k] < |rows| && Grown(rows[at[k]], out[k]))
    && (forall i, j | 0 <= i < j < |at| :: at[i] < at[j])
    && (forall n | 0 <= n < |rows| && !IsOrphanPlan(rows[n]) :: n in at)
  }

  /** The legacy pass drops nothing but orphan plan rows, invents and reorders nothing, and
      fills in nothing but outcome, revision and severity. */
  lemma {:induction false} FoldKeepsOthers(rows: seq<Row>, window: int) returns (at: seq<nat>)
    ensures Survives(FoldOrphans(rows, window), rows, at)
  {
    hide Survives, FoldOne;
    if rows == [] {
      at := [];
      NothingSurvives();
    } else {
      var t, x := rows[..|rows|-1], rows[|rows|-1];
      at := FoldKeepsOthers(t, window);
      assert rows == t + [x];
      SurvivesOne(FoldOrphans(t, window), t, at, x, window);
      if |FoldOrphans(rows, window)| > |FoldOrphans(t, window)| {
        at := at + [|t|];
      }
    }
  }

  lemma NothingSurvives()
    ensures Survives([], [], [])
  {
  }

  lemma SurvivesOne(kept: seq<Row>, t: seq<Row>, at: seq<nat>, x: Row, window: int)
    requires Survives(kept, t, at)
    ensures var out := FoldOne(kept, x, window);
      if |out| > |kept| then Survives(out, t + [x], at + [|t|]) else Survives(out, t + [x], at)
  {
    hide Grown, TargetBefore, FoldPlan;
    var out, more := FoldOne(kept, x, window), at + [|t|];
    GrownSelf(x);
    assert forall n | n in at :: n in more;
    assert |t| in more;
    forall k | 0 <= k < |kept| ensures Grown(t[at[k]], out[k]) {
      GrownStep(t[at[k]], kept, x, window, k);
    }
  }

  /** A strict-id row is touched: with a window of at least one, a later orphan of its lane
      gives it the severity it lacks, and the orphan's own revision disappears. */
  lemma StrictRowIsTouched(d: Row, p: Row, window: int)
    requires d.triggerEventId == "d" && d.source == "drift" && d.driftKind == "x" && d.at == 0
    requires d.severity == "" && d.outcome == PlanRevised(1) && d.planRevisionIndex == 1
    requires p.triggerEventId == "" && p.driftKind == "x" && p.at == 1
    requires p.severity == "high" && p.outcome == PlanRevised(2) && window >= 1
    ensures FoldOrphans([d, p], window) == [d.(severity := "high")]
  {
    assert [d, p][..1] == [d] && [d][..0] == [];
    assert FoldOrphans([d], window) == [d];
    assert TargetBefore([d], 1, p, window) == Some(0);
  }

  // ---- The passes on records ------------------------------------------------------------------------

  method IndexRevisions(plans: seq<Plan>) returns (byTrigger: map<string, Plan>)
    ensures forall t :: t in byTrigger <==> RevisionFor(plans, t).Some?
    ensures forall t | t in byTrigger :: RevisionFor(plans, t) == Some(byTrigger[t])
  {
    byTrigger := map[];
    for i := 0 to |plans|
      invariant forall t :: t in byTrigger <==> RevisionFor(plans[..i], t).Some?
      invariant forall t | t in byTrigger :: RevisionFor(plans[..i], t) == Some(byTrigger[t])
    {
      var plan := plans[i];
      assert plans[..i+1][..i] == plans[..i];
      if plan.revisionIndex <= 0 || plan.triggerEventId == "" {
        continue;
      }
      if plan.triggerEventId !in byTrigger {
        byTrigger := byTrigger[plan.triggerEventId := plan];
      }
    }
    assert plans[..|plans|] == plans;
  }

  /** The legacy matcher: the closest later revision of the row's kind inside the window. */
  method FindMatchingRevision(r: Record, plans: seq<Plan>, window: int) returns (best: Option<Plan>)
    requires Sorted(PlanEarlier, plans)
    ensures best == FirstInWindow(plans, r.View(), window)
  {
    best := None;
    var bestDelta := window + 1;
    for i := 0 to |plans|
      invariant best == FirstInWindow(plans[..i], r.View(), window)
      invariant bestDelta == if best.Some? then best.value.createdAt - r.at else window + 1
      invariant best.Some? ==> exists k :: 0 <= k < i && plans[k] == best.value
    {
      var plan := plans[i];
      assert plans[..i+1][..i] == plans[..i];
      if best.Some? {
        ghost var k :| 0 <= k < i && plans[k] == best.value;
        ghost var leq := PlanEarlier;
        assert leq(plans[k], plans[i]);
      }
      var delta := plan.createdAt - r.at;
      if delta < 0 || delta > window {
        continue;
      }
      if plan.revisionKind == "" || plan.revisionIndex <= 0 {
        continue;
      }
      if r.driftKind != "" && plan.revisionKind == r.driftKind {
        if delta < bestDelta {
          bestDelta, best := delta, Some(plan);
        }
      } else if best.None? && r.driftKind == "" {
        bestDelta, best := delta, Some(plan);
      }
    }
    assert plans[..|plans|] == plans;
  }

  method CountCascadeCancels(at: int, plans: seq<Plan>) returns (count: nat)
    ensures count == CascadeCount(plans, at)
  {
    var latest: Option<Plan> := None;
    for i := 0 to |plans|
      invariant latest == LatestAfter(plans[..i], at)
    {
      assert plans[..i+1][..i] == plans[..i];
      if plans[i].createdAt > at && (latest.None? || plans[i].createdAt > latest.value.createdAt) {
        latest := Some(plans[i]);
      }
    }
    assert plans[..|plans|] == plans;
    count := if latest.None? then 0 else latest.value.cancelled;
  }

  method AttributeRecord(r: Record, byTrigger: map<string, Plan>, plans: seq<Plan>, window: int)
    requires Sorted(PlanEarlier, plans)
    requires forall t :: t in byTrigger <==> RevisionFor(plans, t).Some?
    requires forall t | t in byTrigger :: RevisionFor(plans, t) == Some(byTrigger[t])
    modifies r`outcome, r`planRevisionIndex
    ensures r.View() == AttributeRow(old(r.View()), plans, window)
  {
    hide Sorted;
    if r.source != "drift" && r.source != "user" {
      return;
    }
    if !r.outcome.Unset? {
      return;
    }
    if r.triggerEventId in byTrigger {
      r.outcome := PlanRevised(byTrigger[r.triggerEventId].revisionIndex);
      r.planRevisionIndex := byTrigger[r.triggerEventId].revisionIndex;
      return;
    }
    if window > 0 {
      var fallback := FindMatchingRevision(r, plans, window);
      if fallback.Some? {
        r.outcome := PlanRevised(fallback.value.revisionIndex);
        r.planRevisionIndex := fallback.value.revisionIndex;
        return;
      }
    }
    var cascade := CountCascadeCancels(r.at, plans);
    if cascade > 0 {
      r.outcome := CascadeCancel(cascade);
      return;
    }
    r.outcome := Recorded;
  }

  method AttributeOutcomes(records: seq<Record>, plans: seq<Plan>, window: int)
    requires Distinct(records)
    modifies set r | r in records
    ensures Views(records) == Attribute(old(Views(records)), StableSort(PlanEarlier, plans), window)
  {
    hide AttributeRow, Record.View, StableSort, Attribute, OrderOn;
    var planList := StableSort(PlanEarlier, plans);
    PlansInOrder(plans);
    StableSortSorts(PlanEarlier, plans);
    var byTrigger := IndexRevisions(planList);
    ghost var rows := Views(records);
    for i := 0 to |records|
      invariant forall j | 0 <= j < i :: records[j].View() == AttributeRow(rows[j], planList, window)
      invariant forall j | i <= j < |records| :: records[j].View() == rows[j]
    {
      AttributeRecord(records[i], byTrigger, planList, window);
    }
    assert Views(records) == Attribute(rows, planList, window);
  }

  lemma PlansInOrder(plans: seq<Plan>)
    ensures OrderOn(PlanEarlier, plans)
  {
  }

  /** Look back for the row an orphan plan row belongs to. */
  method FindTarget(kept: seq<Record>, r: Record, window: int) returns (target: Option<nat>)
    ensures target == TargetBefore(Views(kept), |kept|, r.View(), window)
  {
    ghost var rows := Views(kept);
    var n: nat := |kept|;
    while n > 0
      invariant n <= |kept|
      invariant TargetBefore(rows, |kept|, r.View(), window) == TargetBefore(rows, n, r.View(), window)
    {
      var prior := kept[n-1];
      n := n - 1;
      if prior.source != "user" && prior.source != "drift" {
        continue;
      }
      if prior.driftKind != r.driftKind {
        continue;
      }
      var delta := r.at - prior.at;
      if 0 <= delta <= window {
        return Some(n);
      }
      if delta > window {
        return None;
      }
    }
    target := None;
  }

  method FoldRecord(target: Record, r: Record)
    requires target != r
    modifies target
    ensures target.View() == FoldPlan(old(target.View()), r.View())
  {
    if target.outcome.Unset? || target.outcome.Recorded? {
      target.outcome := r.outcome;
    }
    if target.planRevisionIndex == 0 {
      target.planRevisionIndex := r.planRevisionIndex;
    }
    if target.severity == "" && r.severity != "" {
      target.severity := r.severity;
    }
  }

  /** Keep a record, or fold it onto an earlier one. */
  method KeepOrFold(given: seq<Record>, r: Record, window: int) returns (kept: seq<Record>)
    requires Distinct(given) && r !in given
    modifies set k | k in given
    ensures Views(kept) == FoldOne(old(Views(given)), r.View(), window)
    ensures Distinct(kept) && forall k | k in kept :: k in given || k == r
  {
    hide *;
    OrphanFields(r);
    FoldCases(Views(given), r.View(), window);
    var orphan := r.triggerEventId == "" && r.driftKind != "" && r.outcome.PlanRevised?;
    if orphan {
      var target := FindTarget(given, r, window);
      if target.Some? {
        FoldAt(given, target.value, r);
        return given;
      }
    }
    ViewsAppend(given, r);
    KeptWith(given, r);
    kept := given + [r];
  }

  method FoldAt(given: seq<Record>, i: nat, r: Record)
    requires Distinct(given) && r !in given && i < |given|
    modifies given[i]
    ensures Views(given) == old(Views(given))[i := FoldPlan(old(Views(given))[i], r.View())]
  {
    hide FoldPlan, Record.View;
    FoldRecord(given[i], r);
  }

  lemma FoldCases(kept: seq<Row>, r: Row, window: int)
    ensures var target := TargetBefore(kept, |kept|, r, window);
      FoldOne(kept, r, window) ==
        if IsOrphanPlan(r) && target.Some? then kept[target.value := FoldPlan(kept[target.value], r)] else kept + [r]
  {
  }

  lemma KeptWith(given: seq<Record>, r: Record)
    requires Distinct(given) && r !in given
    ensures Distinct(given + [r]) && forall k | k in given + [r] :: k in given || k == r
  {
  }

  method FoldOrphanRecords(records: seq<Record>, window: int) returns (kept: seq<Record>)
    requires Distinct(records)
    modifies set r | r in records
    ensures Views(kept) == FoldOrphans(old(Views(records)), window)
  {
    hide FoldOne, FoldOrphans, Record.View;
    ghost var rows := Views(records);
    kept := [];
    FoldNothing(window);
    for i := 0 to |records|
      invariant Views(kept) == FoldOrphans(rows[..i], window)
      invariant Distinct(kept) && forall r | r in kept :: r in records[..i]
      invariant forall j | i <= j < |records| :: records[j].View() == rows[j]
    {
      FoldOneMore(rows, i, window);
      NotEarlier(records, i);
      kept := KeepOrFold(kept, records[i], window);
    }
    assert rows[..|records|] == rows;
  }

  lemma FoldNothing(window: int)
    ensures FoldOrphans([], window) == []
  {
  }

  lemma FoldOneMore(rows: seq<Row>, i: nat, window: int)
    requires i < |rows|
    ensures FoldOrphans(rows[..i+1], window) == FoldOne(FoldOrphans(rows[..i], window), rows[i], window)
  {
    assert rows[..i+1][..i] == rows[..i];
  }

  lemma NotEarlier(records: seq<Record>, i: nat)
    requires Distinct(records) && i < |records|
    ensures forall j | i <= j < |records| :: records[j] !in records[..i]
    ensures records[..i+1] == records[..i] + [records[i]]
  {
  }

  lemma OrphanFields(r: Record)
    ensures IsOrphanPlan(r.View()) <==> r.triggerEventId == "" && r.driftKind != "" && r.outcome.PlanRevised?
  {
  }

  /** What is shown for a session: the timeline, and with a legacy window its orphan plan rows
      folded. */
  ghost function Shown(rows: seq<Row>, plans: seq<Plan>, legacyWindow: int): seq<Row> {
    if legacyWindow > 0 then FoldOrphans(Timeline(rows, plans, legacyWindow), legacyWindow)
    else Timeline(rows, plans, 0)
  }

  /** All passes in turn. */
  method ListInterventions(projected: seq<Record>, plans: seq<Plan>, legacyWindow: int) returns (shown: seq<Record>)
    requires Distinct(projected)
    modifies set r | r in projected
    ensures Views(shown) == Shown(old(Views(projected)), plans, legacyWindow)
  {
    hide *;
    var window := if legacyWindow > 0 then legacyWindow else 0;
    ViewsSort(projected);
    SortedRecords(projected);
    var records := StableSort(EarlierRecord, projected);
    assert forall r | r in records :: r in projected;
    AttributeOutcomes(records, plans, window);
    records := CollapseByConditionId(records);
    records := MergeByTriggerEventId(records);
    if window > 0 {
      records := FoldOrphanRecords(records, window);
    }
    shown := records;
    TimelineIs(old(Views(projected)), plans, window);
    ShownIs(old(Views(projected)), plans, legacyWindow);
  }

  lemma TimelineIs(rows: seq<Row>, plans: seq<Plan>, window: int)
    ensures Timeline(rows, plans, window) == Merge(Collapse(Attributed(rows, plans, window)))
    ensures Attributed(rows, plans, window) ==
            Attribute(StableSort(Earlier, rows), StableSort(PlanEarlier, plans), window)
  {
  }

  lemma ShownIs(rows: seq<Row>, plans: seq<Plan>, legacyWindow: int)
    ensures Shown(rows, plans, legacyWindow) ==
      if legacyWindow > 0 then FoldOrphans(Timeline(rows, plans, legacyWindow), legacyWindow)
      else Timeline(rows, plans, 0)
  {
  }

  /** What is shown is in time order, whatever the window. */
  lemma ShownInOrder(rows: seq<Row>, plans: seq<Plan>, legacyWindow: int)
    requires Projected(rows) && UnsharedTriggers(rows)
    ensures Sorted(Earlier, Shown(rows, plans, legacyWindow))
  {
    hide *;
    ShownIs(rows, plans, legacyWindow);
    var window := if legacyWindow > 0 then legacyWindow else 0;
    TimelineIsSettled(rows, plans, window);
    FoldStaysInOrder(Timeline(rows, plans, window), window);
  }

  /** Every condition is shown by exactly one row, whatever the window: the row the timeline
      has for it, filled in. */
  lemma ConditionShownOnce(rows: seq<Row>, plans: seq<Plan>, legacyWindow: int, c: string) returns (i: nat, m: Row)
    requires Projected(rows) && UnsharedTriggers(rows) && exists d :: d in rows && d.conditionId == c != ""
    ensures i < |Shown(rows, plans, legacyWindow)| && Carries(rows, c, Shown(rows, plans, legacyWindow)[i])
    ensures forall j | 0 <= j < |Shown(rows, plans, legacyWindow)| && j != i ::
              !Carries(rows, c, Shown(rows, plans, legacyWindow)[j])
    ensures m in Timeline(rows, plans, if legacyWindow > 0 then legacyWindow else 0)
    ensures Carries(rows, c, m) && Grown(m, Shown(rows, plans, legacyWindow)[i])
  {
    hide *;
    var window := if legacyWindow > 0 then legacyWindow else 0;
    var a := Attributed(rows, plans, window);
    AttributedProjected(rows, plans, window);
    ConditionAttributed(rows, plans, window, c);
    SameCarries(a, rows, c);
    TimelineIs(rows, plans, window);
    var n := ConditionMergedOnce(a, c);
    var t := Timeline(rows, plans, window);
    m := t[n];
    ShownIs(rows, plans, legacyWindow);
    if legacyWindow > 0 {
      var at := FoldKeepsOthers(t, window);
      i := OneStillCarries(rows, c, t, FoldOrphans(t, window), at, n);
    } else {
      i := n;
      GrownSelf(m);
    }
  }

  lemma ConditionAttributed(rows: seq<Row>, plans: seq<Plan>, window: int, c: string)
    requires Projected(rows) && UnsharedTriggers(rows) && exists d :: d in rows && d.conditionId == c != ""
    ensures c in KeysOf(ByCondition, Attributed(rows, plans, window))
    ensures Triggers(Attributed(rows, plans, window), c) == Triggers(rows, c)
  {
    hide AttributeRow, Triggers, Projected, UnsharedTriggers, KeysOf, Attribute;
    AttributedProjected(rows, plans, window);
    AttributedRows(rows, plans, window);
    var d :| d in rows && d.conditionId == c != "";
    AttributeKeeps(d, StableSort(PlanEarlier, plans), window);
    HasKey(Attributed(rows, plans, window), AttributeRow(d, StableSort(PlanEarlier, plans), window));
  }

  /** A row that carries a condition's trigger is no orphan, so it survives, and alone. */
  lemma OneStillCarries(rows: seq<Row>, c: string, t: seq<Row>, out: seq<Row>, at: seq<nat>, n: nat) returns (i: nat)
    requires Survives(out, t, at) && Projected(rows)
    requires n < |t| && Carries(rows, c, t[n]) && c != ""
    requires forall j | 0 <= j < |t| && j != n :: !Carries(rows, c, t[j])
    ensures i < |out| && Carries(rows, c, out[i]) && Grown(t[n], out[i])
    ensures forall j | 0 <= j < |out| && j != i :: !Carries(rows, c, out[j])
  {
    hide Triggers, Projected;
    CarrierHasTrigger(rows, c, t[n]);
    i :| 0 <= i < |at| && at[i] == n;
    forall j | 0 <= j < |out| && j != i ensures !Carries(rows, c, out[j]) {
      assert Grown(t[at[j]], out[j]) && at[j] != n;
    }
  }

  lemma CarrierHasTrigger(rows: seq<Row>, c: string, m: Row)
    requires Projected(rows) && Carries(rows, c, m) && c != ""
    ensures m.triggerEventId != ""
  {
  }

  /** A refine shows on its condition: when any observation of a condition, however early, is
      named by a plan revision, the one row shown for the condition has an outcome. */
  lemma RefinedConditionHasOutcome(rows: seq<Row>, plans: seq<Plan>, legacyWindow: int, d: Row, p: Plan)
    returns (i: nat)
    requires Projected(rows) && UnsharedTriggers(rows)
    requires d in rows && d.conditionId != "" && WantsOutcome(d) && p in plans && Revises(p, d.triggerEventId)
    ensures i < |Shown(rows, plans, legacyWindow)| && Carries(rows, d.conditionId, Shown(rows, plans, legacyWindow)[i])
    ensures Shown(rows, plans, legacyWindow)[i].outcome.Attributed()
    ensures forall j | 0 <= j < |Shown(rows, plans, legacyWindow)| && j != i ::
              !Carries(rows, d.conditionId, Shown(rows, plans, legacyWindow)[j])
  {
    hide *;
    var window := if legacyWindow > 0 then legacyWindow else 0;
    var a, m := Attributed(rows, plans, window), d;
    i, m := ConditionShownOnce(rows, plans, legacyWindow, d.conditionId);
    AttributedProjected(rows, plans, window);
    ConditionAttributed(rows, plans, window, d.conditionId);
    SameCarries(a, rows, d.conditionId);
    var d' := OutcomeFound(rows, plans, window, d, p);
    TimelineIs(rows, plans, window);
    OutcomeReachesRow(a, d', m);
    GrownOutcome(m, Shown(rows, plans, legacyWindow)[i]);
  }

  lemma GrownOutcome(a: Row, b: Row)
    requires Grown(a, b) && a.outcome.Attributed()
    ensures b.outcome.Attributed()
  {
  }
}
