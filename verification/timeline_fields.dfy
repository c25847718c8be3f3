/** Field by field: which outcome a row of the timeline is given, and onto which row the legacy
    pass folds an orphan plan row. The laws name only fields of the given rows and plans. */
module TimelineFields {
  import opened Common
  import opened Sorting
  import opened Interventions
  import opened InterventionLaws
  import opened InterventionTimeline

  /** The first plan of the list with a property is at position `i`. */
  ghost predicate FirstPlan(plans: seq<Plan>, has: Plan -> bool, i: nat) {
    i < |plans| && has(plans[i]) && forall j | 0 <= j < i :: !has(plans[j])
  }

  /** A revision that names the row's trigger. */
  ghost function Naming(r: Row): Plan -> bool {
    (p: Plan) => p.revisionIndex > 0 && p.triggerEventId == r.triggerEventId != ""
  }

  /** A revision of the row's kind, or of any kind for a row without one, at most a window later. */
  ghost function Fitting(r: Row, window: int): Plan -> bool {
    (p: Plan) => && r.at <= p.createdAt <= r.at + window && p.revisionIndex > 0 && p.revisionKind != ""
                 && (r.driftKind == "" || r.driftKind == p.revisionKind)
  }

  /** Of the plans created after `at`, plan `i` is the newest, and the first of those as new. */
  ghost predicate NewestAfter(plans: seq<Plan>, at: int, i: nat) {
    && i < |plans| && plans[i].createdAt > at
    && (forall j | 0 <= j < |plans| :: plans[j].createdAt <= plans[i].createdAt)
    && (forall j | 0 <= j < i :: plans[j].createdAt < plans[i].createdAt)
  }

  lemma {:induction false} FirstExists(plans: seq<Plan>, has: Plan -> bool)
    ensures (exists p :: p in plans && has(p)) ==> exists i: nat :: FirstPlan(plans, has, i)
  {
    if plans != [] {
      var t := plans[..|plans|-1];
      assert plans == t + [plans[|plans|-1]];
      FirstExists(t, has);
      if i: nat :| FirstPlan(t, has, i) {
        assert FirstPlan(plans, has, i);
      } else if has(plans[|t|]) {
        assert FirstPlan(plans, has, |t|);
      }
    }
  }

  lemma {:induction false} NewestExists(plans: seq<Plan>, at: int)
    ensures (exists p :: p in plans && p.createdAt > at) ==> exists i: nat :: NewestAfter(plans, at, i)
  {
    if plans != [] {
      var t, n := plans[..|plans|-1], |plans| - 1;
      assert plans == t + [plans[n]];
      NewestExists(t, at);
      if i: nat :| NewestAfter(t, at, i) {
        assert if plans[n].createdAt > plans[i].createdAt then NewestAfter(plans, at, n) else NewestAfter(plans, at, i);
      } else if plans[n].createdAt > at {
        assert forall p | p in t :: p.createdAt <= at;
        assert NewestAfter(plans, at, n);
      }
    }
  }

  lemma {:induction false} RevisionIsFirst(plans: seq<Plan>, r: Row)
    ensures forall i: nat | FirstPlan(plans, Naming(r), i) :: RevisionFor(plans, r.triggerEventId) == Some(plans[i])
    ensures (forall p | p in plans :: !Naming(r)(p)) <==> RevisionFor(plans, r.triggerEventId).None?
  {
    if plans != [] {
      var t := plans[..|plans|-1];
      assert plans == t + [plans[|plans|-1]];
      RevisionIsFirst(t, r);
      forall i: nat | FirstPlan(plans, Naming(r), i)
        ensures RevisionFor(plans, r.triggerEventId) == Some(plans[i])
      {
        if i < |t| {
          assert FirstPlan(t, Naming(r), i);
        } else {
          assert forall p | p in t :: !Naming(r)(p);
        }
      }
    }
  }

  lemma {:induction false} FittingIsFirst(plans: seq<Plan>, r: Row, window: int)
    ensures forall i: nat | FirstPlan(plans, Fitting(r, window), i) :: FirstInWindow(plans, r, window) == Some(plans[i])
    ensures (forall p | p in plans :: !Fitting(r, window)(p)) <==> FirstInWindow(plans, r, window).None?
  {
    if plans != [] {
      var t := plans[..|plans|-1];
      assert plans == t + [plans[|plans|-1]];
      FittingIsFirst(t, r, window);
      forall i: nat | FirstPlan(plans, Fitting(r, window), i)
        ensures FirstInWindow(plans, r, window) == Some(plans[i])
      {
        if i < |t| {
          assert FirstPlan(t, Fitting(r, window), i);
        } else {
          assert forall p | p in t :: !Fitting(r, window)(p);
        }
      }
    }
  }

  lemma {:induction false} LatestIsNewest(plans: seq<Plan>, at: int)
    ensures forall i: nat | NewestAfter(plans, at, i) :: LatestAfter(plans, at) == Some(plans[i])
    ensures LatestAfter(plans, at).None? <==> forall p | p in plans :: p.createdAt <= at
  {
    if plans != [] {
      var t, last := plans[..|plans|-1], plans[|plans|-1];
      assert plans == t + [last];
      LatestIsNewest(t, at);
      forall i: nat | NewestAfter(plans, at, i) ensures LatestAfter(plans, at) == Some(plans[i]) {
        if i < |t| {
          assert NewestAfter(t, at, i);
        } else {
          assert forall p | p in t :: p.createdAt < last.createdAt;
        }
      }
    }
  }

  /** What a row is given, from plans in the order of their creation: a drift or user row
      without an outcome gets the first revision that names its trigger, else the first that
      fits the legacy window, else the number of cancelled tasks of the newest plan after it
      when there are some, else "recorded". Nothing else of it changes, and no other row does. */
  lemma AttributionRule(r: Row, plans: seq<Plan>, window: int)
    ensures var a := AttributeRow(r, plans, window);
            var wants := (r.source == "drift" || r.source == "user") && r.outcome == Unset;
            var strict := exists p :: p in plans && Naming(r)(p);
            var legacy := window > 0 && exists p :: p in plans && Fitting(r, window)(p);
            && a == r.(outcome := a.outcome, planRevisionIndex := a.planRevisionIndex)
            && (!wants ==> a == r)
            && (wants && strict ==> exists i: nat ::
                  && FirstPlan(plans, Naming(r), i)
                  && a.outcome == PlanRevised(plans[i].revisionIndex)
                  && a.planRevisionIndex == plans[i].revisionIndex)
            && (wants && !strict && legacy ==> exists i: nat ::
                  && FirstPlan(plans, Fitting(r, window), i)
                  && a.outcome == PlanRevised(plans[i].revisionIndex)
                  && a.planRevisionIndex == plans[i].revisionIndex)
            && (wants && !strict && !legacy ==>
                  && a.planRevisionIndex == r.planRevisionIndex
                  && if forall p | p in plans :: p.createdAt <= r.at then a.outcome == Recorded
                     else exists i: nat :: NewestAfter(plans, r.at, i) && a.outcome ==
                            if plans[i].cancelled > 0 then CascadeCancel(plans[i].cancelled) else Recorded)
  {
    hide RevisionFor, FirstInWindow, LatestAfter, FirstPlan, NewestAfter, Naming, Fitting;
    RevisionIsFirst(plans, r);
    FittingIsFirst(plans, r, window);
    LatestIsNewest(plans, r.at);
    FirstExists(plans, Naming(r));
    FirstExists(plans, Fitting(r, window));
    NewestExists(plans, r.at);
  }

  // ---- The legacy fold ---------------------------------------------------------------------

  /** The row is a user or drift row of the plan row's kind, at most a window before it. */
  ghost predicate InReach(k: Row, r: Row, window: int) {
    (k.source == "user" || k.source == "drift") && k.driftKind == r.driftKind && k.at <= r.at <= k.at + window
  }

  ghost predicate LastInReach(kept: seq<Row>, r: Row, window: int, i: nat) {
    i < |kept| && InReach(kept[i], r, window) && forall j | i < j < |kept| :: !InReach(kept[j], r, window)
  }

  /** A plan row of a drift that names no trigger is folded onto the last row in its reach: that
      row takes its outcome unless it has earned one, and its revision and its severity when it
      has none. Any other row, and a plan row with nothing in reach, is kept as it is. */
  lemma FoldRule(kept: seq<Row>, r: Row, window: int)
    requires Sorted(Earlier, kept)
    ensures var orphan := r.triggerEventId == "" && r.driftKind != "" && r.outcome.PlanRevised?;
            && (forall i: nat | orphan && LastInReach(kept, r, window, i) ::
                  var k := kept[i];
                  FoldOne(kept, r, window) == kept[i := k.(
                    outcome := if k.outcome == Unset || k.outcome == Recorded then r.outcome else k.outcome,
                    planRevisionIndex := if k.planRevisionIndex == 0 then r.planRevisionIndex else k.planRevisionIndex,
                    severity := if k.severity == "" then r.severity else k.severity)])
            && (!orphan || (forall k | k in kept :: !InReach(k, r, window)) ==> FoldOne(kept, r, window) == kept + [r])
  {
    hide Sorted, TargetBefore;
    TargetIsLatest(kept, r, window);
    forall i: nat | LastInReach(kept, r, window, i) ensures TargetBefore(kept, |kept|, r, window) == Some(i) {
      assert InWindowLane(kept, i, r, window) && forall j | i < j < |kept| :: !InWindowLane(kept, j, r, window);
    }
    if forall k | k in kept :: !InReach(k, r, window) {
      forall j | 0 <= j < |kept| ensures !InWindowLane(kept, j, r, window) {
        assert kept[j] in kept;
      }
    }
  }
}
