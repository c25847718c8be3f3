/** Field by field: which row of a group stands for it, where each field of that row comes
    from, and under which key a row is grouped. The laws name only fields of the given rows. */
module InterventionFields {
  import opened Common
  import opened Sorting
  import opened Interventions
  import opened InterventionLaws

  /** Position `j` holds the first row with a property. */
  ghost predicate FirstWith(g: seq<Row>, has: Row -> bool, j: nat) {
    j < |g| && has(g[j]) && forall k | 0 <= k < j :: !has(g[k])
  }

  /** Row `j` gives a field: the row that stands for the group when it has it, else the first
      that has it. */
  ghost predicate Gives(g: seq<Row>, own: nat, has: Row -> bool, j: nat)
    requires own < |g|
  {
    if has(g[own]) then j == own else FirstWith(g, has, j)
  }

  predicate HasSeverity(r: Row) {
    r.severity != ""
  }

  predicate HasRevision(r: Row) {
    r.planRevisionIndex != 0
  }

  predicate HasKind(r: Row) {
    r.driftKind != ""
  }

  predicate HasAnnotation(r: Row) {
    r.annotationId != ""
  }

  /** An outcome that says more than "recorded". */
  predicate HasOutcome(r: Row) {
    r.outcome != Unset && r.outcome != Recorded
  }

  // ---- The survivor of a merge --------------------------------------------------------------

  /** The operator's annotation stands for the group, else the first drift of a condition, else
      the first drift no plan answers yet, else the earliest row. */
  lemma SurvivorRule(g: seq<Row>)
    requires g != []
    ensures var annotation := (r: Row) => r.source == "user" && r.driftKind == "";
            var bearer := (r: Row) => r.driftKind != "" && (r.count > 1 || r.conditionId != "");
            var plain := (r: Row) => r.driftKind != "" && r.planRevisionIndex == 0;
            if exists r :: r in g && annotation(r) then FirstWith(g, annotation, SurvivorIndex(g))
            else if exists r :: r in g && bearer(r) then FirstWith(g, bearer, SurvivorIndex(g))
            else if exists r :: r in g && plain(r) then FirstWith(g, plain, SurvivorIndex(g))
            else SurvivorIndex(g) == 0
  {
    IndexFinds(IsAnnotation, g);
    IndexFinds(BearsCondition, g);
    IndexFinds(IsPlainDrift, g);
  }

  lemma IndexFinds(p: Row -> bool, g: seq<Row>)
    ensures IndexOf(p, g) < |g| <==> exists r :: r in g && p(r)
  {
    if r :| r in g && p(r) {
      var j :| 0 <= j < |g| && g[j] == r;
    }
  }

  /** The first value of a field that is set. */
  function Lead<T(==)>(f: Row -> T, none: T, rows: seq<Row>): T {
    if rows == [] then none
    else
      var v := Lead(f, none, rows[..|rows|-1]);
      if v != none then v else f(rows[|rows|-1])
  }

  lemma {:induction false} LeadIs<T>(f: Row -> T, none: T, rows: seq<Row>)
    ensures forall j: nat | j < |rows| && f(rows[j]) != none && (forall k | 0 <= k < j :: f(rows[k]) == none) ::
              Lead(f, none, rows) == f(rows[j])
    ensures Lead(f, none, rows) == none <==> forall r | r in rows :: f(r) == none
  {
    if rows != [] {
      var t := rows[..|rows|-1];
      assert rows == t + [rows[|rows|-1]];
      LeadIs(f, none, t);
      forall j: nat | j < |rows| && f(rows[j]) != none && (forall k | 0 <= k < j :: f(rows[k]) == none)
        ensures Lead(f, none, rows) == f(rows[j])
      {
        if j < |t| { assert t[j] == rows[j] && forall k | 0 <= k < j :: t[k] == rows[k]; }
      }
    }
  }

  lemma {:induction false} LeadConcat<T>(f: Row -> T, none: T, a: seq<Row>, b: seq<Row>)
    ensures Lead(f, none, a + b) == if Lead(f, none, a) != none then Lead(f, none, a) else Lead(f, none, b)
  {
    if b == [] {
      assert a + b == a;
    } else {
      assert (a + b)[..|a + b|-1] == a + b[..|b|-1];
      LeadConcat(f, none, a, b[..|b|-1]);
    }
  }

  /** A row without the field does not matter. */
  lemma LeadWithout<T>(f: Row -> T, none: T, g: seq<Row>, i: nat)
    requires i < |g| && f(g[i]) == none
    ensures Lead(f, none, g[..i] + g[i+1..]) == Lead(f, none, g)
  {
    assert g == g[..i] + ([g[i]] + g[i+1..]);
    LeadConcat(f, none, g[..i], g[i+1..]);
    LeadConcat(f, none, g[..i], [g[i]] + g[i+1..]);
    LeadConcat(f, none, [g[i]], g[i+1..]);
  }

  lemma {:induction false} AbsorbColumn<T>(f: Row -> T, none: T, s: Row, others: seq<Row>)
    requires forall a, b :: f(Absorb(a, b)) == if f(a) != none then f(a) else f(b)
    ensures f(AbsorbAll(s, others)) == if f(s) != none then f(s) else Lead(f, none, others)
  {
    if others != [] { AbsorbColumn(f, none, s, others[..|others|-1]); }
  }

  /** Row `j` has the value of a field that the group shows. */
  ghost predicate Shown<T>(f: Row -> T, none: T, g: seq<Row>, own: nat, j: nat)
    requires own < |g|
  {
    && j < |g| && f(g[j]) != none
    && if f(g[own]) != none then j == own else forall k | 0 <= k < j :: f(g[k]) == none
  }

  /** A field the survivor may take from the others is its own when set, else the first that
      is set, and unset only when it is in every row. */
  lemma MergedColumn<T>(f: Row -> T, none: T, g: seq<Row>)
    requires g != []
    requires forall a, b :: f(Absorb(a, b)) == if f(a) != none then f(a) else f(b)
    ensures forall j: nat | Shown(f, none, g, SurvivorIndex(g), j) :: f(MergeGroup(g)) == f(g[j])
    ensures f(MergeGroup(g)) == none <==> forall r | r in g :: f(r) == none
  {
    hide Lead, SurvivorIndex, AbsorbAll;
    var i := SurvivorIndex(g);
    AbsorbColumn(f, none, g[i], g[..i] + g[i+1..]);
    if f(g[i]) == none { LeadWithout(f, none, g, i); }
    LeadIs(f, none, g);
    assert g[i] in g;
  }

  function Earned(r: Row): Outcome {
    if r.outcome.Attributed() then r.outcome else Unset
  }

  lemma MergedEarned(g: seq<Row>)
    requires g != []
    ensures forall j: nat | Gives(g, SurvivorIndex(g), HasOutcome, j) ::
              MergeGroup(g).outcome == g[j].outcome
    ensures (forall r | r in g :: r.outcome == Unset || r.outcome == Recorded) ==>
              MergeGroup(g).outcome == if exists r :: r in g && r.outcome == Recorded then Recorded else Unset
  {
    MergedColumn(Earned, Unset, g);
    var any := (r: Row) => !r.outcome.Unset?;
    MergedColumn(any, false, g);
    var i := SurvivorIndex(g);
    forall j: nat | Gives(g, i, HasOutcome, j)
      ensures MergeGroup(g).outcome == g[j].outcome
    {
      assert Shown(Earned, Unset, g, i, j);
    }
  }

  lemma MergedSeverity(g: seq<Row>)
    requires g != []
    ensures forall j: nat | Gives(g, SurvivorIndex(g), HasSeverity, j) ::
              MergeGroup(g).severity == g[j].severity
    ensures MergeGroup(g).severity == "" <==> forall r | r in g :: r.severity == ""
  {
    var f := (r: Row) => r.severity;
    MergedColumn(f, "", g);
    forall j: nat | Gives(g, SurvivorIndex(g), HasSeverity, j)
      ensures MergeGroup(g).severity == g[j].severity
    {
      assert Shown(f, "", g, SurvivorIndex(g), j);
    }
  }

  lemma MergedRevision(g: seq<Row>)
    requires g != []
    ensures forall j: nat | Gives(g, SurvivorIndex(g), HasRevision, j) ::
              MergeGroup(g).planRevisionIndex == g[j].planRevisionIndex
    ensures MergeGroup(g).planRevisionIndex == 0 <==> forall r | r in g :: r.planRevisionIndex == 0
  {
    var f := (r: Row) => r.planRevisionIndex;
    MergedColumn(f, 0, g);
    forall j: nat | Gives(g, SurvivorIndex(g), HasRevision, j)
      ensures MergeGroup(g).planRevisionIndex == g[j].planRevisionIndex
    {
      assert Shown(f, 0, g, SurvivorIndex(g), j);
    }
  }

  lemma MergedKind(g: seq<Row>)
    requires g != []
    ensures forall j: nat | Gives(g, SurvivorIndex(g), HasKind, j) ::
              MergeGroup(g).driftKind == g[j].driftKind
    ensures MergeGroup(g).driftKind == "" <==> forall r | r in g :: r.driftKind == ""
  {
    var f := (r: Row) => r.driftKind;
    MergedColumn(f, "", g);
    forall j: nat | Gives(g, SurvivorIndex(g), HasKind, j)
      ensures MergeGroup(g).driftKind == g[j].driftKind
    {
      assert Shown(f, "", g, SurvivorIndex(g), j);
    }
  }

  lemma MergedAnnotation(g: seq<Row>)
    requires g != []
    ensures forall j: nat | Gives(g, SurvivorIndex(g), HasAnnotation, j) ::
              MergeGroup(g).annotationId == g[j].annotationId
    ensures MergeGroup(g).annotationId == "" <==> forall r | r in g :: r.annotationId == ""
  {
    var f := (r: Row) => r.annotationId;
    MergedColumn(f, "", g);
    forall j: nat | Gives(g, SurvivorIndex(g), HasAnnotation, j)
      ensures MergeGroup(g).annotationId == g[j].annotationId
    {
      assert Shown(f, "", g, SurvivorIndex(g), j);
    }
  }

  lemma {:induction false} AbsorbLeavesRest(s: Row, others: seq<Row>)
    ensures var m := AbsorbAll(s, others);
            m == s.(outcome := m.outcome, planRevisionIndex := m.planRevisionIndex, severity := m.severity,
                    driftKind := m.driftKind, annotationId := m.annotationId)
  {
    if others != [] { AbsorbLeavesRest(s, others[..|others|-1]); }
  }

  lemma MergedRest(g: seq<Row>)
    requires g != []
    ensures var own, m := SurvivorIndex(g), MergeGroup(g);
            m == g[own].(outcome := m.outcome, planRevisionIndex := m.planRevisionIndex, severity := m.severity,
                         driftKind := m.driftKind, annotationId := m.annotationId)
  {
    var i := SurvivorIndex(g);
    AbsorbLeavesRest(g[i], g[..i] + g[i+1..]);
  }

  /** Where each field of a merged row comes from. A severity, a plan revision, a drift kind
      and an annotation id is the survivor's own when it has one, else that of the first row
      of the group that has, and empty only when it is in every row. An outcome is the
      survivor's own when it says more than "recorded", else the first that does, else
      "recorded" when any row was. No other field changes. */
  lemma MergedFields(g: seq<Row>)
    requires g != []
    ensures var own, m := SurvivorIndex(g), MergeGroup(g);
            && (forall j: nat | Gives(g, own, HasSeverity, j) :: m.severity == g[j].severity)
            && (m.severity == "" <==> forall r | r in g :: r.severity == "")
            && (forall j: nat | Gives(g, own, HasRevision, j) ::
                  m.planRevisionIndex == g[j].planRevisionIndex)
            && (m.planRevisionIndex == 0 <==> forall r | r in g :: r.planRevisionIndex == 0)
            && (forall j: nat | Gives(g, own, HasKind, j) :: m.driftKind == g[j].driftKind)
            && (m.driftKind == "" <==> forall r | r in g :: r.driftKind == "")
            && (forall j: nat | Gives(g, own, HasAnnotation, j) :: m.annotationId == g[j].annotationId)
            && (m.annotationId == "" <==> forall r | r in g :: r.annotationId == "")
    ensures var own, m := SurvivorIndex(g), MergeGroup(g);
            && (forall j: nat | Gives(g, own, HasOutcome, j) ::
                  m.outcome == g[j].outcome)
            && ((forall r | r in g :: r.outcome == Unset || r.outcome == Recorded) ==>
                  m.outcome == if exists r :: r in g && r.outcome == Recorded then Recorded else Unset)
    ensures var own, m := SurvivorIndex(g), MergeGroup(g);
            m == g[own].(outcome := m.outcome, planRevisionIndex := m.planRevisionIndex, severity := m.severity,
                         driftKind := m.driftKind, annotationId := m.annotationId)
  {
    hide SurvivorIndex, MergeGroup;
    MergedSeverity(g);
    MergedRevision(g);
    MergedKind(g);
    MergedAnnotation(g);
    MergedEarned(g);
    MergedRest(g);
  }

  // ---- The key of a merge -----------------------------------------------------------------

  /** Rows that took in a trigger id. */
  function TookIn(x: string): Row -> bool {
    (r: Row) => r.triggerEventId != "" && x in r.absorbed
  }

  lemma {:induction false} AliasRule(records: seq<Row>, x: string)
    ensures x in AliasOf(records) <==> exists r :: r in records && r.triggerEventId != "" && x in r.absorbed
    ensures forall j: nat | FirstWith(records, TookIn(x), j) ::
              x in AliasOf(records) && AliasOf(records)[x] == records[j].triggerEventId
  {
    AliasMembers(records, x);
    if records != [] {
      var t := records[..|records|-1];
      AliasRule(t, x);
      forall j: nat | FirstWith(records, TookIn(x), j)
        ensures x in AliasOf(records) && AliasOf(records)[x] == records[j].triggerEventId
      {
        if j < |t| {
          assert FirstWith(t, TookIn(x), j);
        } else {
          assert forall r | r in t :: !TookIn(x)(r);
        }
      }
    }
  }

  /** A refine or transition row merges with nothing. Any other merges under the trigger of
      the first row that took its own trigger in, else under its own trigger. */
  lemma KeyRule(records: seq<Row>, r: Row)
    ensures var key := MergeKey(AliasOf(records))(r);
            if r.source == "refine" || r.source == "transition" then key == ""
            else if exists s :: s in records && s.triggerEventId != "" && r.triggerEventId in s.absorbed
            then forall j: nat | FirstWith(records, TookIn(r.triggerEventId), j) :: key == records[j].triggerEventId
            else key == r.triggerEventId
  {
    AliasRule(records, r.triggerEventId);
  }

  // ---- The order of the rows ----------------------------------------------------------------

  /** Groups come in the order in which their keys first appear. */
  lemma {:induction false} KeysInOrder(key: Row -> string, records: seq<Row>) returns (at: seq<nat>)
    ensures |at| == |KeysOf(key, records)|
    ensures forall i | 0 <= i < |at| :: at[i] < |records| && key(records[at[i]]) == KeysOf(key, records)[i]
    ensures forall i, j | 0 <= i < |at| && 0 <= j < at[i] :: key(records[j]) != KeysOf(key, records)[i]
    ensures forall i, j | 0 <= i < j < |at| :: at[i] < at[j]
  {
    if records == [] {
      at := [];
    } else {
      var t, x := records[..|records|-1], records[|records|-1];
      at := KeysInOrder(key, t);
      assert records == t + [x];
      if key(x) != "" && key(x) !in KeysOf(key, t) {
        NewestKey(key, t, key(x));
        at := at + [|t|];
      }
    }
  }

  lemma NewestKey(key: Row -> string, t: seq<Row>, k: string)
    requires k != "" && k !in KeysOf(key, t)
    ensures forall j | 0 <= j < |t| :: key(t[j]) != k
  {
    KeysAreKeys(key, t);
    forall j | 0 <= j < |t| ensures key(t[j]) != k {
      assert t[j] in t;
    }
  }

  /** Of rows at the same time, those that pass come first, in their order, then the rows of the
      groups, in the order of the groups. */
  lemma SameTimeOrder(key: Row -> string, reduce: seq<Row> -> Row, records: seq<Row>, t: int)
    requires KeysOf(key, records) != []
    ensures Filter(AtTime(t), Regroup(key, reduce, records)) ==
            Filter(AtTime(t), GroupOf(key, records, ""))
            + Filter(AtTime(t), Survivors(key, reduce, records, KeysOf(key, records)))
  {
    var pass, kept := GroupOf(key, records, ""), Survivors(key, reduce, records, KeysOf(key, records));
    TimeSlice(pass + kept, t);
    FilterConcat(AtTime(t), pass, kept);
  }

  // ---- The row of a condition --------------------------------------------------------------

  lemma {:induction false} FirstDonor(g: seq<Row>)
    ensures FirstAttributed(g).Some? <==> exists r :: r in g && HasOutcome(r)
    ensures forall j: nat | FirstWith(g, HasOutcome, j) :: FirstAttributed(g) == Some(g[j])
  {
    FirstAttributedFinds(g);
    if g != [] {
      var t := g[..|g|-1];
      FirstDonor(t);
      forall j: nat | FirstWith(g, HasOutcome, j) ensures FirstAttributed(g) == Some(g[j]) {
        if j < |t| {
          assert FirstWith(t, HasOutcome, j);
        } else {
          assert forall r | r in t :: !HasOutcome(r);
        }
      }
    }
  }

  lemma EarlyTriggers(g: seq<Row>)
    requires g != []
    ensures var early := g[..|g|-1];
            forall x :: x in TriggersOf(early) <==>
              x != "" && exists k :: 0 <= k < |g| - 1 && g[k].triggerEventId == x
  {
    var early := g[..|g|-1];
    forall x ensures x in TriggersOf(early) <==>
                     x != "" && exists k :: 0 <= k < |g| - 1 && g[k].triggerEventId == x
    {
      if k :| 0 <= k < |g| - 1 && g[k].triggerEventId == x {
        assert early[k] in early;
      }
      if x in TriggersOf(early) {
        var r :| r in early && r.triggerEventId == x;
        var k :| 0 <= k < |early| && early[k] == r;
        assert g[k].triggerEventId == x;
      }
    }
  }

  /** The latest observation stands for its condition with all its fields, except what tells
      the history, the trigger ids of the others, and an outcome it has not earned itself:
      that comes with its plan revision from the first observation that has one. */
  lemma CollapsedFields(g: seq<Row>)
    requires |g| > 1
    ensures var m, last := CollapseGroup(g), g[|g|-1];
            m == last.(count := |g|, firstSeen := g[0].at, lastSeen := last.at, prevSeverity := "",
                       observations := m.observations, transitions := m.transitions, absorbed := m.absorbed,
                       outcome := m.outcome, planRevisionIndex := m.planRevisionIndex)
    ensures var m, last := CollapseGroup(g), g[|g|-1];
            forall x :: x in m.absorbed <==>
              || x in last.absorbed
              || (x != "" && exists k :: 0 <= k < |g| - 1 && g[k].triggerEventId == x)
    ensures var m, last := CollapseGroup(g), g[|g|-1];
            && (HasOutcome(last) || !(exists r :: r in g && HasOutcome(r)) ==>
                  m.outcome == last.outcome && m.planRevisionIndex == last.planRevisionIndex)
            && (!HasOutcome(last) ==> forall j: nat | FirstWith(g, HasOutcome, j) ::
                  && m.outcome == g[j].outcome
                  && m.planRevisionIndex == if last.planRevisionIndex == 0 then g[j].planRevisionIndex
                                            else last.planRevisionIndex)
  {
    var m, last, early := CollapseGroup(g), g[|g|-1], g[..|g|-1];
    hide TriggersOf, FirstAttributed, Observed, Bumps;
    assert g == early + [last];
    FirstDonor(early);
    if !HasOutcome(last) {
      forall j: nat | FirstWith(g, HasOutcome, j) ensures FirstAttributed(early) == Some(g[j]) {
        assert FirstWith(early, HasOutcome, j);
      }
    }
    EarlyTriggers(g);
  }

  // ---- One card for a steering ---------------------------------------------------------------

  /** An operator's annotation and the drift it caused are one card: it is the annotation, with
      the drift's severity, kind, outcome and plan revision. */
  lemma SteeringIsOneCard(annotation: Row, drift: Row)
    requires annotation.source == "user" && annotation.driftKind == "" && annotation.severity == ""
    requires annotation.outcome == Unset && annotation.planRevisionIndex == 0
    requires drift.source == "user" && drift.driftKind != ""
    requires annotation.triggerEventId == drift.triggerEventId != ""
    requires annotation.absorbed == {} && drift.absorbed == {}
    requires annotation.at <= drift.at
    ensures Merge([annotation, drift]) ==
            [annotation.(severity := drift.severity, driftKind := drift.driftKind, outcome := drift.outcome,
                         planRevisionIndex := drift.planRevisionIndex,
                         annotationId := if annotation.annotationId != "" then annotation.annotationId
                                         else drift.annotationId)]
  {
    hide MergeGroup, MergeKey, AliasOf, Sorted;
    var g := [annotation, drift];
    var key, t := MergeKey(AliasOf(g)), drift.triggerEventId;
    KeyRule(g, annotation);
    KeyRule(g, drift);
    assert g == [annotation] + [drift] && [annotation] == [] + [annotation];
    KeysAppend(key, [], annotation);
    KeysAppend(key, [annotation], drift);
    FilterAll(Under(key, t), g);
    FilterNone(Under(key, ""), g);
    InOrder(annotation, drift);
    SortedIsFixed(Earlier, g);
    SurvivorsAppend(key, MergeGroup, g, [], t);
    assert [] + [t] == [t];
    InOrder(MergeGroup(g), MergeGroup(g));
    SortedIsFixed(Earlier, [MergeGroup(g)]);
    assert [] + [MergeGroup(g)] == [MergeGroup(g)];
    SteeringGroup(annotation, drift);
  }

  lemma InOrder(a: Row, b: Row)
    requires a.at <= b.at
    ensures Sorted(Earlier, [a, b]) && Sorted(Earlier, [a])
  {
  }

  lemma SteeringGroup(annotation: Row, drift: Row)
    requires annotation.source == "user" && annotation.driftKind == "" && annotation.severity == ""
    requires annotation.outcome == Unset && annotation.planRevisionIndex == 0
    requires drift.driftKind != ""
    ensures MergeGroup([annotation, drift]) ==
            annotation.(severity := drift.severity, driftKind := drift.driftKind, outcome := drift.outcome,
                        planRevisionIndex := drift.planRevisionIndex,
                        annotationId := if annotation.annotationId != "" then annotation.annotationId
                                        else drift.annotationId)
  {
    var g := [annotation, drift];
    SurvivorRule(g);
    assert g[0] in g && g[1] in g;
    assert SurvivorIndex(g) == 0;
    assert g[..0] + g[1..] == [drift];
    assert [drift][..0] == [];
    assert AbsorbAll(annotation, [drift]) == Absorb(AbsorbAll(annotation, []), drift);
  }
}
