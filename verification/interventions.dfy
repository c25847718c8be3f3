/** The grouping passes of the intervention timeline: collapse of drift rows by condition
    and strict-id merge by trigger (server/harmonograf_server/interventions.py), as
    functions on rows. `intervention_passes.dfy` holds the passes that update records. */
module Interventions {
  import opened Common
  import opened Sorting

  /** `outcome` strings by kind; only these distinctions matter to the passes. */
  datatype Outcome = Unset | Recorded | PlanRevised(rev: int) | CascadeCancel(tasks: nat) | Lane(text: string)
  {
    /** The row has an outcome worth keeping. */
    predicate Attributed() { !Unset? && !Recorded? }
  }

  datatype SeverityTransition = SeverityTransition(frm: string, to: string, at: int)
  datatype DriftObservation = DriftObservation(at: int, severity: string, lifecycle: string, detail: string,
                                               driftId: string, prevSeverity: string)

  /** One intervention row. Times are whole units of the wall clock. */
  datatype Row = Row(
    key: string, at: int, source: string, detail: string,
    outcome: Outcome, planRevisionIndex: int, severity: string, annotationId: string,
    driftKind: string, triggerEventId: string, driftId: string,
    conditionId: string, lifecycle: string, prevSeverity: string,
    count: nat, firstSeen: int, lastSeen: int,
    transitions: seq<SeverityTransition>, observations: seq<DriftObservation>,
    absorbed: set<string>)

  predicate Earlier(a: Row, b: Row) {
    a.at <= b.at
  }

  lemma EarlierIsOrder(s: seq<Row>)
    ensures OrderOn(Earlier, s)
  {
  }

  // ---- Grouping by a key, one survivor a group ------------------------------------------

  /** Rows whose key is empty are left alone. */
  function Under(key: Row -> string, k: string): Row -> bool {
    r => key(r) == k
  }

  /** The keys in the order a dict meets them. */
  function KeysOf(key: Row -> string, records: seq<Row>): seq<string> {
    if records == [] then []
    else
      var ks, k := KeysOf(key, records[..|records|-1]), key(records[|records|-1]);
      if k == "" || k in ks then ks else ks + [k]
  }

  function GroupOf(key: Row -> string, records: seq<Row>, k: string): seq<Row> {
    Filter(Under(key, k), records)
  }

  function Survivors(key: Row -> string, reduce: seq<Row> -> Row, records: seq<Row>, ks: seq<string>): seq<Row> {
    if ks == [] then []
    else Survivors(key, reduce, records, ks[..|ks|-1]) +
         [reduce(StableSort(Earlier, GroupOf(key, records, ks[|ks|-1])))]
  }

  /** The shape of both passes: rows without a key pass through, each group is put in time
      order and reduced to one row, and the result is put in time order. */
  function Regroup(key: Row -> string, reduce: seq<Row> -> Row, records: seq<Row>): seq<Row> {
    var ks := KeysOf(key, records);
    if ks == [] then records
    else StableSort(Earlier, GroupOf(key, records, "") + Survivors(key, reduce, records, ks))
  }

  lemma {:induction false} KeysAreKeys(key: Row -> string, records: seq<Row>)
    ensures forall k :: k in KeysOf(key, records) <==> k != "" && exists r :: r in records && key(r) == k
    ensures forall i, j | 0 <= i < j < |KeysOf(key, records)| :: KeysOf(key, records)[i] != KeysOf(key, records)[j]
  {
    if records != [] {
      var t, x := records[..|records|-1], records[|records|-1];
      KeysAreKeys(key, t);
      assert records == t + [x];
      forall k ensures k in KeysOf(key, records) <==> k != "" && exists r :: r in records && key(r) == k {
        if k in KeysOf(key, t) {
          var r :| r in t && key(r) == k;
          assert r in records;
        }
        if r :| r in records && key(r) == k && k != "" {
          assert r in t || r == x;
        }
      }
    }
  }

  lemma GroupMembers(key: Row -> string, records: seq<Row>, k: string)
    ensures forall r :: r in GroupOf(key, records, k) <==> r in records && key(r) == k
  {
    FilterElements(Under(key, k), records);
  }

  lemma {:induction false} SurvivorAt(key: Row -> string, reduce: seq<Row> -> Row, records: seq<Row>,
                                      ks: seq<string>, i: nat)
    requires i < |ks|
    ensures |Survivors(key, reduce, records, ks)| == |ks|
    ensures Survivors(key, reduce, records, ks)[i] == reduce(StableSort(Earlier, GroupOf(key, records, ks[i])))
  {
    if |ks| > 1 {
      SurvivorAt(key, reduce, records, ks[..|ks|-1], if i < |ks| - 1 then i else 0);
    }
  }

  lemma KeyedIsKey(key: Row -> string, records: seq<Row>, r: Row)
    requires r in records && key(r) != ""
    ensures key(r) in KeysOf(key, records)
  {
    KeysAreKeys(key, records);
  }

  lemma SurvivorMembers(key: Row -> string, reduce: seq<Row> -> Row, records: seq<Row>, ks: seq<string>, m: Row)
    ensures m in Survivors(key, reduce, records, ks) <==>
            exists k :: k in ks && m == reduce(StableSort(Earlier, GroupOf(key, records, k)))
  {
    var kept := Survivors(key, reduce, records, ks);
    if ks != [] { SurvivorAt(key, reduce, records, ks, 0); }
    if m in kept {
      var i :| 0 <= i < |kept| && kept[i] == m;
      SurvivorAt(key, reduce, records, ks, i);
      assert ks[i] in ks;
    }
    if k :| k in ks && m == reduce(StableSort(Earlier, GroupOf(key, records, k))) {
      var i :| 0 <= i < |ks| && ks[i] == k;
      SurvivorAt(key, reduce, records, ks, i);
      assert kept[i] in kept;
    }
  }

  /** Every row of the result is a row without a key or the survivor of one group. */
  lemma RegroupMembers(key: Row -> string, reduce: seq<Row> -> Row, records: seq<Row>, m: Row)
    ensures m in Regroup(key, reduce, records) <==>
            || (m in records && key(m) == "")
            || (exists k :: k in KeysOf(key, records) && m == reduce(StableSort(Earlier, GroupOf(key, records, k))))
  {
    var ks := KeysOf(key, records);
    var pass, kept := GroupOf(key, records, ""), Survivors(key, reduce, records, ks);
    GroupMembers(key, records, "");
    SurvivorMembers(key, reduce, records, ks, m);
    if ks == [] {
      if m in records && key(m) != "" { KeyedIsKey(key, records, m); }
    } else {
      EarlierIsOrder(pass + kept);
      StableSortSorts(Earlier, pass + kept);
      assert m in multiset(pass + kept) <==> m in pass || m in kept;
      assert m in multiset(StableSort(Earlier, pass + kept)) <==> m in StableSort(Earlier, pass + kept);
    }
  }

  /** Exactly one row per key, besides the rows without one. */
  lemma RegroupSize(key: Row -> string, reduce: seq<Row> -> Row, records: seq<Row>)
    ensures |Regroup(key, reduce, records)| == |GroupOf(key, records, "")| + |KeysOf(key, records)|
  {
    var ks := KeysOf(key, records);
    KeysAreKeys(key, records);
    if ks == [] {
      forall r | r in records ensures key(r) == "" {
        if key(r) != "" { KeyedIsKey(key, records, r); }
      }
      AllPass(key, records);
    } else {
      var pass, kept := GroupOf(key, records, ""), Survivors(key, reduce, records, ks);
      SurvivorAt(key, reduce, records, ks, 0);
      EarlierIsOrder(pass + kept);
      StableSortSorts(Earlier, pass + kept);
    }
  }

  lemma {:induction false} AllPass(key: Row -> string, records: seq<Row>)
    requires forall r | r in records :: key(r) == ""
    ensures GroupOf(key, records, "") == records
  {
    if records != [] {
      var t := records[..|records|-1];
      assert records == t + [records[|records|-1]];
      AllPass(key, t);
    }
  }

  lemma RegroupSorted(key: Row -> string, reduce: seq<Row> -> Row, records: seq<Row>)
    requires Sorted(Earlier, records)
    ensures Sorted(Earlier, Regroup(key, reduce, records))
  {
    var all := GroupOf(key, records, "") + Survivors(key, reduce, records, KeysOf(key, records));
    EarlierIsOrder(all);
    StableSortSorts(Earlier, all);
  }

  // ---- Collapse by condition --------------------------------------------------------------

  function ByCondition(r: Row): string {
    r.conditionId
  }

  predicate IsBump(r: Row) {
    r.prevSeverity != "" && r.severity != "" && r.prevSeverity != r.severity
  }

  function TransitionOf(r: Row): SeverityTransition {
    SeverityTransition(r.prevSeverity, r.severity, r.at)
  }

  /** The severity changes of a group, in its order. */
  function Bumps(g: seq<Row>): seq<SeverityTransition> {
    if g == [] then []
    else
      var r := g[|g|-1];
      Bumps(g[..|g|-1]) + if IsBump(r) then [TransitionOf(r)] else []
  }

  function Observation(r: Row): DriftObservation {
    DriftObservation(r.at, r.severity, r.lifecycle, r.detail, r.driftId, r.prevSeverity)
  }

  function Observed(g: seq<Row>): (o: seq<DriftObservation>)
    ensures |o| == |g| && forall i | 0 <= i < |g| :: o[i] == Observation(g[i])
  {
    if g == [] then [] else Observed(g[..|g|-1]) + [Observation(g[|g|-1])]
  }

  function FirstAttributed(g: seq<Row>): Option<Row> {
    if g == [] then None
    else
      var d := FirstAttributed(g[..|g|-1]);
      if d.Some? then d else if g[|g|-1].outcome.Attributed() then Some(g[|g|-1]) else None
  }

  /** An outcome another row of the group has earned. */
  function Donate(survivor: Row, donor: Option<Row>): Row {
    if survivor.outcome.Attributed() || donor.None? then survivor
    else survivor.(outcome := donor.value.outcome,
                   planRevisionIndex := if survivor.planRevisionIndex == 0 then donor.value.planRevisionIndex
                                        else survivor.planRevisionIndex)
  }

  function TriggersOf(g: seq<Row>): set<string> {
    set r | r in g && r.triggerEventId != "" :: r.triggerEventId
  }

  /** A group of the pass is never empty. */
  const NO_ROW := Row("", 0, "", "", Unset, 0, "", "", "", "", "", "", "", "", 0, 0, 0, [], [], {})

  /** The latest observation stands for the condition and carries the history of all. */
  function CollapseGroup(g: seq<Row>): Row {
    if g == [] then NO_ROW
    else if |g| == 1 then g[0]
    else
      var early := g[..|g|-1];
      Donate(g[|g|-1], FirstAttributed(early)).(
        count := |g|, firstSeen := g[0].at, lastSeen := g[|g|-1].at,
        observations := Observed(g), prevSeverity := "", transitions := Bumps(g),
        absorbed := g[|g|-1].absorbed + TriggersOf(early))
  }

  function Collapse(records: seq<Row>): seq<Row> {
    Regroup(ByCondition, CollapseGroup, records)
  }

  // ---- Merge by trigger ---------------------------------------------------------------------

  /** Absorbed trigger ids lead to the trigger of the row that absorbed them; the first
      writer wins. */
  function AliasOf(records: seq<Row>): map<string, string> {
    if records == [] then map[]
    else
      var a, r := AliasOf(records[..|records|-1]), records[|records|-1];
      if r.triggerEventId == "" then a
      else map k | k in a.Keys + r.absorbed :: if k in a then a[k] else r.triggerEventId
  }

  predicate Standalone(r: Row) {
    r.source == "refine" || r.source == "transition"
  }

  function MergeKey(alias: map<string, string>): Row -> string {
    r => if Standalone(r) then ""
         else if r.triggerEventId in alias then alias[r.triggerEventId] else r.triggerEventId
  }

  predicate IsAnnotation(r: Row) {
    r.source == "user" && r.driftKind == ""
  }

  predicate BearsCondition(r: Row) {
    r.driftKind != "" && (r.count > 1 || r.conditionId != "")
  }

  predicate IsPlainDrift(r: Row) {
    r.driftKind != "" && r.planRevisionIndex == 0
  }

  /** Position of the first row with a property, the length when there is none. */
  function IndexOf(p: Row -> bool, g: seq<Row>): (i: nat)
    ensures i <= |g| && (i < |g| ==> p(g[i]))
    ensures forall j | 0 <= j < i :: !p(g[j])
  {
    if g == [] then 0
    else
      var i := IndexOf(p, g[..|g|-1]);
      if i < |g| - 1 || p(g[|g|-1]) then i else |g|
  }

  /** The survivor: the annotation, else a condition-bearing drift, else a drift without a
      plan revision, else the earliest row. */
  function SurvivorIndex(g: seq<Row>): (i: nat)
    ensures g != [] ==> i < |g|
  {
    if IndexOf(IsAnnotation, g) < |g| then IndexOf(IsAnnotation, g)
    else if IndexOf(BearsCondition, g) < |g| then IndexOf(BearsCondition, g)
    else if IndexOf(IsPlainDrift, g) < |g| then IndexOf(IsPlainDrift, g)
    else 0
  }

  function Absorb(s: Row, o: Row): Row {
    s.(outcome := if o.outcome.Attributed() && !s.outcome.Attributed() then o.outcome
                  else if o.outcome.Recorded? && s.outcome.Unset? then o.outcome else s.outcome,
       planRevisionIndex := if s.planRevisionIndex == 0 then o.planRevisionIndex else s.planRevisionIndex,
       severity := if s.severity == "" then o.severity else s.severity,
       driftKind := if s.driftKind == "" then o.driftKind else s.driftKind,
       annotationId := if s.annotationId == "" then o.annotationId else s.annotationId)
  }

  function AbsorbAll(s: Row, others: seq<Row>): Row {
    if others == [] then s else Absorb(AbsorbAll(s, others[..|others|-1]), others[|others|-1])
  }

  function MergeGroup(g: seq<Row>): Row {
    if g == [] then NO_ROW
    else
      var i := SurvivorIndex(g);
      AbsorbAll(g[i], g[..i] + g[i+1..])
  }

  function Merge(records: seq<Row>): seq<Row> {
    Regroup(MergeKey(AliasOf(records)), MergeGroup, records)
  }
}
