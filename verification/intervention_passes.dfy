/** The intervention passes on records that are updated in place
    (server/harmonograf_server/interventions.py). Each method is proved to leave the rows
    that the functions of `Interventions` describe. */
module InterventionPasses {
  import opened Common
  import opened Sorting
  import opened Interventions

  /** One record; what no pass assigns is constant. */
  class Record {
    const key: string
    const at: int
    const source: string
    const detail: string
    const triggerEventId: string
    const driftId: string
    const conditionId: string
    const lifecycle: string
    var outcome: Outcome
    var planRevisionIndex: int
    var severity: string
    var annotationId: string
    var driftKind: string
    var prevSeverity: string
    var count: nat
    var firstSeen: int
    var lastSeen: int
    var transitions: seq<SeverityTransition>
    var observations: seq<DriftObservation>
    var absorbed: set<string>

    constructor (row: Row)
      ensures View() == row
    {
      key, at, source, detail := row.key, row.at, row.source, row.detail;
      triggerEventId, driftId, conditionId, lifecycle := row.triggerEventId, row.driftId, row.conditionId,
        row.lifecycle;
      outcome, planRevisionIndex, severity, annotationId := row.outcome, row.planRevisionIndex, row.severity,
        row.annotationId;
      driftKind, prevSeverity, count := row.driftKind, row.prevSeverity, row.count;
      firstSeen, lastSeen := row.firstSeen, row.lastSeen;
      transitions, observations, absorbed := row.transitions, row.observations, row.absorbed;
    }

    /** Make this record the one row of its condition. */
    method StandFor(size: nat, firstAt: int, lastAt: int, observed: seq<DriftObservation>,
                    bumps: seq<SeverityTransition>, triggers: set<string>)
      modifies this
      ensures View() == old(View()).(count := size, firstSeen := firstAt, lastSeen := lastAt, observations := observed,
                                     prevSeverity := "", transitions := bumps,
                                     absorbed := old(View()).absorbed + triggers)
    {
      count := size;
      firstSeen, lastSeen := firstAt, lastAt;
      observations := observed;
      prevSeverity := "";
      transitions := bumps;
      absorbed := absorbed + triggers;
    }

    function View(): Row
      reads this
    {
      Row(key, at, source, detail, outcome, planRevisionIndex, severity, annotationId, driftKind, triggerEventId,
          driftId, conditionId, lifecycle, prevSeverity, count, firstSeen, lastSeen, transitions, observations,
          absorbed)
    }
  }

  predicate EarlierRecord(a: Record, b: Record) {
    a.at <= b.at
  }

  ghost function Views(rs: seq<Record>): (v: seq<Row>)
    reads set r | r in rs
    ensures |v| == |rs| && forall i | 0 <= i < |rs| :: v[i] == rs[i].View()
  {
    if rs == [] then [] else Views(rs[..|rs|-1]) + [rs[|rs|-1].View()]
  }

  lemma {:induction false} ViewsInsert(rs: seq<Record>, x: Record)
    ensures Views(Insert(EarlierRecord, rs, x)) == Insert(Earlier, Views(rs), x.View())
  {
    if rs == [] || EarlierRecord(rs[|rs|-1], x) {
    } else {
      ViewsInsert(rs[..|rs|-1], x);
      assert Views(rs)[..|rs|-1] == Views(rs[..|rs|-1]);
    }
  }

  /** Sorting records sorts their rows. */
  lemma {:induction false} ViewsSort(rs: seq<Record>)
    ensures Views(StableSort(EarlierRecord, rs)) == StableSort(Earlier, Views(rs))
  {
    if rs != [] {
      ViewsSort(rs[..|rs|-1]);
      ViewsInsert(StableSort(EarlierRecord, rs[..|rs|-1]), rs[|rs|-1]);
      assert Views(rs)[..|rs|-1] == Views(rs[..|rs|-1]);
    }
  }

  lemma SortedRecords(rs: seq<Record>)
    requires Distinct(rs)
    ensures var s := StableSort(EarlierRecord, rs);
            |s| == |rs| && Distinct(s) && forall i | 0 <= i < |s| :: s[i] in rs
  {
    hide Distinct, Sorted;
    var s := StableSort(EarlierRecord, rs);
    assert OrderOn(EarlierRecord, rs);
    StableSortSorts(EarlierRecord, rs);
    DistinctPermutation(rs, s);
    forall i | 0 <= i < |s| ensures s[i] in rs {
      assert s[i] in multiset(s) && s[i] in multiset(rs);
    }
  }

  // ---- Grouping -----------------------------------------------------------------------------

  /** `g` are the records of `records` with key `k`, in order. */
  ghost predicate IsGroup(key: Row -> string, records: seq<Record>, k: string, g: seq<Record>)
    reads set r | r in records, set r | r in g
  {
    && Views(g) == GroupOf(key, Views(records), k) && Distinct(g)
    && forall r | r in g :: r in records && key(r.View()) == k
  }

  lemma IsGroupStep(key: Row -> string, records: seq<Record>, k: string, g: seq<Record>, r: Record)
    requires IsGroup(key, records, k, g) && r !in records
    ensures IsGroup(key, records + [r], k, if key(r.View()) == k then g + [r] else g)
  {
    hide Views, Filter;
    ViewsAppend(records, r);
    ViewsAppend(g, r);
    FilterAppend(Under(key, k), Views(records), r.View());
    assert r !in g;
  }

  lemma ViewsAppend(rs: seq<Record>, r: Record)
    ensures Views(rs + [r]) == Views(rs) + [r.View()]
  {
  }

  lemma NoGroup(key: Row -> string, records: seq<Record>, k: string)
    requires k != "" && k !in KeysOf(key, Views(records))
    ensures IsGroup(key, records, k, [])
  {
    KeysAreKeys(key, Views(records));
    FilterNone(Under(key, k), Views(records));
  }

  /** The groups of a pass: `order` is the insertion order of the dict `groups`. */
  ghost predicate Grouped(key: Row -> string, records: seq<Record>, pass: seq<Record>, order: seq<string>,
                          groups: map<string, seq<Record>>)
    reads set r | r in records, set r | r in pass, set k, r | k in groups && r in groups[k] :: r
  {
    && groups.Keys == (set k | k in order) && order == KeysOf(key, Views(records))
    && IsGroup(key, records, "", pass)
    && forall k | k in groups :: IsGroup(key, records, k, groups[k])
  }

  method Partition(records: seq<Record>, key: Row -> string)
    returns (pass: seq<Record>, order: seq<string>, groups: map<string, seq<Record>>)
    requires Distinct(records)
    ensures Grouped(key, records, pass, order, groups)
  {
    hide Grouped;
    pass, order, groups := [], [], map[];
    NothingGrouped(key);
    for i := 0 to |records|
      invariant Grouped(key, records[..i], pass, order, groups)
    {
      var r := records[i];
      var k := key(r.View());
      assert records[..i+1] == records[..i] + [r];
      if k == "" {
        PassStep(key, records[..i], pass, order, groups, r);
        pass := pass + [r];
      } else if k !in groups {
        OpenStep(key, records[..i], pass, order, groups, r);
        order := order + [k];
        groups := groups[k := [r]];
      } else {
        JoinStep(key, records[..i], pass, order, groups, r);
        groups := groups[k := groups[k] + [r]];
      }
    }
    assert records[..|records|] == records;
  }

  lemma KeysStep(key: Row -> string, rows: seq<Row>, x: Row)
    ensures KeysOf(key, rows + [x]) ==
            if key(x) == "" || key(x) in KeysOf(key, rows) then KeysOf(key, rows) else KeysOf(key, rows) + [key(x)]
    ensures "" !in KeysOf(key, rows)
  {
    assert (rows + [x])[..|rows|] == rows;
    KeysAreKeys(key, rows);
  }

  lemma NothingGrouped(key: Row -> string)
    ensures Grouped(key, [], [], [], map[])
  {
  }

  lemma PassStep(key: Row -> string, records: seq<Record>, pass: seq<Record>, order: seq<string>,
                 groups: map<string, seq<Record>>, r: Record)
    requires Grouped(key, records, pass, order, groups) && r !in records && key(r.View()) == ""
    ensures Grouped(key, records + [r], pass + [r], order, groups)
  {
    hide IsGroup, Views, KeysOf;
    ViewsAppend(records, r);
    KeysStep(key, Views(records), r.View());
    IsGroupStep(key, records, "", pass, r);
    forall o | o in groups ensures IsGroup(key, records + [r], o, groups[o]) {
      IsGroupStep(key, records, o, groups[o], r);
    }
  }

  lemma JoinStep(key: Row -> string, records: seq<Record>, pass: seq<Record>, order: seq<string>,
                 groups: map<string, seq<Record>>, r: Record)
    requires Grouped(key, records, pass, order, groups) && r !in records && key(r.View()) in groups
    ensures Grouped(key, records + [r], pass, order, groups[key(r.View()) := groups[key(r.View())] + [r]])
  {
    hide IsGroup, Views, KeysOf;
    ViewsAppend(records, r);
    KeysStep(key, Views(records), r.View());
    IsGroupStep(key, records, "", pass, r);
    forall o | o in groups
      ensures IsGroup(key, records + [r], o, if o == key(r.View()) then groups[o] + [r] else groups[o])
    {
      IsGroupStep(key, records, o, groups[o], r);
    }
  }

  lemma OpenStep(key: Row -> string, records: seq<Record>, pass: seq<Record>, order: seq<string>,
                 groups: map<string, seq<Record>>, r: Record)
    requires Grouped(key, records, pass, order, groups) && r !in records
    requires key(r.View()) != "" && key(r.View()) !in groups
    ensures Grouped(key, records + [r], pass, order + [key(r.View())], groups[key(r.View()) := [r]])
  {
    hide IsGroup, Views, KeysOf;
    var k := key(r.View());
    ViewsAppend(records, r);
    KeysStep(key, Views(records), r.View());
    IsGroupStep(key, records, "", pass, r);
    NoGroup(key, records, k);
    IsGroupStep(key, records, k, [], r);
    assert [] + [r] == [r];
    forall o | o in groups ensures IsGroup(key, records + [r], o, groups[o]) {
      IsGroupStep(key, records, o, groups[o], r);
    }
  }

  /** Groups share no record with each other or with the records that pass. */
  ghost predicate Apart(pass: seq<Record>, order: seq<string>, groups: map<string, seq<Record>>) {
    && (forall k | k in order :: k in groups)
    && (forall i, j, r | 0 <= i < j < |order| && r in groups[order[i]] :: r !in groups[order[j]])
    && (forall k, r | k in order && r in groups[k] :: r !in pass)
  }

  lemma GroupsApart(key: Row -> string, records: seq<Record>, pass: seq<Record>, order: seq<string>,
                    groups: map<string, seq<Record>>)
    requires Grouped(key, records, pass, order, groups)
    ensures Apart(pass, order, groups)
    ensures forall k | k in order :: groups[k] != [] && Distinct(groups[k]) && forall r | r in groups[k] :: r in records
    ensures forall k | k in order :: Views(groups[k]) == GroupOf(key, Views(records), k)
    ensures Views(pass) == GroupOf(key, Views(records), "") && order == KeysOf(key, Views(records))
    ensures Distinct(pass) && forall r | r in pass :: r in records
  {
    KeysAreKeys(key, Views(records));
    forall k | k in order ensures groups[k] != [] {
      SomeMember(key, Views(records), k);
    }
  }

  /** The survivors so far, one of each group in turn. */
  ghost predicate Kept(order: seq<string>, groups: map<string, seq<Record>>, survivors: seq<Record>) {
    |survivors| <= |order| && forall j | 0 <= j < |survivors| :: order[j] in groups && survivors[j] in groups[order[j]]
  }

  lemma KeptApart(pass: seq<Record>, order: seq<string>, groups: map<string, seq<Record>>, survivors: seq<Record>)
    requires Apart(pass, order, groups) && Kept(order, groups, survivors) && |survivors| < |order|
    ensures var g := groups[order[|survivors|]];
            && (forall r | r in survivors :: r !in g) && (forall r | r in pass :: r !in g)
            && forall k, r | k in order[|survivors|+1..] && r in groups[k] :: r !in g
    ensures forall k | k in order[|survivors|+1..] :: k in order[|survivors|..]
  {
  }

  lemma KeptStep(order: seq<string>, groups: map<string, seq<Record>>, survivors: seq<Record>, survivor: Record)
    requires Kept(order, groups, survivors) && |survivors| < |order|
    requires order[|survivors|] in groups && survivor in groups[order[|survivors|]]
    ensures Kept(order, groups, survivors + [survivor])
  {
  }

  lemma KeptDistinct(records: seq<Record>, pass: seq<Record>, order: seq<string>, groups: map<string, seq<Record>>,
                     survivors: seq<Record>)
    requires Apart(pass, order, groups) && Kept(order, groups, survivors) && Distinct(pass)
    requires forall r | r in pass :: r in records
    requires forall k, r | k in order && r in groups[k] :: r in records
    ensures Distinct(StableSort(EarlierRecord, pass + survivors))
    ensures forall r | r in StableSort(EarlierRecord, pass + survivors) :: r in records
  {
    var all := pass + survivors;
    forall i, j | 0 <= i < j < |all| ensures all[i] != all[j] {
      if i >= |pass| {
        assert order[i - |pass|] in order && order[j - |pass|] in order;
      } else if j >= |pass| {
        assert order[j - |pass|] in order && pass[i] in pass;
      }
    }
    SortedRecords(all);
    var s := StableSort(EarlierRecord, all);
    forall r | r in s ensures r in records {
      var i :| 0 <= i < |s| && s[i] == r;
      assert s[i] in all;
      if r !in pass {
        var j :| 0 <= j < |survivors| && survivors[j] == r;
        assert order[j] in order;
      }
    }
  }

  lemma CollapseIs(rows: seq<Row>)
    ensures Collapse(rows) == Regroup(ByCondition, CollapseGroup, rows)
    ensures KeysOf(ByCondition, rows) == [] ==> Collapse(rows) == rows
    ensures Survivors(ByCondition, CollapseGroup, rows, []) == [] && Views([]) == []
  {
  }

  lemma NothingKept(order: seq<string>, groups: map<string, seq<Record>>)
    ensures Kept(order, groups, [])
  {
  }

  lemma SomeMember(key: Row -> string, rows: seq<Row>, k: string)
    requires k in KeysOf(key, rows)
    ensures GroupOf(key, rows, k) != []
  {
    KeysAreKeys(key, rows);
    var r :| r in rows && key(r) == k;
    FilterMember(Under(key, k), rows, r);
  }

  lemma SurvivorsStep(key: Row -> string, reduce: seq<Row> -> Row, rows: seq<Row>, ks: seq<string>, i: nat)
    requires i < |ks|
    ensures Survivors(key, reduce, rows, ks[..i+1]) ==
            Survivors(key, reduce, rows, ks[..i]) + [reduce(StableSort(Earlier, GroupOf(key, rows, ks[i])))]
  {
    assert ks[..i+1][..i] == ks[..i];
  }

  // ---- Collapse by condition --------------------------------------------------------------------

  /** Give the survivor the first outcome an earlier observation has earned. */
  method TakeOutcome(survivor: Record, early: seq<Record>)
    requires survivor !in early
    modifies survivor`outcome, survivor`planRevisionIndex
    ensures survivor.View() == Donate(old(survivor.View()), FirstAttributed(old(Views(early))))
  {
    hide FirstAttributed;
    if survivor.outcome.Attributed() {
      return;
    }
    var found := FindAttributed(early);
    if found.Some? {
      var obs := early[found.value];
      survivor.outcome := obs.outcome;
      if obs.planRevisionIndex != 0 && survivor.planRevisionIndex == 0 {
        survivor.planRevisionIndex := obs.planRevisionIndex;
      }
    }
  }

  method FindAttributed(early: seq<Record>) returns (found: Option<nat>)
    ensures found.Some? ==> found.value < |early|
    ensures FirstAttributed(Views(early)) == if found.Some? then Some(early[found.value].View()) else None
  {
    ghost var rows := Views(early);
    for i := 0 to |early|
      invariant FirstAttributed(rows[..i]) == None
    {
      assert rows[..i+1][..i] == rows[..i];
      if early[i].outcome.Attributed() {
        AttributedAt(rows, i);
        return Some(i);
      }
    }
    assert rows[..|early|] == rows;
    return None;
  }

  lemma {:induction false} AttributedAt(rows: seq<Row>, i: nat)
    requires i < |rows| && FirstAttributed(rows[..i]) == None && rows[i].outcome.Attributed()
    ensures FirstAttributed(rows) == Some(rows[i])
  {
    if i < |rows| - 1 {
      assert rows[..|rows|-1][..i] == rows[..i];
      AttributedAt(rows[..|rows|-1], i);
    }
  }

  method GatherHistory(g: seq<Record>)
    returns (transitions: seq<SeverityTransition>, observations: seq<DriftObservation>)
    ensures transitions == Bumps(Views(g)) && observations == Observed(Views(g))
  {
    ghost var rows := Views(g);
    transitions, observations := [], [];
    for i := 0 to |g|
      invariant transitions == Bumps(rows[..i]) && observations == Observed(rows[..i])
    {
      var obs := g[i];
      assert rows[..i+1][..i] == rows[..i];
      if obs.prevSeverity != "" && obs.severity != "" && obs.prevSeverity != obs.severity {
        transitions := transitions + [SeverityTransition(obs.prevSeverity, obs.severity, obs.at)];
      }
      observations := observations +
        [DriftObservation(obs.at, obs.severity, obs.lifecycle, obs.detail, obs.driftId, obs.prevSeverity)];
    }
    assert rows[..|g|] == rows;
  }

  method GatherTriggers(early: seq<Record>) returns (ids: set<string>)
    ensures ids == TriggersOf(Views(early))
  {
    ghost var rows := Views(early);
    ids := {};
    for i := 0 to |early|
      invariant ids == TriggersOf(rows[..i])
    {
      assert rows[..i+1] == rows[..i] + [rows[i]];
      if early[i].triggerEventId != "" {
        ids := ids + {early[i].triggerEventId};
      }
    }
    assert rows[..|early|] == rows;
  }

  /** Fold a group in time order onto its latest observation. */
  method CollapseMany(g: seq<Record>) returns (survivor: Record)
    requires |g| > 1 && Distinct(g)
    modifies g[|g|-1]
    ensures survivor == g[|g|-1] && survivor.View() == CollapseGroup(old(Views(g)))
  {
    hide *;
    ViewsInit(g);
    CollapsedAs(Views(g));
    var early := g[..|g|-1];
    survivor := g[|g|-1];
    NotEarly(g);
    var transitions, observations := GatherHistory(g);
    var triggers := GatherTriggers(early);
    var firstAt, lastAt := g[0].at, survivor.at;
    SameTime(g[0]);
    SameTime(survivor);
    TakeOutcome(survivor, early);
    survivor.StandFor(|g|, firstAt, lastAt, observations, transitions, triggers);
  }

  lemma SameTime(r: Record)
    ensures r.View().at == r.at
  {
  }

  lemma NotEarly(g: seq<Record>)
    requires g != [] && Distinct(g)
    ensures g[|g|-1] !in g[..|g|-1]
  {
  }

  lemma CollapsedAs(rows: seq<Row>)
    requires |rows| > 1
    ensures var donated := Donate(rows[|rows|-1], FirstAttributed(rows[..|rows|-1]));
            CollapseGroup(rows) == donated.(
              count := |rows|, firstSeen := rows[0].at, lastSeen := rows[|rows|-1].at, observations := Observed(rows),
              prevSeverity := "", transitions := Bumps(rows),
              absorbed := donated.absorbed + TriggersOf(rows[..|rows|-1]))
  {
  }

  method CollapseOne(group: seq<Record>) returns (survivor: Record)
    requires group != [] && Distinct(group)
    modifies set r | r in group
    ensures survivor in group
    ensures survivor.View() == CollapseGroup(StableSort(Earlier, old(Views(group))))
  {
    hide CollapseGroup;
    SortedRecords(group);
    ViewsSort(group);
    if |group| == 1 {
      survivor := group[0];
      LoneRow(Views(group));
    } else {
      var g := StableSort(EarlierRecord, group);
      survivor := CollapseMany(g);
    }
  }

  lemma LoneRow(rows: seq<Row>)
    requires |rows| == 1
    ensures CollapseGroup(StableSort(Earlier, rows)) == rows[0]
    ensures MergeGroup(StableSort(Earlier, rows)) == rows[0]
  {
    SortedIsFixed(Earlier, rows);
    assert rows == [rows[0]] && rows[..0] + rows[1..] == [];
  }

  lemma ViewsInit(g: seq<Record>)
    requires g != []
    ensures Views(g[..|g|-1]) == Views(g)[..|g|-1]
  {
  }

  /** The last step of a pass: the kept records in time order. */
  lemma PassDone(key: Row -> string, reduce: seq<Row> -> Row, rows: seq<Row>, pass: seq<Record>, kept: seq<Record>)
    requires KeysOf(key, rows) != []
    requires Views(pass) == GroupOf(key, rows, "")
    requires Views(kept) == Survivors(key, reduce, rows, KeysOf(key, rows))
    ensures Views(StableSort(EarlierRecord, pass + kept)) == Regroup(key, reduce, rows)
  {
    ViewsSort(pass + kept);
    ViewsConcat(pass, kept);
  }

  lemma {:induction false} ViewsConcat(a: seq<Record>, b: seq<Record>)
    ensures Views(a + b) == Views(a) + Views(b)
  {
  }

  method CollapseByConditionId(records: seq<Record>) returns (collapsed: seq<Record>)
    requires Distinct(records)
    modifies set r | r in records
    ensures Views(collapsed) == Collapse(old(Views(records)))
    ensures Distinct(collapsed) && forall r | r in collapsed :: r in records
  {
    hide *;
    ghost var rows := Views(records);
    var pass, order, groups := Partition(records, ByCondition);
    GroupsApart(ByCondition, records, pass, order, groups);
    CollapseIs(rows);
    if |order| == 0 {
      return records;
    }
    var survivors: seq<Record> := [];
    NothingKept(order, groups);
    for i := 0 to |order|
      invariant |survivors| == i && Kept(order, groups, survivors)
      invariant Views(survivors) == Survivors(ByCondition, CollapseGroup, rows, order[..i])
      invariant forall k, r | k in order[i..] && r in groups[k] :: unchanged(r)
      invariant forall r | r in pass :: unchanged(r)
    {
      SurvivorsStep(ByCondition, CollapseGroup, rows, order, i);
      KeptApart(pass, order, groups, survivors);
      assert order[i] in order[i..] && order[i] in order;
      var survivor := CollapseOne(groups[order[i]]);
      KeptStep(order, groups, survivors, survivor);
      ViewsAppend(survivors, survivor);
      survivors := survivors + [survivor];
    }
    assert order[..|order|] == order;
    PassDone(ByCondition, CollapseGroup, rows, pass, survivors);
    KeptDistinct(records, pass, order, groups, survivors);
    collapsed := StableSort(EarlierRecord, pass + survivors);
  }

  // ---- Merge by trigger -----------------------------------------------------------------------

  method BuildAlias(records: seq<Record>) returns (alias: map<string, string>)
    ensures alias == AliasOf(Views(records))
  {
    ghost var rows := Views(records);
    alias := map[];
    for i := 0 to |records|
      invariant alias == AliasOf(rows[..i])
    {
      var r := records[i];
      assert rows[..i+1][..i] == rows[..i];
      if r.absorbed != {} && r.triggerEventId != "" {
        alias := map k | k in alias.Keys + r.absorbed :: if k in alias then alias[k] else r.triggerEventId;
      }
    }
    assert rows[..|records|] == rows;
  }

  /** The position of the survivor of a group in time order. */
  method ChooseSurvivor(g: seq<Record>) returns (choice: nat)
    requires g != []
    ensures choice == SurvivorIndex(Views(g)) < |g|
  {
    ghost var rows := Views(g);
    for i := 0 to |g|
      invariant forall j | 0 <= j < i :: !IsAnnotation(rows[j])
    {
      if g[i].source == "user" && g[i].driftKind == "" {
        IndexIs(IsAnnotation, rows, i);
        return i;
      }
    }
    NoIndex(IsAnnotation, rows);
    for i := 0 to |g|
      invariant forall j | 0 <= j < i :: !BearsCondition(rows[j])
    {
      if g[i].driftKind != "" && (g[i].count > 1 || g[i].conditionId != "") {
        IndexIs(BearsCondition, rows, i);
        return i;
      }
    }
    NoIndex(BearsCondition, rows);
    for i := 0 to |g|
      invariant forall j | 0 <= j < i :: !IsPlainDrift(rows[j])
    {
      if g[i].driftKind != "" && g[i].planRevisionIndex == 0 {
        IndexIs(IsPlainDrift, rows, i);
        return i;
      }
    }
    NoIndex(IsPlainDrift, rows);
    return 0;
  }

  lemma IndexIs(p: Row -> bool, rows: seq<Row>, i: nat)
    requires i < |rows| && p(rows[i]) && forall j | 0 <= j < i :: !p(rows[j])
    ensures IndexOf(p, rows) == i
  {
  }

  lemma NoIndex(p: Row -> bool, rows: seq<Row>)
    requires forall j | 0 <= j < |rows| :: !p(rows[j])
    ensures IndexOf(p, rows) == |rows|
  {
  }

  method AbsorbOutcome(survivor: Record, other: Record)
    requires survivor != other
    modifies survivor`outcome
    ensures survivor.View() == old(survivor.View()).(outcome := Absorb(old(survivor.View()), other.View()).outcome)
  {
    if !other.outcome.Unset? && !other.outcome.Recorded? {
      if survivor.outcome.Unset? || survivor.outcome.Recorded? {
        survivor.outcome := other.outcome;
      }
    } else if !other.outcome.Unset? && survivor.outcome.Unset? {
      survivor.outcome := other.outcome;
    }
  }

  method AbsorbRecord(survivor: Record, other: Record)
    requires survivor != other
    modifies survivor
    ensures survivor.View() == Absorb(old(survivor.View()), other.View())
  {
    AbsorbOutcome(survivor, other);
    label Earned:
    if other.planRevisionIndex != 0 && survivor.planRevisionIndex == 0 {
      survivor.planRevisionIndex := other.planRevisionIndex;
    }
    if other.severity != "" && survivor.severity == "" {
      survivor.severity := other.severity;
    }
    assert survivor.outcome == old@Earned(survivor.outcome) && survivor.driftKind == old(survivor.driftKind);
    if other.driftKind != "" && survivor.driftKind == "" {
      survivor.driftKind := other.driftKind;
    }
    if other.annotationId != "" && survivor.annotationId == "" {
      survivor.annotationId := other.annotationId;
    }
  }

  function Without(rows: seq<Row>, choice: nat, n: nat): seq<Row>
    requires choice < |rows| && n <= |rows|
  {
    if n <= choice then rows[..n] else rows[..choice] + rows[choice+1..n]
  }

  /** Fold a group in time order onto its survivor. */
  method MergeMany(g: seq<Record>) returns (survivor: Record)
    requires g != [] && Distinct(g)
    modifies set r | r in g
    ensures survivor in g && survivor.View() == MergeGroup(old(Views(g)))
  {
    hide MergeGroup, AbsorbAll, Record.View, Absorb, Without;
    ghost var rows := Views(g);
    var choice := ChooseSurvivor(g);
    survivor := g[choice];
    MergedAs(rows, choice);
    assert forall j | 0 <= j < |g| && j != choice :: g[j] != survivor;
    for i := 0 to |g|
      invariant survivor.View() == AbsorbAll(rows[choice], Without(rows, choice, i))
      invariant forall j | i <= j < |g| && j != choice :: g[j].View() == rows[j]
    {
      if i != choice {
        WithoutStep(rows, choice, i);
        AbsorbRecord(survivor, g[i]);
      } else {
        WithoutSelf(rows, choice);
      }
    }
  }

  lemma MergedAs(rows: seq<Row>, choice: nat)
    requires rows != [] && choice == SurvivorIndex(rows) < |rows|
    ensures MergeGroup(rows) == AbsorbAll(rows[choice], Without(rows, choice, |rows|))
    ensures AbsorbAll(rows[choice], Without(rows, choice, 0)) == rows[choice]
  {
    assert rows[choice+1..|rows|] == rows[choice+1..];
  }

  lemma WithoutSelf(rows: seq<Row>, choice: nat)
    requires choice < |rows|
    ensures Without(rows, choice, choice + 1) == Without(rows, choice, choice)
  {
  }

  lemma WithoutStep(rows: seq<Row>, choice: nat, i: nat)
    requires choice < |rows| && i < |rows| && i != choice
    ensures AbsorbAll(rows[choice], Without(rows, choice, i + 1)) ==
            Absorb(AbsorbAll(rows[choice], Without(rows, choice, i)), rows[i])
  {
    var w := Without(rows, choice, i);
    assert Without(rows, choice, i + 1) == w + [rows[i]];
    assert (w + [rows[i]])[..|w|] == w;
  }

  method MergeOne(group: seq<Record>) returns (survivor: Record)
    requires group != [] && Distinct(group)
    modifies set r | r in group
    ensures survivor in group
    ensures survivor.View() == MergeGroup(StableSort(Earlier, old(Views(group))))
  {
    hide MergeGroup;
    SortedRecords(group);
    ViewsSort(group);
    var g := StableSort(EarlierRecord, group);
    assert forall r | r in g :: r in group;
    survivor := MergeMany(g);
  }

  /** One survivor of each group in turn; the records that pass are untouched. */
  method MergeEach(key: Row -> string, ghost rows: seq<Row>, ghost records: seq<Record>, ghost pass: seq<Record>,
                   order: seq<string>, groups: map<string, seq<Record>>)
    returns (survivors: seq<Record>)
    requires Apart(pass, order, groups)
    requires forall k | k in order :: k in groups
    requires forall k | k in order ::
      groups[k] != [] && Distinct(groups[k]) && forall r | r in groups[k] :: r in records
    requires forall k | k in order :: Views(groups[k]) == GroupOf(key, rows, k)
    modifies set r | r in records
    ensures |survivors| == |order| && Kept(order, groups, survivors)
    ensures Views(survivors) == Survivors(key, MergeGroup, rows, order)
    ensures forall r | r in pass :: unchanged(r)
  {
    hide *;
    survivors := [];
    NothingKept(order, groups);
    NoSurvivors(key, rows);
    for i := 0 to |order|
      invariant |survivors| == i && Kept(order, groups, survivors)
      invariant Views(survivors) == Survivors(key, MergeGroup, rows, order[..i])
      invariant forall k, r | k in order[i..] && r in groups[k] :: unchanged(r)
      invariant forall r | r in pass :: unchanged(r)
    {
      SurvivorsStep(key, MergeGroup, rows, order, i);
      KeptApart(pass, order, groups, survivors);
      assert order[i] in order[i..] && order[i] in order;
      var survivor := MergeOne(groups[order[i]]);
      assert forall k, r | k in order[i + 1..] && r in groups[k] :: unchanged(r);
      assert forall r | r in pass :: unchanged(r);
      assert Views(survivors) == Survivors(key, MergeGroup, rows, order[..i]);
      KeptStep(order, groups, survivors, survivor);
      ViewsAppend(survivors, survivor);
      survivors := survivors + [survivor];
    }
    assert order[..|order|] == order;
  }

  lemma NoSurvivors(key: Row -> string, rows: seq<Row>)
    ensures Survivors(key, MergeGroup, rows, []) == [] && Views([]) == []
  {
  }

  method MergeByTriggerEventId(records: seq<Record>) returns (merged: seq<Record>)
    requires Distinct(records)
    modifies set r | r in records
    ensures Views(merged) == Merge(old(Views(records)))
    ensures Distinct(merged) && forall r | r in merged :: r in records
  {
    hide *;
    ghost var rows := Views(records);
    var alias := BuildAlias(records);
    var key := MergeKey(alias);
    var pass, order, groups := Partition(records, key);
    GroupsApart(key, records, pass, order, groups);
    MergeIs(rows);
    if |order| == 0 {
      return records;
    }
    KeysAreGroups(pass, order, groups);
    var survivors := MergeEach(key, rows, records, pass, order, groups);
    PassDone(key, MergeGroup, rows, pass, survivors);
    KeptDistinct(records, pass, order, groups, survivors);
    merged := StableSort(EarlierRecord, pass + survivors);
  }

  lemma KeysAreGroups(pass: seq<Record>, order: seq<string>, groups: map<string, seq<Record>>)
    requires Apart(pass, order, groups)
    ensures forall k | k in order :: k in groups
  {
  }

  lemma MergeIs(rows: seq<Row>)
    ensures Merge(rows) == Regroup(MergeKey(AliasOf(rows)), MergeGroup, rows)
    ensures KeysOf(MergeKey(AliasOf(rows)), rows) == [] ==> Merge(rows) == rows
  {
  }
}
