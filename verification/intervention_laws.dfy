/** Laws of the grouping passes: the merge is idempotent, the collapse conserves what it
    folds, and together they leave no plan row beside the drift that caused it. */
module InterventionLaws {
  import opened Common
  import opened Sorting
  import opened Interventions

  // ---- Equal times keep their order ---------------------------------------------------------

  function AtTime(t: int): Row -> bool {
    (r: Row) => r.at == t
  }

  lemma {:induction false} SameByTime(a: seq<Row>, b: seq<Row>)
    requires Sorted(Earlier, a) && Sorted(Earlier, b)
    requires forall t :: Filter(AtTime(t), a) == Filter(AtTime(t), b)
    ensures a == b
  {
    if a == [] || b == [] {
      EmptyTwin(a, b);
      EmptyTwin(b, a);
    } else {
      LatestIsLatest(a, b);
      LatestIsLatest(b, a);
      var x, y := a[|a|-1], b[|b|-1];
      LastIsKept(a);
      LastIsKept(b);
      assert Filter(AtTime(x.at), a) == Filter(AtTime(x.at), b);
      var a', b' := a[..|a|-1], b[..|b|-1];
      assert a == a' + [x] && b == b' + [y];
      forall t ensures Filter(AtTime(t), a') == Filter(AtTime(t), b') {
        DropLast(a', b', x, y, t);
      }
      PrefixSorted(a);
      PrefixSorted(b);
      SameByTime(a', b');
    }
  }

  lemma EmptyTwin(a: seq<Row>, b: seq<Row>)
    requires forall t :: Filter(AtTime(t), a) == Filter(AtTime(t), b)
    ensures b == [] ==> a == []
  {
    var t := if a == [] then 0 else a[|a|-1].at;
    assert Filter(AtTime(t), a) == Filter(AtTime(t), b);
    if a != [] { LastIsKept(a); }
  }

  lemma DropLast(a: seq<Row>, b: seq<Row>, x: Row, y: Row, t: int)
    requires x == y && Filter(AtTime(t), a + [x]) == Filter(AtTime(t), b + [y])
    ensures Filter(AtTime(t), a) == Filter(AtTime(t), b)
  {
    FilterAppend(AtTime(t), a, x);
    FilterAppend(AtTime(t), b, y);
    var f, g := Filter(AtTime(t), a), Filter(AtTime(t), b);
    assert (f + [x])[..|f|] == f && (g + [y])[..|g|] == g;
  }

  lemma PrefixSorted(a: seq<Row>)
    requires a != [] && Sorted(Earlier, a)
    ensures Sorted(Earlier, a[..|a|-1])
  {
    var leq := Earlier;
    var t := a[..|a|-1];
    forall i, j {:trigger leq(t[i], t[j])} | 0 <= i < j < |t| ensures leq(t[i], t[j]) {
      assert leq(a[i], a[j]);
    }
  }

  lemma LastIsKept(a: seq<Row>)
    requires a != []
    ensures var f := Filter(AtTime(a[|a|-1].at), a); f != [] && f[|f|-1] == a[|a|-1]
  {
  }

  lemma LatestIsLatest(a: seq<Row>, b: seq<Row>)
    requires a != [] && b != [] && Sorted(Earlier, b)
    requires forall t :: Filter(AtTime(t), a) == Filter(AtTime(t), b)
    ensures a[|a|-1].at <= b[|b|-1].at
  {
    var x := a[|a|-1];
    LastIsKept(a);
    FilterMember(AtTime(x.at), a, x);
    FilterMember(AtTime(x.at), b, x);
    assert Filter(AtTime(x.at), a) == Filter(AtTime(x.at), b);
    var k :| 0 <= k < |b| && b[k] == x;
    var leq := Earlier;
    assert k < |b| - 1 ==> leq(b[k], b[|b|-1]);
  }

  lemma TimeSlice(s: seq<Row>, t: int)
    ensures Filter(AtTime(t), StableSort(Earlier, s)) == Filter(AtTime(t), s)
  {
    EarlierIsOrder(s);
    StableSortIsStable(Earlier, AtTime(t), s);
  }

  function Not(p: Row -> bool): Row -> bool {
    r => !p(r)
  }

  /** Splitting a sorted list by where its rows came from and sorting again gives it back. */
  lemma SplitSort(p: Row -> bool, pass: seq<Row>, kept: seq<Row>)
    requires forall r | r in pass :: !p(r)
    requires forall r | r in kept :: p(r)
    ensures var m := StableSort(Earlier, pass + kept);
            StableSort(Earlier, Filter(Not(p), m) + Filter(p, m)) == m
  {
    var m := StableSort(Earlier, pass + kept);
    var f, g := Filter(Not(p), m), Filter(p, m);
    var again := StableSort(Earlier, f + g);
    forall t ensures Filter(AtTime(t), again) == Filter(AtTime(t), m) {
      SliceOfSplit(p, pass, kept, t);
      TimeSlice(f + g, t);
      FilterConcat(AtTime(t), f, g);
      TimeSlice(pass + kept, t);
      FilterConcat(AtTime(t), pass, kept);
    }
    EarlierIsOrder(f + g);
    EarlierIsOrder(pass + kept);
    StableSortSorts(Earlier, f + g);
    StableSortSorts(Earlier, pass + kept);
    SameByTime(again, m);
  }

  lemma SliceOfSplit(p: Row -> bool, pass: seq<Row>, kept: seq<Row>, t: int)
    requires forall r | r in pass :: !p(r)
    requires forall r | r in kept :: p(r)
    ensures var m := StableSort(Earlier, pass + kept);
            && Filter(AtTime(t), Filter(Not(p), m)) == Filter(AtTime(t), pass)
            && Filter(AtTime(t), Filter(p, m)) == Filter(AtTime(t), kept)
  {
    var m := StableSort(Earlier, pass + kept);
    TimeSlice(pass + kept, t);
    FilterConcat(AtTime(t), pass, kept);
    var a, b := Filter(AtTime(t), pass), Filter(AtTime(t), kept);
    forall r | r in a ensures !p(r) { FilterMember(AtTime(t), pass, r); }
    forall r | r in b ensures p(r) { FilterMember(AtTime(t), kept, r); }
    FilterTwice(AtTime(t), Not(p), m);
    FilterConcat(Not(p), a, b);
    FilterAll(Not(p), a);
    FilterNone(Not(p), b);
    FilterTwice(AtTime(t), p, m);
    FilterConcat(p, a, b);
    FilterNone(p, a);
    FilterAll(p, b);
  }

  // ---- Groups of one ---------------------------------------------------------------------------

  function Keyed(key: Row -> string): Row -> bool {
    r => key(r) != ""
  }

  ghost predicate DistinctKeys(key: Row -> string, s: seq<Row>) {
    forall i, j | 0 <= i < j < |s| && key(s[i]) == key(s[j]) :: key(s[i]) == ""
  }

  lemma {:induction false} LoneGroup(key: Row -> string, s: seq<Row>, i: nat)
    requires i < |s| && DistinctKeys(key, s) && key(s[i]) != ""
    ensures GroupOf(key, s, key(s[i])) == [s[i]]
  {
    var t, k := s[..|s|-1], key(s[i]);
    if i < |s| - 1 {
      LoneGroup(key, t, i);
    } else {
      FilterNone(Under(key, k), t);
    }
  }

  lemma KeysAppend(key: Row -> string, t: seq<Row>, x: Row)
    ensures KeysOf(key, t + [x]) ==
            if key(x) == "" || key(x) in KeysOf(key, t) then KeysOf(key, t) else KeysOf(key, t) + [key(x)]
  {
    assert (t + [x])[..|t|] == t;
  }

  lemma SurvivorsAppend(key: Row -> string, reduce: seq<Row> -> Row, s: seq<Row>, ks: seq<string>, k: string)
    ensures Survivors(key, reduce, s, ks + [k]) ==
            Survivors(key, reduce, s, ks) + [reduce(StableSort(Earlier, GroupOf(key, s, k)))]
  {
    assert (ks + [k])[..|ks|] == ks;
  }

  lemma NewKey(key: Row -> string, s: seq<Row>, i: nat)
    requires i < |s| && DistinctKeys(key, s) && key(s[i]) != ""
    ensures key(s[i]) !in KeysOf(key, s[..i])
  {
    KeysAreKeys(key, s[..i]);
    forall r | r in s[..i] ensures key(r) != key(s[i]) {
      var j :| 0 <= j < i && s[j] == r;
    }
  }

  /** When every key occurs once, grouping changes no row. */
  lemma {:induction false} LoneSurvivors(key: Row -> string, reduce: seq<Row> -> Row, s: seq<Row>, n: nat)
    requires n <= |s| && DistinctKeys(key, s)
    requires forall i | 0 <= i < |s| :: reduce([s[i]]) == s[i]
    ensures Survivors(key, reduce, s, KeysOf(key, s[..n])) == Filter(Keyed(key), s[..n])
  {
    hide DistinctKeys, Earlier;
    if n > 0 {
      var t, x := s[..n-1], s[n-1];
      assert s[..n] == t + [x];
      LoneSurvivors(key, reduce, s, n - 1);
      FilterAppend(Keyed(key), t, x);
      KeysAppend(key, t, x);
      if key(x) != "" {
        NewKey(key, s, n - 1);
        LoneGroup(key, s, n - 1);
        SortedIsFixed(Earlier, [x]);
        SurvivorsAppend(key, reduce, s, KeysOf(key, t), key(x));
      }
    }
  }

  lemma LoneRegroup(key: Row -> string, reduce: seq<Row> -> Row, pass: seq<Row>, kept: seq<Row>)
    requires forall r | r in pass :: key(r) == ""
    requires forall r | r in kept :: key(r) != ""
    requires DistinctKeys(key, kept)
    requires forall r | r in pass || r in kept :: reduce([r]) == r
    ensures var m := StableSort(Earlier, pass + kept); Regroup(key, reduce, m) == m
  {
    var m := StableSort(Earlier, pass + kept);
    EarlierIsOrder(pass + kept);
    StableSortSorts(Earlier, pass + kept);
    forall i | 0 <= i < |m| ensures reduce([m[i]]) == m[i] {
      assert m[i] in multiset(pass + kept);
    }
    KeysStayDistinct(key, pass, kept);
    LoneSurvivors(key, reduce, m, |m|);
    assert m[..|m|] == m;
    SplitSort(Keyed(key), pass, kept);
    SamePredicate(Under(key, ""), Not(Keyed(key)), m);
  }

  lemma {:induction false} SamePredicate(p: Row -> bool, q: Row -> bool, s: seq<Row>)
    requires forall r | r in s :: p(r) == q(r)
    ensures Filter(p, s) == Filter(q, s)
  {
    if s != [] {
      assert s == s[..|s|-1] + [s[|s|-1]];
      SamePredicate(p, q, s[..|s|-1]);
    }
  }

  lemma {:induction false} CountTwo(p: Row -> bool, s: seq<Row>, i: nat, j: nat)
    requires i < j < |s| && p(s[i]) && p(s[j])
    ensures |Filter(p, s)| >= 2
  {
    var t := s[..|s|-1];
    if j < |s| - 1 {
      CountTwo(p, t, i, j);
    } else {
      FilterMember(p, t, s[i]);
      assert t[i] in t;
    }
  }

  lemma {:induction false} CountOne(key: Row -> string, s: seq<Row>, k: string)
    requires DistinctKeys(key, s) && k != ""
    ensures |Filter(Under(key, k), s)| <= 1
  {
    if s != [] {
      var t := s[..|s|-1];
      CountOne(key, t, k);
      if key(s[|s|-1]) == k { FilterNone(Under(key, k), t); }
    }
  }

  lemma KeysStayDistinct(key: Row -> string, pass: seq<Row>, kept: seq<Row>)
    requires forall r | r in pass :: key(r) == ""
    requires DistinctKeys(key, kept)
    ensures DistinctKeys(key, StableSort(Earlier, pass + kept))
  {
    var m := StableSort(Earlier, pass + kept);
    forall i, j | 0 <= i < j < |m| && key(m[i]) == key(m[j]) ensures key(m[i]) == "" {
      var k := key(m[i]);
      if k != "" {
        CountTwo(Under(key, k), m, i, j);
        SortFilterLength(Earlier, Under(key, k), pass + kept);
        FilterConcat(Under(key, k), pass, kept);
        FilterNone(Under(key, k), pass);
        CountOne(key, kept, k);
        assert false;
      }
    }
  }

  // ---- The merge ---------------------------------------------------------------------------------

  /** What a survivor keeps of its own: everything but what the others may fill in. */
  ghost predicate SameIdentity(a: Row, b: Row) {
    && a.key == b.key && a.at == b.at && a.source == b.source && a.triggerEventId == b.triggerEventId
    && a.conditionId == b.conditionId && a.count == b.count && a.absorbed == b.absorbed
    && a.observations == b.observations && a.transitions == b.transitions
    && a.firstSeen == b.firstSeen && a.lastSeen == b.lastSeen
    && (a.driftKind == b.driftKind || b.driftKind == "")
  }

  lemma {:induction false} AbsorbKeeps(s: Row, others: seq<Row>)
    ensures SameIdentity(AbsorbAll(s, others), s)
  {
    if others != [] { AbsorbKeeps(s, others[..|others|-1]); }
  }

  lemma MergedKeeps(g: seq<Row>)
    requires g != []
    ensures SameIdentity(MergeGroup(g), g[SurvivorIndex(g)])
  {
    var i := SurvivorIndex(g);
    AbsorbKeeps(g[i], g[..i] + g[i+1..]);
  }

  lemma MergeOfOne(r: Row)
    ensures MergeGroup([r]) == r
  {
    assert [r][..0] + [r][1..] == [];
  }

  /** Absorbed ids are unambiguous, and no absorber's own id leads elsewhere. This is what
      "two conditions don't share an emit's id" gives. */
  ghost predicate WellAliased(records: seq<Row>) {
    && (forall r | r in records :: "" !in r.absorbed)
    && (forall r, s, x | r in records && s in records && r.triggerEventId != "" && s.triggerEventId != "" &&
          x in r.absorbed && x in s.absorbed :: r.triggerEventId == s.triggerEventId)
    && (forall r, s | r in records && s in records && s.triggerEventId != "" && r.triggerEventId in s.absorbed &&
          r.absorbed != {} :: r.triggerEventId == s.triggerEventId)
  }

  lemma {:induction false} AliasMembers(records: seq<Row>, x: string)
    ensures x in AliasOf(records) <==> exists r :: r in records && r.triggerEventId != "" && x in r.absorbed
    ensures x in AliasOf(records) ==>
              exists r :: r in records && r.triggerEventId != "" && x in r.absorbed
                && AliasOf(records)[x] == r.triggerEventId
  {
    if records != [] {
      var t, last := records[..|records|-1], records[|records|-1];
      AliasMembers(t, x);
      assert records == t + [last];
      assert last in records;
      forall r | r in t ensures r in records { }
      if x in AliasOf(t) {
        var r :| r in t && r.triggerEventId != "" && x in r.absorbed && AliasOf(t)[x] == r.triggerEventId;
        assert r in records;
      }
    }
  }

  /** The key a row merges under. */
  lemma MergeKeyMeans(records: seq<Row>, r: Row)
    requires WellAliased(records)
    ensures var k := MergeKey(AliasOf(records))(r);
            && (Standalone(r) ==> k == "")
            && (!Standalone(r) && r.triggerEventId !in AliasOf(records) ==> k == r.triggerEventId)
            && (!Standalone(r) && r.triggerEventId in AliasOf(records) ==>
                  forall s | s in records && s.triggerEventId != "" && r.triggerEventId in s.absorbed ::
                    k == s.triggerEventId)
    ensures "" !in AliasOf(records) && "" !in AliasOf(records).Values
  {
    AliasMembers(records, r.triggerEventId);
    AliasMembers(records, "");
    forall x | x in AliasOf(records) ensures AliasOf(records)[x] != "" {
      AliasMembers(records, x);
    }
  }

  lemma SortedGroupMembers(key: Row -> string, records: seq<Row>, k: string)
    ensures var g := StableSort(Earlier, GroupOf(key, records, k));
            && (forall r :: r in g <==> r in records && key(r) == k)
            && (g != [] <==> exists r :: r in records && key(r) == k)
  {
    var raw := GroupOf(key, records, k);
    GroupMembers(key, records, k);
    EarlierIsOrder(raw);
    StableSortSorts(Earlier, raw);
    var g := StableSort(Earlier, raw);
    assert forall r :: r in raw <==> r in records && key(r) == k;
    forall r ensures r in g <==> r in records && key(r) == k {
      assert r in g <==> r in multiset(raw);
    }
    if g != [] { assert g[0] in g; }
  }

  /** A survivor's key is the key of its group. */
  lemma SurvivorKey(records: seq<Row>, k: string) returns (m: Row, r: Row)
    requires k in KeysOf(MergeKey(AliasOf(records)), records)
    ensures m == MergeGroup(StableSort(Earlier, GroupOf(MergeKey(AliasOf(records)), records, k)))
    ensures r in records && SameIdentity(m, r) && MergeKey(AliasOf(records))(r) == k == MergeKey(AliasOf(records))(m)
  {
    var key := MergeKey(AliasOf(records));
    KeysAreKeys(key, records);
    SortedGroupMembers(key, records, k);
    var g := StableSort(Earlier, GroupOf(key, records, k));
    m, r := MergeGroup(g), g[SurvivorIndex(g)];
    MergedKeeps(g);
    assert r in g;
  }

  /** Every merged row goes back to a given one. */
  lemma MergeOrigin(records: seq<Row>, m: Row) returns (r: Row)
    requires m in Merge(records)
    ensures r in records && SameIdentity(m, r)
  {
    var key := MergeKey(AliasOf(records));
    RegroupMembers(key, MergeGroup, records, m);
    if m in records && key(m) == "" {
      r := m;
    } else {
      var k :| k in KeysOf(key, records) && m == MergeGroup(StableSort(Earlier, GroupOf(key, records, k)));
      var m';
      m', r := SurvivorKey(records, k);
    }
  }

  /** Merging loses aliases but changes none. */
  lemma AliasShrinks(records: seq<Row>, x: string)
    requires WellAliased(records) && x in AliasOf(Merge(records))
    ensures x in AliasOf(records) && AliasOf(Merge(records))[x] == AliasOf(records)[x]
  {
    var merged := Merge(records);
    AliasMembers(merged, x);
    var m :| m in merged && m.triggerEventId != "" && x in m.absorbed && AliasOf(merged)[x] == m.triggerEventId;
    var r := MergeOrigin(records, m);
    AliasMembers(records, x);
  }

  /** Rows merged under different keys stay under different keys. */
  lemma KeysSeparate(records: seq<Row>, a: Row, b: Row)
    requires WellAliased(records)
    requires exists r :: r in records && SameIdentity(a, r)
    requires exists r :: r in records && SameIdentity(b, r)
    requires MergeKey(AliasOf(records))(a) != "" && MergeKey(AliasOf(records))(b) != ""
    requires MergeKey(AliasOf(Merge(records)))(a) == MergeKey(AliasOf(Merge(records)))(b)
    ensures MergeKey(AliasOf(records))(a) == MergeKey(AliasOf(records))(b)
  {
    var later := AliasOf(Merge(records));
    if a.triggerEventId in later { AliasShrinks(records, a.triggerEventId); }
    if b.triggerEventId in later { AliasShrinks(records, b.triggerEventId); }
    if a.triggerEventId in later && b.triggerEventId !in later {
      TargetsAreFixed(records, a.triggerEventId);
    }
    if b.triggerEventId in later && a.triggerEventId !in later {
      TargetsAreFixed(records, b.triggerEventId);
    }
  }

  /** An alias leads to an id that leads nowhere else. */
  lemma TargetsAreFixed(records: seq<Row>, x: string)
    requires WellAliased(records) && x in AliasOf(records)
    ensures var k := AliasOf(records)[x]; k in AliasOf(records) ==> AliasOf(records)[k] == k
  {
    AliasMembers(records, x);
    var r :| r in records && r.triggerEventId != "" && x in r.absorbed && AliasOf(records)[x] == r.triggerEventId;
    var k := r.triggerEventId;
    AliasMembers(records, k);
    if k in AliasOf(records) {
      var s :| s in records && s.triggerEventId != "" && k in s.absorbed && AliasOf(records)[k] == s.triggerEventId;
    }
  }

  lemma PassesAgain(records: seq<Row>, m: Row)
    requires WellAliased(records) && m in records && MergeKey(AliasOf(records))(m) == ""
    ensures MergeKey(AliasOf(Merge(records)))(m) == ""
  {
    MergeKeyMeans(records, m);
    if m.triggerEventId in AliasOf(Merge(records)) { AliasShrinks(records, m.triggerEventId); }
  }

  lemma KeyedAgain(records: seq<Row>, m: Row)
    requires WellAliased(records) && MergeKey(AliasOf(records))(m) != ""
    ensures MergeKey(AliasOf(Merge(records)))(m) != ""
  {
    MergeKeyMeans(records, m);
    if m.triggerEventId in AliasOf(Merge(records)) { AliasShrinks(records, m.triggerEventId); }
  }

  /** Merging a merged timeline changes nothing, down to the order of its rows. */
  lemma MergeIsIdempotent(records: seq<Row>)
    requires WellAliased(records)
    ensures Merge(Merge(records)) == Merge(records)
  {
    var key, key' := MergeKey(AliasOf(records)), MergeKey(AliasOf(Merge(records)));
    var ks := KeysOf(key, records);
    if ks == [] {
      return;
    }
    var pass, kept := GroupOf(key, records, ""), Survivors(key, MergeGroup, records, ks);
    KeysAreKeys(key, records);
    forall r | r in pass ensures key'(r) == "" {
      FilterMember(Under(key, ""), records, r);
      PassesAgain(records, r);
    }
    forall i: nat | i < |ks|
      ensures i < |kept| && key(kept[i]) == ks[i] && exists r :: r in records && SameIdentity(kept[i], r)
    {
      SurvivorAt(key, MergeGroup, records, ks, i);
      var m, r := SurvivorKey(records, ks[i]);
    }
    SurvivorAt(key, MergeGroup, records, ks, 0);
    forall i: nat | i < |kept| ensures key'(kept[i]) != "" {
      assert ks[i] in ks;
      KeyedAgain(records, kept[i]);
    }
    forall i, j | 0 <= i < j < |kept| && key'(kept[i]) == key'(kept[j]) ensures false {
      assert ks[i] in ks && ks[j] in ks;
      KeysSeparate(records, kept[i], kept[j]);
    }
    forall r ensures MergeGroup([r]) == r {
      MergeOfOne(r);
    }
    LoneRegroup(key', MergeGroup, pass, kept);
  }

  /** The merge keeps every row that merges with nothing and makes exactly one row for each
      key: a key of the result occurs once. */
  lemma MergeKeepsAndFolds(records: seq<Row>)
    ensures var key := MergeKey(AliasOf(records));
            && |Merge(records)| == |GroupOf(key, records, "")| + |KeysOf(key, records)|
            && (forall r | r in records && key(r) == "" :: r in Merge(records))
            && (forall k | k in KeysOf(key, records) :: exists m :: m in Merge(records) && key(m) == k)
            && (KeysOf(key, records) != [] ==> DistinctKeys(key, Merge(records)))
  {
    var key := MergeKey(AliasOf(records));
    var ks := KeysOf(key, records);
    RegroupSize(key, MergeGroup, records);
    forall r | r in records && key(r) == "" ensures r in Merge(records) {
      RegroupMembers(key, MergeGroup, records, r);
    }
    forall k | k in ks ensures exists m :: m in Merge(records) && key(m) == k {
      var m, r := SurvivorKey(records, k);
      RegroupMembers(key, MergeGroup, records, m);
    }
    if ks != [] {
      var pass, kept := GroupOf(key, records, ""), Survivors(key, MergeGroup, records, ks);
      KeysAreKeys(key, records);
      forall r | r in pass ensures key(r) == "" {
        FilterMember(Under(key, ""), records, r);
      }
      SurvivorAt(key, MergeGroup, records, ks, 0);
      forall i: nat | i < |ks| ensures key(kept[i]) == ks[i] {
        SurvivorAt(key, MergeGroup, records, ks, i);
        var m, r := SurvivorKey(records, ks[i]);
      }
      KeysStayDistinct(key, pass, kept);
    }
  }

  lemma {:induction false} AbsorbEarns(s: Row, others: seq<Row>)
    ensures AbsorbAll(s, others).outcome.Attributed() <==>
            s.outcome.Attributed() || exists o :: o in others && o.outcome.Attributed()
  {
    if others != [] {
      var t, last := others[..|others|-1], others[|others|-1];
      AbsorbEarns(s, t);
      assert others == t + [last];
    }
  }

  /** No outcome is lost: the survivor has one exactly when some row of its group had. */
  lemma MergedOutcome(g: seq<Row>)
    requires g != []
    ensures MergeGroup(g).outcome.Attributed() <==> exists r :: r in g && r.outcome.Attributed()
  {
    var i := SurvivorIndex(g);
    AbsorbEarns(g[i], g[..i] + g[i+1..]);
    assert g == g[..i] + [g[i]] + g[i+1..];
    assert forall r :: r in g <==> r in g[..i] + g[i+1..] || r == g[i];
  }

  // ---- The collapse -------------------------------------------------------------------------------

  lemma {:induction false} FilterSorted(p: Row -> bool, s: seq<Row>)
    requires Sorted(Earlier, s)
    ensures Sorted(Earlier, Filter(p, s))
  {
    if s != [] {
      hide Sorted, Filter;
      var t, x := s[..|s|-1], s[|s|-1];
      PrefixSorted(s);
      FilterSorted(p, t);
      FilterAppend(p, t, x);
      assert s == t + [x];
      forall r | r in Filter(p, t) ensures r.at <= x.at {
        FilterMember(p, t, r);
        NoneAfterLast(s, r);
      }
      LaterAtEnd(Filter(p, t), x);
    } else {
      assert Filter(p, s) == s;
    }
  }

  lemma NoneAfterLast(s: seq<Row>, r: Row)
    requires s != [] && Sorted(Earlier, s) && r in s[..|s|-1]
    ensures r.at <= s[|s|-1].at
  {
    var k :| 0 <= k < |s| - 1 && s[k] == r;
    var leq := Earlier;
    assert leq(s[k], s[|s|-1]);
  }

  lemma LaterAtEnd(s: seq<Row>, x: Row)
    requires Sorted(Earlier, s) && forall r | r in s :: r.at <= x.at
    ensures Sorted(Earlier, s + [x])
  {
  }

  /** In time order a group needs no sorting. */
  lemma GroupInOrder(records: seq<Row>, k: string)
    requires Sorted(Earlier, records)
    ensures StableSort(Earlier, GroupOf(ByCondition, records, k)) == GroupOf(ByCondition, records, k)
  {
    FilterSorted(Under(ByCondition, k), records);
    SortedIsFixed(Earlier, GroupOf(ByCondition, records, k));
  }

  lemma CollapsedCondition(g: seq<Row>, k: string)
    requires g != [] && forall r | r in g :: r.conditionId == k
    ensures CollapseGroup(g).conditionId == k
    ensures CollapseGroup(g).triggerEventId == g[|g|-1].triggerEventId
    ensures CollapseGroup(g).source == g[|g|-1].source && CollapseGroup(g).driftKind == g[|g|-1].driftKind
    ensures CollapseGroup(g).at == g[|g|-1].at
  {
    assert g[|g|-1] in g;
  }

  lemma CollapseSurvivor(records: seq<Row>, k: string)
    requires k in KeysOf(ByCondition, records)
    ensures var g := StableSort(Earlier, GroupOf(ByCondition, records, k));
            g != [] && (forall r :: r in g <==> r in records && r.conditionId == k) && CollapseGroup(g).conditionId == k
  {
    KeysAreKeys(ByCondition, records);
    SortedGroupMembers(ByCondition, records, k);
    var g := StableSort(Earlier, GroupOf(ByCondition, records, k));
    CollapsedCondition(g, k);
  }

  ghost predicate HasCondition(records: seq<Row>, c: string) {
    exists r :: r in records && r.conditionId == c
  }

  lemma CollapsePart(records: seq<Row>, i: nat)
    requires i < |KeysOf(ByCondition, records)|
    ensures var ks := KeysOf(ByCondition, records);
            var kept := Survivors(ByCondition, CollapseGroup, records, ks);
            |kept| == |ks| && kept[i].conditionId == ks[i]
  {
    var ks := KeysOf(ByCondition, records);
    SurvivorAt(ByCondition, CollapseGroup, records, ks, i);
    assert ks[i] in ks;
    CollapseSurvivor(records, ks[i]);
  }

  lemma KeptDistinct(kept: seq<Row>, ks: seq<string>)
    requires |kept| == |ks| && forall i: nat | i < |ks| :: kept[i].conditionId == ks[i]
    requires forall k | k in ks :: k != ""
    requires forall i, j | 0 <= i < j < |ks| :: ks[i] != ks[j]
    ensures (forall r | r in kept :: r.conditionId != "") && DistinctKeys(ByCondition, kept)
  {
    forall r | r in kept ensures r.conditionId != "" {
      var i :| 0 <= i < |kept| && kept[i] == r;
      assert ks[i] in ks;
    }
  }

  /** The rows a collapse makes: survivors in the order of their conditions. */
  lemma CollapseParts(records: seq<Row>)
    ensures var ks := KeysOf(ByCondition, records);
            var kept := Survivors(ByCondition, CollapseGroup, records, ks);
            && (ks != [] ==> |kept| == |ks| && forall i: nat | i < |ks| :: kept[i].conditionId == ks[i])
            && (ks != [] ==> (forall r | r in kept :: r.conditionId != "") && DistinctKeys(ByCondition, kept))
    ensures forall r | r in GroupOf(ByCondition, records, "") :: r.conditionId == ""
  {
    hide CollapseGroup, DistinctKeys;
    var ks := KeysOf(ByCondition, records);
    KeysAreKeys(ByCondition, records);
    var kept := Survivors(ByCondition, CollapseGroup, records, ks);
    if ks != [] {
      SurvivorAt(ByCondition, CollapseGroup, records, ks, 0);
      forall i: nat | i < |ks| ensures kept[i].conditionId == ks[i] {
        CollapsePart(records, i);
      }
      KeptDistinct(kept, ks);
    }
    PassRows(records);
  }

  lemma PassRows(records: seq<Row>)
    ensures forall r | r in GroupOf(ByCondition, records, "") :: r.conditionId == ""
  {
    var key := ByCondition;
    forall r | r in GroupOf(ByCondition, records, "") ensures r.conditionId == "" {
      FilterMember(Under(ByCondition, ""), records, r);
      assert key(r) == "";
    }
  }

  /** After the collapse every condition has exactly one row. */
  lemma CollapseOneRowPerCondition(records: seq<Row>)
    ensures DistinctKeys(ByCondition, Collapse(records))
    ensures forall c | c != "" :: HasCondition(records, c) <==> HasCondition(Collapse(records), c)
  {
    var ks := KeysOf(ByCondition, records);
    CollapseParts(records);
    if ks == [] {
      forall r | r in records ensures r.conditionId == "" {
        if r.conditionId != "" { KeyedIsKey(ByCondition, records, r); }
      }
    } else {
      KeysStayDistinct(ByCondition, GroupOf(ByCondition, records, ""),
                       Survivors(ByCondition, CollapseGroup, records, ks));
    }
    forall c | c != "" ensures HasCondition(records, c) <==> HasCondition(Collapse(records), c) {
      ConditionsKept(records, c);
    }
  }

  /** Rows without a condition come through as they are and in their order, and the result
      is in time order. */
  lemma CollapsePassesOthers(records: seq<Row>)
    requires Sorted(Earlier, records)
    ensures Sorted(Earlier, Collapse(records))
    ensures GroupOf(ByCondition, Collapse(records), "") == GroupOf(ByCondition, records, "")
  {
    hide Sorted, OrderOn;
    RegroupSorted(ByCondition, CollapseGroup, records);
    var ks, none := KeysOf(ByCondition, records), Under(ByCondition, "");
    var pass, kept := Filter(none, records), Survivors(ByCondition, CollapseGroup, records, ks);
    CollapseParts(records);
    FilterSorted(none, records);
    if ks != [] {
      PassInOrder(none, pass, kept);
    }
  }

  lemma PassInOrder(p: Row -> bool, pass: seq<Row>, kept: seq<Row>)
    requires Sorted(Earlier, pass)
    requires forall r | r in pass :: p(r)
    requires forall r | r in kept :: !p(r)
    ensures Filter(p, StableSort(Earlier, pass + kept)) == pass
  {
    hide Sorted, OrderOn;
    EarlierIsOrder(pass + kept);
    SortFilter(Earlier, p, pass + kept);
    FilterConcat(p, pass, kept);
    FilterAll(p, pass);
    FilterNone(p, kept);
    assert pass + [] == pass;
    SortedIsFixed(Earlier, pass);
  }

  lemma ConditionsKept(records: seq<Row>, c: string)
    requires c != ""
    ensures HasCondition(records, c) <==> HasCondition(Collapse(records), c)
  {
    KeysAreKeys(ByCondition, records);
    if r :| r in records && r.conditionId == c {
      CollapseSurvivor(records, c);
      var m := CollapseGroup(StableSort(Earlier, GroupOf(ByCondition, records, c)));
      RegroupMembers(ByCondition, CollapseGroup, records, m);
    }
    if m :| m in Collapse(records) && m.conditionId == c {
      RegroupMembers(ByCondition, CollapseGroup, records, m);
      if !(m in records) {
        var k :| k in KeysOf(ByCondition, records) &&
                 m == CollapseGroup(StableSort(Earlier, GroupOf(ByCondition, records, k)));
        CollapseSurvivor(records, k);
      }
    }
  }

  // ---- Conservation of observations ------------------------------------------------------------

  function TotalCount(s: seq<Row>): nat {
    if s == [] then 0 else TotalCount(s[..|s|-1]) + s[|s|-1].count
  }

  lemma {:induction false} CountInsert(s: seq<Row>, x: Row)
    ensures TotalCount(Insert(Earlier, s, x)) == TotalCount(s) + x.count
  {
    if s != [] && !Earlier(s[|s|-1], x) { CountInsert(s[..|s|-1], x); }
  }

  lemma {:induction false} CountSort(s: seq<Row>)
    ensures TotalCount(StableSort(Earlier, s)) == TotalCount(s)
  {
    if s != [] {
      CountSort(s[..|s|-1]);
      CountInsert(StableSort(Earlier, s[..|s|-1]), s[|s|-1]);
    }
  }

  lemma {:induction false} CountConcat(a: seq<Row>, b: seq<Row>)
    ensures TotalCount(a + b) == TotalCount(a) + TotalCount(b)
  {
    if b == [] {
      assert a + b == a;
    } else {
      assert (a + b)[..|a + b|-1] == a + b[..|b|-1];
      CountConcat(a, b[..|b|-1]);
    }
  }

  lemma {:induction false} CountOnes(s: seq<Row>)
    requires forall r | r in s :: r.count == 1
    ensures TotalCount(s) == |s|
  {
    if s != [] {
      assert s == s[..|s|-1] + [s[|s|-1]];
      CountOnes(s[..|s|-1]);
    }
  }

  ghost function GroupSizes(records: seq<Row>, ks: seq<string>): nat {
    if ks == [] then 0 else GroupSizes(records, ks[..|ks|-1]) + |GroupOf(ByCondition, records, ks[|ks|-1])|
  }

  lemma {:induction false} GroupSizesAppend(t: seq<Row>, x: Row, ks: seq<string>)
    requires forall i, j | 0 <= i < j < |ks| :: ks[i] != ks[j]
    ensures GroupSizes(t + [x], ks) == GroupSizes(t, ks) + if x.conditionId in ks then 1 else 0
  {
    if ks != [] {
      var init, k := ks[..|ks|-1], ks[|ks|-1];
      GroupSizesAppend(t, x, init);
      FilterAppend(Under(ByCondition, k), t, x);
      assert ks == init + [k];
    }
  }

  /** Passing rows and groups together are all the rows. */
  lemma {:induction false} GroupsCover(records: seq<Row>)
    ensures |GroupOf(ByCondition, records, "")| + GroupSizes(records, KeysOf(ByCondition, records)) == |records|
  {
    if records != [] {
      var t, x := records[..|records|-1], records[|records|-1];
      var ks := KeysOf(ByCondition, t);
      assert records == t + [x];
      GroupsCover(t);
      KeysAreKeys(ByCondition, t);
      KeysAppend(ByCondition, t, x);
      FilterAppend(Under(ByCondition, ""), t, x);
      GroupSizesAppend(t, x, ks);
      if x.conditionId != "" && x.conditionId !in ks {
        FilterAppend(Under(ByCondition, x.conditionId), t, x);
        FilterNone(Under(ByCondition, x.conditionId), t);
        assert (ks + [x.conditionId])[..|ks|] == ks;
        GroupSizesAppend(t, x, ks);
      }
    }
  }

  lemma {:induction false} CountSurvivors(records: seq<Row>, ks: seq<string>)
    requires forall r | r in records :: r.count == 1
    requires forall k | k in ks :: k in KeysOf(ByCondition, records)
    ensures TotalCount(Survivors(ByCondition, CollapseGroup, records, ks)) == GroupSizes(records, ks)
  {
    if ks != [] {
      var k := ks[|ks|-1];
      assert k in ks;
      CountSurvivors(records, ks[..|ks|-1]);
      var raw := GroupOf(ByCondition, records, k);
      var g := StableSort(Earlier, raw);
      CollapseSurvivor(records, k);
      EarlierIsOrder(raw);
      StableSortSorts(Earlier, raw);
      assert g[0] in g;
    }
  }

  /** Conservation: collapsing observations that each count one keeps their total. */
  lemma CollapseConservesCount(records: seq<Row>)
    requires forall r | r in records :: r.count == 1
    ensures TotalCount(Collapse(records)) == TotalCount(records) == |records|
  {
    var ks := KeysOf(ByCondition, records);
    var pass, kept := GroupOf(ByCondition, records, ""), Survivors(ByCondition, CollapseGroup, records, ks);
    CountOnes(records);
    if ks != [] {
      CountSort(pass + kept);
      CountConcat(pass, kept);
      forall r | r in pass ensures r.count == 1 {
        FilterMember(Under(ByCondition, ""), records, r);
      }
      CountOnes(pass);
      CountSurvivors(records, ks);
      GroupsCover(records);
    }
  }

  /** The transitions are those of the group's severity changes: each of them once, in the
      order of the group. */
  ghost predicate TellsBumps(ts: seq<SeverityTransition>, g: seq<Row>, at: seq<nat>) {
    && |at| == |ts|
    && (forall k | 0 <= k < |at| :: at[k] < |g| && Bumped(g[at[k]]) &&
          ts[k].frm == g[at[k]].prevSeverity && ts[k].to == g[at[k]].severity && ts[k].at == g[at[k]].at)
    && (forall i, j | 0 <= i < j < |at| :: at[i] < at[j])
    && (forall n | 0 <= n < |g| && Bumped(g[n]) :: n in at)
  }

  /** The observation has a severity other than the one it had before. */
  ghost predicate Bumped(r: Row) {
    && r.prevSeverity != "" && r.severity != ""
    && r.severity != r.prevSeverity
  }

  lemma {:induction false} BumpsAreBumps(g: seq<Row>) returns (at: seq<nat>)
    ensures TellsBumps(Bumps(g), g, at)
  {
    hide TellsBumps;
    if g == [] {
      at := [];
      NoBumps();
    } else {
      var init, last := g[..|g|-1], g[|g|-1];
      assert g == init + [last];
      at := BumpsAreBumps(init);
      OneMoreRow(Bumps(init), init, at, last);
      assert !IsBump(last) ==> Bumps(g) == Bumps(init);
      if IsBump(last) {
        at := at + [|init|];
      }
    }
  }

  lemma NoBumps()
    ensures TellsBumps([], [], [])
  {
  }

  lemma BumpIsBumped(r: Row)
    ensures IsBump(r) <==> Bumped(r)
  {
  }

  lemma OneMoreRow(ts: seq<SeverityTransition>, g: seq<Row>, at: seq<nat>, r: Row)
    requires TellsBumps(ts, g, at)
    ensures if IsBump(r) then TellsBumps(ts + [TransitionOf(r)], g + [r], at + [|g|]) else TellsBumps(ts, g + [r], at)
  {
    hide Bumped;
    assert IsBump(r) <==> Bumped(r) by { BumpIsBumped(r); }
    var more := at + [|g|];
    assert |g| in more && forall n | n in at :: n in more;
  }

  ghost predicate Records(o: DriftObservation, r: Row) {
    && o.at == r.at && o.severity == r.severity && o.prevSeverity == r.prevSeverity
    && o.lifecycle == r.lifecycle && o.detail == r.detail && o.driftId == r.driftId
  }

  /** What a collapsed row says about the observations of its condition. */
  ghost predicate TellsHistory(m: Row, g: seq<Row>) {
    && m.count == |g| && m.prevSeverity == ""
    && (forall r | r in g :: m.firstSeen <= r.at <= m.lastSeen)
    && (exists r :: r in g && r.at == m.firstSeen)
    && (exists r :: r in g && r.at == m.lastSeen)
    && m.at == m.lastSeen
    && |m.observations| == |g|
    && (forall i | 0 <= i < |g| :: Records(m.observations[i], g[i]))
    && (exists at :: TellsBumps(m.transitions, g, at))
  }

  lemma GroupSpan(g: seq<Row>)
    requires g != [] && Sorted(Earlier, g)
    ensures forall r | r in g :: g[0].at <= r.at <= g[|g|-1].at
  {
    var leq := Earlier;
    forall r | r in g ensures g[0].at <= r.at <= g[|g|-1].at {
      var k :| 0 <= k < |g| && g[k] == r;
      assert k > 0 ==> leq(g[0], g[k]);
      assert k < |g| - 1 ==> leq(g[k], g[|g|-1]);
    }
  }

  lemma CollapsedTellsHistory(g: seq<Row>)
    requires |g| > 1 && Sorted(Earlier, g)
    ensures TellsHistory(CollapseGroup(g), g)
  {
    hide Sorted, TellsBumps, FirstAttributed;
    var at := BumpsAreBumps(g);
    GroupSpan(g);
    assert g[0] in g && g[|g|-1] in g;
  }

  /** The row of a condition with several observations gives their number, the first and the
      last time, each of them in order, and every severity change in order. */
  lemma CollapsedRow(records: seq<Row>, m: Row)
    requires Sorted(Earlier, records)
    requires m in Collapse(records) && m.conditionId != ""
    requires |GroupOf(ByCondition, records, m.conditionId)| > 1
    ensures TellsHistory(m, GroupOf(ByCondition, records, m.conditionId))
  {
    RegroupMembers(ByCondition, CollapseGroup, records, m);
    var k :| k in KeysOf(ByCondition, records)
      && m == CollapseGroup(StableSort(Earlier, GroupOf(ByCondition, records, k)));
    CollapseSurvivor(records, k);
    GroupInOrder(records, k);
    FilterSorted(Under(ByCondition, k), records);
    CollapsedTellsHistory(GroupOf(ByCondition, records, k));
  }

  lemma {:induction false} FirstAttributedFinds(g: seq<Row>)
    ensures FirstAttributed(g).Some? <==> exists r :: r in g && r.outcome.Attributed()
    ensures FirstAttributed(g).Some? ==> FirstAttributed(g).value in g && FirstAttributed(g).value.outcome.Attributed()
  {
    if g != [] {
      FirstAttributedFinds(g[..|g|-1]);
      assert g == g[..|g|-1] + [g[|g|-1]];
    }
  }

  /** No outcome is lost in the collapse either. */
  lemma CollapsedOutcome(g: seq<Row>)
    requires g != []
    ensures CollapseGroup(g).outcome.Attributed() <==> exists r :: r in g && r.outcome.Attributed()
  {
    FirstAttributedFinds(g[..|g|-1]);
    assert g == g[..|g|-1] + [g[|g|-1]];
    if |g| == 1 { assert g[0] in g; }
  }

  // ---- Collapse, then merge -------------------------------------------------------------------------

  /** Rows as they are projected: single observations; a row with a condition is a drift with
      a trigger id of its own. */
  ghost predicate Projected(records: seq<Row>) {
    forall r | r in records ::
      && r.absorbed == {} && r.count == 1
      && (r.conditionId != "" ==> r.triggerEventId != "" && r.driftKind != "" && !Standalone(r))
  }

  /** Two conditions don't share an emit's id. */
  ghost predicate UnsharedTriggers(records: seq<Row>) {
    forall r, s | r in records && s in records && r.conditionId != "" && s.conditionId != "" &&
      r.triggerEventId == s.triggerEventId :: r.conditionId == s.conditionId
  }

  /** The trigger ids of all observations of a condition. */
  ghost function Triggers(records: seq<Row>, c: string): set<string> {
    set r | r in records && r.conditionId == c :: r.triggerEventId
  }

  /** A row that carries the trigger of an observation of the condition. */
  ghost predicate Carries(records: seq<Row>, c: string, m: Row) {
    !Standalone(m) && m.triggerEventId in Triggers(records, c)
  }

  /** The row that stands for condition `c` after the collapse. */
  ghost function ConditionRow(records: seq<Row>, c: string): Row {
    CollapseGroup(StableSort(Earlier, GroupOf(ByCondition, records, c)))
  }

  lemma CollapsedTriggers(g: seq<Row>)
    requires g != [] && forall r | r in g :: r.absorbed == {} && r.triggerEventId != ""
    ensures CollapseGroup(g).absorbed + {CollapseGroup(g).triggerEventId} == TriggersOf(g)
  {
    var early, last := g[..|g|-1], g[|g|-1];
    assert g == early + [last] && last in g;
    forall x | x in TriggersOf(g) ensures x in TriggersOf(early) + {last.triggerEventId} {
      var r :| r in g && r.triggerEventId != "" && r.triggerEventId == x;
      assert r in early || r == last;
    }
    forall x | x in TriggersOf(early) ensures x in TriggersOf(g) {
      var r :| r in early && r.triggerEventId != "" && r.triggerEventId == x;
      assert r in g;
    }
    if |g| == 1 { assert early == []; }
  }

  lemma ConditionRowMeans(records: seq<Row>, c: string)
    requires Projected(records) && c in KeysOf(ByCondition, records)
    ensures var m := ConditionRow(records, c);
            && m in Collapse(records) && m.conditionId == c && m.driftKind != "" && !Standalone(m)
            && m.triggerEventId != "" && Triggers(records, c) == m.absorbed + {m.triggerEventId}
  {
    hide CollapseGroup, Collapse;
    var m := ConditionRow(records, c);
    var g := StableSort(Earlier, GroupOf(ByCondition, records, c));
    KeysAreKeys(ByCondition, records);
    CollapseSurvivor(records, c);
    CollapseMember(records, c);
    CollapsedCondition(g, c);
    CollapsedTriggers(g);
    assert g[|g|-1] in g;
    assert Triggers(records, c) == TriggersOf(g);
  }

  lemma CollapseMember(records: seq<Row>, c: string)
    requires c in KeysOf(ByCondition, records)
    ensures ConditionRow(records, c) in Collapse(records)
  {
    RegroupMembers(ByCondition, CollapseGroup, records, ConditionRow(records, c));
  }

  /** A row of the collapse either passed through or stands for its condition. */
  lemma CollapseRows(records: seq<Row>, m: Row)
    requires Projected(records) && m in Collapse(records)
    ensures m.conditionId == "" ==> m in records && m.absorbed == {} && m.count == 1
    ensures m.conditionId != "" ==>
      m.conditionId in KeysOf(ByCondition, records) && m == ConditionRow(records, m.conditionId)
  {
    KeysAreKeys(ByCondition, records);
    RegroupMembers(ByCondition, CollapseGroup, records, m);
    if !(m in records && m.conditionId == "") {
      var k :| k in KeysOf(ByCondition, records)
        && m == CollapseGroup(StableSort(Earlier, GroupOf(ByCondition, records, k)));
      CollapseSurvivor(records, k);
    }
  }

  lemma TriggersUnshared(records: seq<Row>, c: string, d: string, x: string)
    requires UnsharedTriggers(records) && c != "" && d != ""
    requires x in Triggers(records, c) && x in Triggers(records, d)
    ensures c == d
  {
  }

  /** The collapse hands the merge unambiguous aliases. */
  lemma CollapseIsWellAliased(records: seq<Row>)
    requires Projected(records) && UnsharedTriggers(records)
    ensures WellAliased(Collapse(records))
  {
    var rows := Collapse(records);
    forall r | r in rows ensures RowAliases(records, r) {
      RowsAlias(records, r);
    }
    forall r, s, x | r in rows && s in rows && r.triggerEventId != "" && s.triggerEventId != "" &&
      x in r.absorbed && x in s.absorbed ensures r.triggerEventId == s.triggerEventId
    {
      TriggersUnshared(records, r.conditionId, s.conditionId, x);
    }
    forall r, s | r in rows && s in rows && s.triggerEventId != "" && r.triggerEventId in s.absorbed && r.absorbed != {}
      ensures r.triggerEventId == s.triggerEventId
    {
      TriggersUnshared(records, r.conditionId, s.conditionId, r.triggerEventId);
    }
  }

  /** A row that absorbed ids stands for a condition, and they are trigger ids of it. */
  ghost predicate RowAliases(records: seq<Row>, r: Row) {
    r.absorbed != {} ==>
      && r.conditionId != "" && r.conditionId in KeysOf(ByCondition, records)
      && r == ConditionRow(records, r.conditionId)
      && "" !in r.absorbed && r.absorbed <= Triggers(records, r.conditionId)
      && r.triggerEventId in Triggers(records, r.conditionId)
  }

  lemma RowsAlias(records: seq<Row>, r: Row)
    requires Projected(records) && r in Collapse(records)
    ensures RowAliases(records, r)
  {
    CollapseRows(records, r);
    if r.conditionId != "" { ConditionRowMeans(records, r.conditionId); }
    var c := r.conditionId;
    if c != "" {
      forall x | x in Triggers(records, c) ensures x != "" { }
    }
  }

  /** Rows that carry a trigger of a condition, and only those, merge with its row. */
  lemma MergesWithCondition(records: seq<Row>, c: string, x: Row)
    requires Projected(records) && UnsharedTriggers(records) && c in KeysOf(ByCondition, records)
    requires x in Collapse(records) && !Standalone(x)
    ensures MergeKey(AliasOf(Collapse(records)))(x) == ConditionRow(records, c).triggerEventId <==>
            x.triggerEventId in Triggers(records, c)
  {
    var rows, m := Collapse(records), ConditionRow(records, c);
    KeysAreKeys(ByCondition, records);
    CollapseIsWellAliased(records);
    ConditionRowMeans(records, c);
    MergeKeyMeans(rows, x);
    AliasMembers(rows, x.triggerEventId);
    if x.triggerEventId in AliasOf(rows) {
      var r :| r in rows && r.triggerEventId != "" && x.triggerEventId in r.absorbed &&
               AliasOf(rows)[x.triggerEventId] == r.triggerEventId;
      RowsAlias(records, r);
      if x.triggerEventId in Triggers(records, c) {
        TriggersUnshared(records, c, r.conditionId, x.triggerEventId);
      }
      if r.triggerEventId == m.triggerEventId {
        TriggersUnshared(records, c, r.conditionId, m.triggerEventId);
      }
    }
  }

  lemma BearerChosen(g: seq<Row>)
    requires exists r :: r in g && BearsCondition(r)
    ensures IsAnnotation(g[SurvivorIndex(g)]) || BearsCondition(g[SurvivorIndex(g)])
  {
    var r :| r in g && BearsCondition(r);
    var i :| 0 <= i < |g| && g[i] == r;
  }

  /** A row stands where the condition's row or an operator's annotation stood. */
  ghost predicate StandsForCondition(records: seq<Row>, c: string, m: Row) {
    exists r :: r in Collapse(records) && SameIdentity(m, r) && (IsAnnotation(r) || r == ConditionRow(records, c))
  }

  /** The group that a row carrying a trigger of the condition was merged from holds the
      condition's row. */
  lemma ConditionGroup(records: seq<Row>, c: string, m: Row) returns (g: seq<Row>)
    requires Projected(records) && UnsharedTriggers(records) && c in KeysOf(ByCondition, records)
    requires m in Merge(Collapse(records)) && Carries(records, c, m)
    ensures m == MergeGroup(g) && ConditionRow(records, c) in g
    ensures forall r | r in g :: r in Collapse(records) && Carries(records, c, r)
  {
    var rows := Collapse(records);
    var key, row := MergeKey(AliasOf(rows)), ConditionRow(records, c);
    ConditionRowMeans(records, c);
    ConditionKey(records, c, m);
    RegroupMembers(key, MergeGroup, rows, m);
    var k :| k in KeysOf(key, rows) && m == MergeGroup(StableSort(Earlier, GroupOf(key, rows, k)));
    var m', r' := SurvivorKey(rows, k);
    g := StableSort(Earlier, GroupOf(key, rows, k));
    SortedGroupMembers(key, rows, k);
    MergesWithCondition(records, c, row);
    forall r | r in g ensures r in rows && !Standalone(r) && r.triggerEventId in Triggers(records, c) {
      MergesWithCondition(records, c, r);
    }
  }

  /** No phantom plan row: after collapse and merge, whatever merged row carries the trigger
      id of any observation of a condition, absorbed ones included, is the one row of that
      condition, and it is an annotation or the collapsed condition row. */
  lemma NoPhantomPlanRow(records: seq<Row>, c: string, m: Row)
    requires Projected(records) && UnsharedTriggers(records) && c in KeysOf(ByCondition, records)
    requires m in Merge(Collapse(records)) && Carries(records, c, m)
    ensures StandsForCondition(records, c, m)
  {
    var g := ConditionGroup(records, c, m);
    ConditionRowMeans(records, c);
    KeysAreKeys(ByCondition, records);
    BearerChosen(g);
    MergedKeeps(g);
    var s := g[SurvivorIndex(g)];
    assert s in g;
    if !IsAnnotation(s) { BearerIsRow(records, c, s); }
  }

  lemma BearerIsRow(records: seq<Row>, c: string, s: Row)
    requires Projected(records) && UnsharedTriggers(records) && c != ""
    requires s in Collapse(records) && BearsCondition(s) && s.triggerEventId in Triggers(records, c)
    ensures s == ConditionRow(records, c)
  {
    CollapseRows(records, s);
    ConditionRowMeans(records, s.conditionId);
    TriggersUnshared(records, s.conditionId, c, s.triggerEventId);
  }

  lemma ConditionKey(records: seq<Row>, c: string, m: Row)
    requires Projected(records) && UnsharedTriggers(records) && c in KeysOf(ByCondition, records)
    requires m in Merge(Collapse(records)) && Carries(records, c, m)
    ensures MergeKey(AliasOf(Collapse(records)))(m) == ConditionRow(records, c).triggerEventId != ""
  {
    ConditionRowMeans(records, c);
    var r := MergeOrigin(Collapse(records), m);
    MergesWithCondition(records, c, r);
  }

  /** ... and there is exactly one: every condition has one merged row that carries a trigger
      of its observations, and no other does. */
  lemma ConditionMergedOnce(records: seq<Row>, c: string) returns (i: nat)
    requires Projected(records) && UnsharedTriggers(records) && c in KeysOf(ByCondition, records)
    ensures i < |Merge(Collapse(records))| && Carries(records, c, Merge(Collapse(records))[i])
    ensures forall j | 0 <= j < |Merge(Collapse(records))| && j != i ::
              !Carries(records, c, Merge(Collapse(records))[j])
  {
    hide Merge, MergeKey, Triggers, ConditionRow;
    var m := ConditionIsMerged(records, c);
    var rows := Collapse(records);
    var merged := Merge(rows);
    i :| 0 <= i < |merged| && merged[i] == m;
    ConditionKey(records, c, m);
    MergeKeysDistinct(rows, m);
    forall j | 0 <= j < |merged| && j != i ensures !Carries(records, c, merged[j]) {
      assert merged[j] in merged;
      if Carries(records, c, merged[j]) {
        ConditionKey(records, c, merged[j]);
      }
    }
  }

  /** The group of a condition's row leaves a merged row with one of the condition's triggers. */
  lemma ConditionIsMerged(records: seq<Row>, c: string) returns (m: Row)
    requires Projected(records) && UnsharedTriggers(records) && c in KeysOf(ByCondition, records)
    ensures m in Merge(Collapse(records)) && Carries(records, c, m)
  {
    hide Merge, MergeKey, Triggers, ConditionRow;
    var rows, row := Collapse(records), ConditionRow(records, c);
    ConditionRowMeans(records, c);
    assert row.triggerEventId in Triggers(records, c);
    MergesWithCondition(records, c, row);
    KeyedIsKey(MergeKey(AliasOf(rows)), rows, row);
    var r;
    m, r := SurvivorKey(rows, row.triggerEventId);
    SurvivorIsMerged(rows, row.triggerEventId);
    KeyMeansTrigger(rows, r);
    MergesWithCondition(records, c, r);
  }

  lemma SurvivorIsMerged(rows: seq<Row>, k: string)
    requires k in KeysOf(MergeKey(AliasOf(rows)), rows)
    ensures MergeGroup(StableSort(Earlier, GroupOf(MergeKey(AliasOf(rows)), rows, k))) in Merge(rows)
  {
    var key := MergeKey(AliasOf(rows));
    RegroupMembers(key, MergeGroup, rows, MergeGroup(StableSort(Earlier, GroupOf(key, rows, k))));
  }

  lemma KeyMeansTrigger(rows: seq<Row>, r: Row)
    ensures MergeKey(AliasOf(rows))(r) != "" ==> !Standalone(r)
  {
  }

  lemma MergeKeysDistinct(rows: seq<Row>, m: Row)
    requires m in Merge(rows) && MergeKey(AliasOf(rows))(m) != ""
    ensures DistinctKeys(MergeKey(AliasOf(rows)), Merge(rows))
  {
    var key := MergeKey(AliasOf(rows));
    var r := MergeOrigin(rows, m);
    KeyedIsKey(key, rows, r);
    MergeKeepsAndFolds(rows);
  }
}
