/** Per-agent sorted span storage with windowed queries (frontend/src/gantt/spatialIndex.ts). */
module SpanIndexing {
  import opened Common
  import opened Sorting

  /** The fields the index reads and writes; `detail` stands for the other fields an update
      copies (status, name, links, replaced, payloadRefs, attributes, error). */
  class Span {
    const id: string
    const startMs: int
    var agentId: string
    var endMs: Option<int>
    var detail: string

    constructor (id: string, agentId: string, startMs: int, endMs: Option<int>, detail: string)
      ensures this.id == id && this.startMs == startMs
      ensures this.agentId == agentId && this.endMs == endMs && this.detail == detail
    {
      this.id, this.startMs, this.agentId, this.endMs, this.detail := id, startMs, agentId, endMs, detail;
    }
  }

  /** 64 ms buckets, 1024 of them: how far before the window the backward walk goes on. */
  const HORIZON_MS: int := 64 * 1024

  predicate StartsNoLater(a: Span, b: Span) {
    a.startMs <= b.startMs
  }

  function RowOf(agents: map<string, seq<Span>>, agentId: string): seq<Span> {
    if agentId in agents then agents[agentId] else []
  }

  ghost predicate GoodRow(row: seq<Span>) {
    Sorted(StartsNoLater, row) && Distinct(row)
  }

  /** Rows are sorted without repeats and hold exactly the spans of the id map. */
  ghost predicate Indexed(agents: map<string, seq<Span>>, byId: map<string, Span>) {
    && (forall a | a in agents :: GoodRow(agents[a]))
    && (forall a, s | a in agents && s in agents[a] :: s.id in byId && byId[s.id] == s)
    && (forall id | id in byId :: byId[id].id == id)
  }

  /** Every span of the id map sits in the row of its owner, and in no other. */
  ghost predicate Owned(agents: map<string, seq<Span>>, byId: map<string, Span>, owner: map<string, string>) {
    && owner.Keys == byId.Keys
    && (forall id | id in byId :: byId[id] in RowOf(agents, owner[id]))
    && (forall a, id | a in agents && id in byId && byId[id] in agents[a] :: owner[id] == a)
  }

  function LastMs(s: Span): int
    reads s
  {
    match s.endMs case None => s.startMs case Some(e) => e
  }

  // ---- Windowed query ---------------------------------------------------------------

  /** The naive filter: the span starts before the window ends, and starts in the window or
      is still open at its start (an end equal to `t0` counts, an absent end is infinite). */
  ghost predicate Overlaps(s: Span, t0: int, t1: int)
    reads s
  {
    && s.startMs < t1
    && (t0 <= s.startMs || s.endMs.None? || t0 <= s.endMs.value)
  }

  /** No later span of the row starts before the horizon: the walk gets as far as `i`. */
  ghost predicate Reached(row: seq<Span>, i: nat, t0: int) {
    forall j | i < j < |row| :: t0 - HORIZON_MS <= row[j].startMs
  }

  /** Positions before the window come newest first, then positions in the window in order. */
  ghost predicate WalkOrder(at: seq<nat>, lo: nat) {
    forall j, k | 0 <= j < k < |at| ::
      if at[k] < lo then at[k] < at[j] < lo else at[j] < at[k]
  }

  /** `found` is what the query sees of the row: exactly the overlapping spans within reach,
      each once, in walking order. */
  ghost predicate Answers(row: seq<Span>, t0: int, t1: int, found: seq<Span>, at: seq<nat>, lo: nat)
    reads row
  {
    && |at| == |found| && lo <= |row|
    && (forall i | 0 <= i < |row| :: i < lo <==> row[i].startMs < t0)
    && WalkOrder(at, lo)
    && (forall k | 0 <= k < |at| :: at[k] < |row| && found[k] == row[at[k]]
          && Overlaps(row[at[k]], t0, t1) && Reached(row, at[k], t0))
    && (forall i | 0 <= i < |row| && Overlaps(row[i], t0, t1) && Reached(row, i, t0) :: i in at)
  }

  /** The query against the naive filter: nothing twice, nothing that does not overlap, and an
      overlapping span is missed exactly when a later span of the row starts more than the
      horizon before the window. */
  lemma QueryAgainstNaive(row: seq<Span>, t0: int, t1: int, found: seq<Span>, at: seq<nat>, lo: nat)
    requires GoodRow(row) && Answers(row, t0, t1, found, at, lo)
    ensures Distinct(found)
    ensures forall s | s in found ::
      s in row && s.startMs < t1 && (t0 <= s.startMs || s.endMs.None? || t0 <= s.endMs.value)
    ensures forall i | 0 <= i < |row| && row[i].startMs < t1
                       && (t0 <= row[i].startMs || row[i].endMs.None? || t0 <= row[i].endMs.value) ::
      row[i] !in found <==> exists j :: i < j < |row| && row[j].startMs < t0 - 65536
  {
    forall j, k | 0 <= j < k < |found| ensures found[j] != found[k] {
      assert at[j] != at[k];
    }
    forall i | 0 <= i < |row| && Overlaps(row[i], t0, t1)
      ensures row[i] in found <==> Reached(row, i, t0)
    {
      if row[i] in found {
        var k :| 0 <= k < |found| && found[k] == row[i];
        assert at[k] == i;
      }
      if i in at {
        var k :| 0 <= k < |at| && at[k] == i;
        assert found[k] in found;
      }
    }
  }

  // ---- Row lemmas -------------------------------------------------------------------

  lemma StartsOrder(s: seq<Span>)
    ensures OrderOn(StartsNoLater, s)
  {
  }

  lemma DistinctAppend<T>(s: seq<T>, x: T)
    requires Distinct(s) && x !in s
    ensures Distinct(s + [x])
  {
  }

  /** A new span stands behind all spans of its row that start no later, before all others. */
  lemma InsertBehindEquals(row: seq<Span>, s: Span)
    requires GoodRow(row)
    ensures exists k: nat :: k <= |row| && Insert(StartsNoLater, row, s) == row[..k] + [s] + row[k..]
              && (forall m | 0 <= m < k :: row[m].startMs <= s.startMs)
              && (forall m | k <= m < |row| :: s.startMs < row[m].startMs)
  {
    hide Distinct;
    var k := PlaceOf(row, s.startMs);
    InsertAt(StartsNoLater, row, s, k);
  }

  lemma {:induction false} PlaceOf(row: seq<Span>, startMs: int) returns (k: nat)
    requires Sorted(StartsNoLater, row)
    ensures k <= |row|
    ensures forall m | 0 <= m < k :: row[m].startMs <= startMs
    ensures forall m | k <= m < |row| :: startMs < row[m].startMs
  {
    if row == [] || row[|row| - 1].startMs <= startMs {
      k := |row|;
      var leq := StartsNoLater;
      assert forall m | 0 <= m < |row| - 1 :: leq(row[m], row[|row| - 1]);
    } else {
      var init := row[..|row| - 1];
      var leq := StartsNoLater;
      assert forall i, j | 0 <= i < j < |init| :: leq(row[i], row[j]);
      k := PlaceOf(init, startMs);
      assert forall m | k <= m < |row| :: startMs < row[m].startMs;
    }
  }

  function StartingAt(t: int): Span -> bool {
    (s: Span) => s.startMs == t
  }

  /** Of spans that start together, those that were in the row come first and keep their
      order, and so do those that are moved to it. */
  lemma ReassignKeepsOrder(agents: map<string, seq<Span>>, from: string, to: string, t: int)
    requires from != to
    ensures to in Reassigned(agents, from, to) && from !in Reassigned(agents, from, to)
    ensures Filter(StartingAt(t), Reassigned(agents, from, to)[to]) ==
            Filter(StartingAt(t), RowOf(agents, to)) + Filter(StartingAt(t), RowOf(agents, from))
  {
    var all := RowOf(agents, to) + RowOf(agents, from);
    StartsOrder(all);
    StableSortIsStable(StartsNoLater, StartingAt(t), all);
    FilterConcat(StartingAt(t), RowOf(agents, to), RowOf(agents, from));
  }

  lemma InsertGoodRow(row: seq<Span>, s: Span, r: seq<Span>)
    requires GoodRow(row) && s !in row && r == Insert(StartsNoLater, row, s)
    ensures GoodRow(r) && forall x :: x in r <==> x in row || x == s
  {
    hide Insert, Sorted, OrderOn;
    StartsOrder(row + [s]);
    InsertSorted(StartsNoLater, row, s);
    InsertElements(StartsNoLater, row, s);
    DistinctAppend(row, s);
    assert multiset(row + [s]) == multiset(Insert(StartsNoLater, row, s));
    DistinctPermutation(row + [s], Insert(StartsNoLater, row, s));
    SameElements(row + [s], Insert(StartsNoLater, row, s));
  }

  /** The row without the element at `k`. */
  ghost function Cut<T>(row: seq<T>, k: nat): seq<T>
    requires k < |row|
  {
    row[..k] + row[k + 1..]
  }

  lemma CutGoodRow(row: seq<Span>, k: nat, c: seq<Span>)
    requires GoodRow(row) && k < |row| && c == Cut(row, k)
    ensures GoodRow(c) && forall x :: x in c <==> x in row && x != row[k]
  {
    assert forall i | 0 <= i < |c| :: c[i] == row[if i < k then i else i + 1];
    forall x | x in row && x != row[k] ensures x in c {
      var i :| 0 <= i < |row| && row[i] == x;
      assert c[if i < k then i else i - 1] == x;
    }
  }

  // ---- What each operation does to rows, ids and owners ------------------------------

  lemma RowIsGood(agents: map<string, seq<Span>>, byId: map<string, Span>, a: string)
    requires Indexed(agents, byId)
    ensures GoodRow(RowOf(agents, a)) && Sorted(StartsNoLater, RowOf(agents, a))
    ensures forall s | s in RowOf(agents, a) :: s.id in byId && byId[s.id] == s
  {
  }

  lemma AddIndexed(agents: map<string, seq<Span>>, byId: map<string, Span>, owner: map<string, string>, a: string,
                   s: Span, r: seq<Span>)
    requires Indexed(agents, byId) && Owned(agents, byId, owner) && s.id !in byId
    requires r == Insert(StartsNoLater, RowOf(agents, a), s)
    ensures Indexed(agents[a := r], byId[s.id := s]) && Owned(agents[a := r], byId[s.id := s], owner[s.id := a])
  {
    hide Sorted, Insert, GoodRow;
    RowIsGood(agents, byId, a);
    InsertGoodRow(RowOf(agents, a), s, r);
  }

  lemma CutIndexed(agents: map<string, seq<Span>>, byId: map<string, Span>, owner: map<string, string>, id: string,
                   k: nat, r: seq<Span>)
    requires Indexed(agents, byId) && Owned(agents, byId, owner) && id in byId
    requires var a := owner[id]; a in agents && k < |agents[a]| && agents[a][k] == byId[id] && r == Cut(agents[a], k)
    ensures Indexed(agents[owner[id] := r], byId - {id}) && Owned(agents[owner[id] := r], byId - {id}, owner - {id})
  {
    hide Sorted, GoodRow, Cut;
    CutGoodRow(agents[owner[id]], k, r);
  }

  /** The ids of `moved` change owner. */
  ghost function Moved(owner: map<string, string>, byId: map<string, Span>, moved: seq<Span>,
                       to: string): map<string, string>
    requires owner.Keys == byId.Keys
  {
    map id | id in owner :: if byId[id] in moved then to else owner[id]
  }

  lemma MovedAt(owner: map<string, string>, byId: map<string, Span>, moved: seq<Span>, to: string)
    requires owner.Keys == byId.Keys
    ensures Moved(owner, byId, moved, to).Keys == byId.Keys
    ensures forall id | id in byId :: Moved(owner, byId, moved, to)[id] == if byId[id] in moved then to else owner[id]
  {
  }

  ghost function Reassigned(agents: map<string, seq<Span>>, from: string, to: string): map<string, seq<Span>> {
    agents[to := StableSort(StartsNoLater, RowOf(agents, to) + RowOf(agents, from))] - {from}
  }

  lemma MergedRow(dst: seq<Span>, src: seq<Span>, r: seq<Span>)
    requires GoodRow(dst) && GoodRow(src) && forall x, y | x in dst && y in src :: x != y
    requires r == StableSort(StartsNoLater, dst + src)
    ensures GoodRow(r) && forall x :: x in r <==> x in dst || x in src
  {
    hide Sorted, StableSort, OrderOn;
    Disjoint(dst, src);
    StartsOrder(dst + src);
    StableSortSorts(StartsNoLater, dst + src);
    DistinctPermutation(dst + src, StableSort(StartsNoLater, dst + src));
  }

  lemma RowsShareNothing(agents: map<string, seq<Span>>, byId: map<string, Span>, owner: map<string, string>,
                         a: string, b: string)
    requires Indexed(agents, byId) && Owned(agents, byId, owner) && a != b
    ensures forall x, y | x in RowOf(agents, a) && y in RowOf(agents, b) :: x != y
  {
    hide GoodRow;
    forall x, y | x in RowOf(agents, a) && y in RowOf(agents, b) ensures x != y {
      assert owner[x.id] == a && owner[y.id] == b;
    }
  }

  lemma ReassignIndexed(agents: map<string, seq<Span>>, byId: map<string, Span>, owner: map<string, string>,
                        from: string, to: string)
    requires Indexed(agents, byId) && Owned(agents, byId, owner) && from != to && from in agents
    ensures Indexed(Reassigned(agents, from, to), byId)
    ensures Owned(Reassigned(agents, from, to), byId, Moved(owner, byId, agents[from], to))
  {
    hide GoodRow, StableSort;
    RowIsGood(agents, byId, from);
    RowIsGood(agents, byId, to);
    RowsShareNothing(agents, byId, owner, to, from);
    var r := StableSort(StartsNoLater, RowOf(agents, to) + RowOf(agents, from));
    MergedRow(RowOf(agents, to), RowOf(agents, from), r);
    MergedIndexed(agents, byId, owner, from, to, r);
  }

  lemma MergedIndexed(agents: map<string, seq<Span>>, byId: map<string, Span>, owner: map<string, string>,
                      from: string, to: string, r: seq<Span>)
    requires Indexed(agents, byId) && Owned(agents, byId, owner) && from != to && from in agents
    requires GoodRow(r) && forall x :: x in r <==> x in RowOf(agents, to) || x in agents[from]
    ensures Indexed(agents[to := r] - {from}, byId)
    ensures Owned(agents[to := r] - {from}, byId, Moved(owner, byId, agents[from], to))
  {
    hide GoodRow;
    RowIsGood(agents, byId, to);
    var agents', owner' := agents[to := r] - {from}, Moved(owner, byId, agents[from], to);
    forall id | id in byId ensures byId[id] in RowOf(agents', owner'[id]) {
      MergedOwner(agents, byId, owner, from, to, id);
    }
    forall a, id | a in agents' && id in byId && byId[id] in agents'[a] ensures owner'[id] == a {
      MergedOwner(agents, byId, owner, from, to, id);
    }
  }

  lemma MergedOwner(agents: map<string, seq<Span>>, byId: map<string, Span>, owner: map<string, string>,
                    from: string, to: string, id: string)
    requires Owned(agents, byId, owner) && from != to && from in agents && id in byId
    ensures byId[id] in agents[from] <==> owner[id] == from
    ensures Moved(owner, byId, agents[from], to)[id] == if owner[id] == from then to else owner[id]
    ensures byId[id] in RowOf(agents, owner[id])
    ensures forall a | a in agents && byId[id] in agents[a] :: a == owner[id]
  {
  }

  lemma Disjoint<T>(a: seq<T>, b: seq<T>)
    requires Distinct(a) && Distinct(b) && forall x, y | x in a && y in b :: x != y
    ensures Distinct(a + b)
  {
    forall i, j | 0 <= i < j < |a + b| ensures (a + b)[i] != (a + b)[j] {
      assert i < |a| ==> (a + b)[i] in a;
      assert j >= |a| ==> (a + b)[j] in b;
    }
  }

  lemma DropIndexed(agents: map<string, seq<Span>>, byId: map<string, Span>, owner: map<string, string>, from: string)
    requires Indexed(agents, byId) && Owned(agents, byId, owner) && RowOf(agents, from) == []
    ensures Indexed(agents - {from}, byId) && Owned(agents - {from}, byId, owner)
  {
    hide GoodRow;
  }

  /** The stored span takes the new one's fields; its agent stays, and so do all others. */
  twostate predicate Updated(stored: Span, span: Span, all: set<Span>)
    reads stored, all
  {
    && stored.endMs == old(span.endMs) && stored.detail == old(span.detail) && stored.agentId == old(stored.agentId)
    && forall s | s in all && s != stored :: s.agentId == old(s.agentId) && s.endMs == old(s.endMs)
        && s.detail == old(s.detail)
  }

  twostate predicate Untouched(spans: set<Span>)
    reads spans
  {
    forall s | s in spans :: s.agentId == old(s.agentId) && s.endMs == old(s.endMs) && s.detail == old(s.detail)
  }

  class SpanIndex {
    var agents: map<string, seq<Span>>
    var byId: map<string, Span>
    var globalMaxEndMs: int

    ghost function Owner(): (o: map<string, string>)
      reads this`byId, byId.Values
      ensures o.Keys == byId.Keys
    {
      map id | id in byId :: byId[id].agentId
    }

    /** No stored span ends after the recorded maximum. */
    ghost predicate Bounded()
      reads this`byId, this`globalMaxEndMs, byId.Values
    {
      forall id | id in byId :: LastMs(byId[id]) <= globalMaxEndMs
    }

    /** The recorded maximum covers the end of every span that has one and the start of every
        other. */
    lemma MaximumCovers(id: string)
      requires Bounded() && id in byId
      ensures byId[id].endMs.Some? ==> byId[id].endMs.value <= globalMaxEndMs
      ensures byId[id].endMs.None? ==> byId[id].startMs <= globalMaxEndMs
    {
    }

    ghost predicate Valid()
      reads this, byId.Values
    {
      Indexed(agents, byId) && Owned(agents, byId, Owner()) && Bounded()
    }

    constructor ()
      ensures Valid() && agents == map[] && byId == map[] && globalMaxEndMs == 0
    {
      agents, byId, globalMaxEndMs := map[], map[], 0;
    }

    /** A span with a new id joins its agent's row behind every span that starts no later; a
        known id only updates the stored span. */
    method Append(span: Span)
      requires Valid()
      modifies this, byId.Values
      ensures Valid()
      ensures span.id in old(byId) ==>
        && agents == old(agents) && byId == old(byId)
        && Updated(old(byId)[span.id], span, old(byId.Values))
      ensures span.id !in old(byId) ==>
        && byId == old(byId)[span.id := span]
        && agents == old(agents)[span.agentId := Insert(StartsNoLater, RowOf(old(agents), span.agentId), span)]
        && Untouched(old(byId.Values))
      ensures globalMaxEndMs == Max(old(globalMaxEndMs), LastMs(byId[span.id]))
    {
      hide Indexed, Owned, Insert;
      if span.id in byId {
        Amend(span);
      } else {
        Add(span);
      }
    }

    method Add(span: Span)
      requires Valid() && span.id !in byId
      modifies this
      ensures Valid()
      ensures byId == old(byId)[span.id := span]
      ensures agents == old(agents)[span.agentId := Insert(StartsNoLater, RowOf(old(agents), span.agentId), span)]
      ensures globalMaxEndMs == Max(old(globalMaxEndMs), LastMs(span))
    {
      hide Indexed, Owned, Insert;
      RowIsGood(agents, byId, span.agentId);
      ghost var owner := Owner()[span.id := span.agentId];
      var row := Place(RowOf(agents, span.agentId), span);
      AddIndexed(agents, byId, Owner(), span.agentId, span, row);
      byId := byId[span.id := span];
      agents := agents[span.agentId := row];
      assert Owner() == owner;
      assert forall id | id in byId && id != span.id :: byId[id] == old(byId)[id];
      RaiseMax(span);
      assert Owner() == owner;
    }

    method RaiseMax(span: Span)
      requires forall id | id in byId && byId[id] != span :: LastMs(byId[id]) <= globalMaxEndMs
      modifies this`globalMaxEndMs
      ensures Bounded() && globalMaxEndMs == Max(old(globalMaxEndMs), LastMs(span))
    {
      var endMs := LastMs(span);
      if endMs > globalMaxEndMs {
        globalMaxEndMs := endMs;
      }
    }

    /** A stored span takes the new fields and keeps its place, start and agent. */
    method Amend(span: Span)
      requires Valid() && span.id in byId
      modifies this`globalMaxEndMs, byId[span.id]
      ensures Valid() && Updated(byId[span.id], span, old(byId.Values))
      ensures globalMaxEndMs == Max(old(globalMaxEndMs), LastMs(byId[span.id]))
    {
      hide Indexed, Owned;
      ghost var owner := Owner();
      var existing := byId[span.id];
      existing.endMs := span.endMs;
      existing.detail := span.detail;
      assert Owner() == owner;
      assert forall id | id in byId && byId[id] != existing :: LastMs(byId[id]) == old(LastMs(byId[id]));
      RaiseMax(existing);
      assert Owner() == owner;
    }

    /** An update of an unknown id stores the span. */
    method Update(span: Span)
      requires Valid()
      modifies this, byId.Values
      ensures Valid()
      ensures span.id in old(byId) ==>
        && agents == old(agents) && byId == old(byId)
        && Updated(old(byId)[span.id], span, old(byId.Values))
      ensures span.id !in old(byId) ==>
        && byId == old(byId)[span.id := span]
        && agents == old(agents)[span.agentId := Insert(StartsNoLater, RowOf(old(agents), span.agentId), span)]
        && Untouched(old(byId.Values))
      ensures globalMaxEndMs == Max(old(globalMaxEndMs), LastMs(byId[span.id]))
    {
      hide Indexed, Owned, Insert;
      if span.id !in byId {
        Append(span);
        return;
      }
      Amend(span);
    }

    /** The span leaves its row and the id map; an unknown id changes nothing. */
    method Remove(id: string)
      requires Valid()
      modifies this`agents, this`byId
      ensures Valid() && byId == old(byId) - {id}
      ensures id !in old(byId) ==> agents == old(agents)
      ensures id in old(byId) ==>
        exists k: nat :: k < |RowOf(old(agents), old(byId[id].agentId))|
          && RowOf(old(agents), old(byId[id].agentId))[k] == old(byId[id])
          && agents == old(agents)[old(byId[id].agentId) := Cut(RowOf(old(agents), old(byId[id].agentId)), k)]
    {
      hide Owned, Indexed;
      if id !in byId {
        assert byId == byId - {id};
        return;
      }
      var existing := byId[id];
      OwnerRow(id);
      var row := agents[existing.agentId];
      var k := IndexOfId(row, existing);
      IdIsUnique(existing.agentId, k, id);
      assert RowOf(agents, existing.agentId) == row;
      CutIndexed(agents, byId, Owner(), id, k, row[..k] + row[k + 1..]);
      ghost var owner := Owner() - {id};
      agents := agents[existing.agentId := row[..k] + row[k + 1..]];
      byId := byId - {id};
      assert Owner() == owner;
    }

    lemma OwnerRow(id: string)
      requires Valid() && id in byId
      ensures byId[id].id == id
      ensures byId[id].agentId in agents && byId[id] in agents[byId[id].agentId]
    {
      assert Owner()[id] == byId[id].agentId;
    }

    lemma IdIsUnique(a: string, k: nat, id: string)
      requires Valid() && a in agents && k < |agents[a]| && agents[a][k].id == id
      ensures id in byId && agents[a][k] == byId[id]
    {
      assert agents[a][k] in agents[a];
    }

    /** Every span of one agent moves to another agent's row, keeping both rows' order among
        equal starts; nothing happens for an empty name or a move onto itself. */
    method ReassignAgent(from: string, to: string)
      requires Valid()
      modifies this`agents, byId.Values
      ensures Valid() && byId == old(byId) && globalMaxEndMs == old(globalMaxEndMs)
      ensures from == "" || to == "" || from == to ==> agents == old(agents) && Untouched(byId.Values)
      ensures from != "" && to != "" && from != to ==>
        && agents == (if RowOf(old(agents), from) == [] then old(agents) - {from}
                      else Reassigned(old(agents), from, to))
        && (forall s | s in byId.Values ::
              s.agentId == (if s in RowOf(old(agents), from) then to else old(s.agentId))
              && s.endMs == old(s.endMs) && s.detail == old(s.detail))
    {
      hide Owned, Indexed, Moved, StableSort;
      if from == "" || to == "" || from == to {
        return;
      }
      if from !in agents || agents[from] == [] {
        DropIndexed(agents, byId, Owner(), from);
        agents := agents - {from};
        return;
      }
      ReassignIndexed(agents, byId, Owner(), from, to);
      ghost var owner := Moved(Owner(), byId, agents[from], to);
      MovedAt(Owner(), byId, agents[from], to);
      RowsAreStored(from);
      var merged := MoveSpans(RowOf(agents, to), agents[from], to) by { DestinationSorted(to); }
      agents := agents[to := merged] - {from};
      assert Owner() == owner;
    }

    lemma RowsAreStored(a: string)
      requires Valid() && a in agents
      ensures forall s | s in agents[a] :: s in byId.Values
    {
      forall s | s in agents[a] ensures s in byId.Values {
        assert byId[s.id] == s;
      }
    }

    lemma DestinationSorted(a: string)
      requires Valid()
      ensures Sorted(StartsNoLater, RowOf(agents, a))
    {
    }

    /** The window query: what `Answers` says, appended to what the caller has so far. */
    method QueryAgent(agentId: string, t0: int, t1: int, sofar: seq<Span>) returns (out: seq<Span>)
      requires Valid()
      ensures |sofar| <= |out| && out[..|sofar|] == sofar
      ensures exists at, lo :: Answers(RowOf(agents, agentId), t0, t1, out[|sofar|..], at, lo)
    {
      hide Owned;
      out := sofar;
      var spans := RowOf(agents, agentId);
      var found, at, lo := Walk(spans, t0, t1);
      out := sofar + found;
      assert out[|sofar|..] == found;
    }
  }

  function Max(a: int, b: int): int {
    if a < b then b else a
  }

  method IndexOfId(row: seq<Span>, span: Span) returns (k: nat)
    requires span in row
    ensures k < |row| && row[k].id == span.id
  {
    k := 0;
    while row[k].id != span.id
      invariant k < |row|
      invariant forall j | 0 <= j < k :: row[j].id != span.id
      decreases |row| - k
    {
      LaterInRow(row, span, k);
      k := k + 1;
    }
  }

  lemma LaterInRow(row: seq<Span>, s: Span, k: nat)
    requires s in row && k < |row| && forall j | 0 <= j <= k :: row[j].id != s.id
    ensures k + 1 < |row|
  {
  }

  /** Binary search for the place behind every span that starts no later. */
  method FindPlace(row: seq<Span>, startMs: int) returns (lo: nat)
    requires Sorted(StartsNoLater, row)
    ensures lo <= |row|
    ensures forall m | 0 <= m < lo :: row[m].startMs <= startMs
    ensures forall m | lo <= m < |row| :: startMs < row[m].startMs
  {
    lo := 0;
    var hi := |row|;
    while lo < hi
      invariant lo <= hi <= |row|
      invariant forall m | 0 <= m < lo :: row[m].startMs <= startMs
      invariant forall m | hi <= m < |row| :: startMs < row[m].startMs
    {
      var mid := (lo + hi) / 2;
      assert forall m | 0 <= m < mid :: StartsNoLater(row[m], row[mid]);
      assert forall m | mid < m < |row| :: StartsNoLater(row[mid], row[m]);
      if row[mid].startMs <= startMs {
        lo := mid + 1;
      } else {
        hi := mid;
      }
    }
  }

  /** Binary search for the first span that starts at or after `t0`. */
  method FindStart(row: seq<Span>, t0: int) returns (lo: nat)
    requires Sorted(StartsNoLater, row)
    ensures lo <= |row|
    ensures forall m | 0 <= m < |row| :: m < lo <==> row[m].startMs < t0
  {
    lo := 0;
    var hi := |row|;
    while lo < hi
      invariant lo <= hi <= |row|
      invariant forall m | 0 <= m < lo :: row[m].startMs < t0
      invariant forall m | hi <= m < |row| :: t0 <= row[m].startMs
    {
      var mid := (lo + hi) / 2;
      assert forall m | 0 <= m < mid :: StartsNoLater(row[m], row[mid]);
      assert forall m | mid < m < |row| :: StartsNoLater(row[mid], row[m]);
      if row[mid].startMs < t0 {
        lo := mid + 1;
      } else {
        hi := mid;
      }
    }
  }

  method Place(row: seq<Span>, span: Span) returns (r: seq<Span>)
    requires Sorted(StartsNoLater, row)
    ensures r == Insert(StartsNoLater, row, span)
  {
    if row == [] || row[|row| - 1].startMs <= span.startMs {
      return row + [span];
    }
    var lo := FindPlace(row, span.startMs);
    InsertAt(StartsNoLater, row, span, lo);
    return row[..lo] + [span] + row[lo..];
  }

  method MoveSpans(dst: seq<Span>, src: seq<Span>, to: string) returns (r: seq<Span>)
    requires Sorted(StartsNoLater, dst)
    modifies src
    ensures r == StableSort(StartsNoLater, dst + src)
    ensures forall s | s in src :: s.agentId == to && s.endMs == old(s.endMs) && s.detail == old(s.detail)
  {
    hide StableSort, Insert, Sorted, OrderOn;
    r := dst;
    SortedIsFixed(StartsNoLater, dst);
    assert dst + src[..0] == dst;
    for i := 0 to |src|
      invariant r == StableSort(StartsNoLater, dst + src[..i]) && Sorted(StartsNoLater, r)
      invariant forall j | 0 <= j < i :: src[j].agentId == to
      invariant forall s | s in src :: s.endMs == old(s.endMs) && s.detail == old(s.detail)
    {
      src[i].agentId := to;
      r := Place(r, src[i]);
      assert dst + src[..i + 1] == (dst + src[..i]) + [src[i]];
      SortAppend(StartsNoLater, dst + src[..i], src[i]);
      StartsOrder(dst + src[..i + 1]);
      StableSortSorts(StartsNoLater, dst + src[..i + 1]);
    }
    assert dst + src[..|src|] == dst + src;
  }

  lemma WalkOrderEmpty(lo: nat)
    ensures WalkOrder([], lo)
  {
  }

  lemma WalkOrderAppend(at: seq<nat>, i: nat, lo: nat)
    requires WalkOrder(at, lo) && i < lo && forall k | 0 <= k < |at| :: i < at[k] < lo
    ensures WalkOrder(at + [i], lo)
  {
  }

  /** Back from the window's start, down to the first span that starts before the horizon. */
  method WalkBack(spans: seq<Span>, t0: int, t1: int, lo: nat) returns (out: seq<Span>, ghost at: seq<nat>)
    requires lo <= |spans| && forall i | 0 <= i < |spans| :: i < lo <==> spans[i].startMs < t0
    ensures |at| == |out| && WalkOrder(at, lo)
    ensures forall k | 0 <= k < |at| :: Found(spans, t0, t1, at[k], out[k]) && at[k] < lo
    ensures forall m | 0 <= m < lo && Overlaps(spans[m], t0, t1) && Reached(spans, m, t0) :: m in at
  {
    hide WalkOrder;
    out, at := [], [];
    WalkOrderEmpty(lo);
    var i := lo - 1;
    while i >= 0
      invariant -1 <= i < lo
      invariant |at| == |out| && WalkOrder(at, lo)
      invariant forall k | 0 <= k < |at| :: Found(spans, t0, t1, at[k], out[k]) && i < at[k] < lo
      invariant forall j | i < j < |spans| :: t0 - HORIZON_MS <= spans[j].startMs
      invariant forall j | i < j < lo && Overlaps(spans[j], t0, t1) :: j in at
    {
      var s := spans[i];
      if (s.endMs.None? || s.endMs.value >= t0) && s.startMs < t1 {
        assert Found(spans, t0, t1, i, s);
        WalkOrderAppend(at, i, lo);
        out, at := out + [s], at + [i];
      }
      if s.startMs < t0 - HORIZON_MS {
        break;
      }
      i := i - 1;
    }
  }

  /** Forward from the window's start to the first span that starts at or after its end. */
  method WalkForward(spans: seq<Span>, t0: int, t1: int, lo: nat) returns (out: seq<Span>, ghost at: seq<nat>)
    requires lo <= |spans| && forall i | 0 <= i < |spans| :: i < lo <==> spans[i].startMs < t0
    requires Sorted(StartsNoLater, spans)
    ensures |at| == |out| && forall j | 0 <= j < |at| :: at[j] == lo + j
    ensures forall k | 0 <= k < |at| :: Found(spans, t0, t1, at[k], out[k])
    ensures forall m | lo <= m < |spans| && Overlaps(spans[m], t0, t1) :: m in at
  {
    out, at := [], [];
    var j := lo;
    while j < |spans| && spans[j].startMs < t1
      invariant lo <= j <= |spans| && |at| == |out| == j - lo
      invariant forall k | 0 <= k < |at| :: at[k] == lo + k && Found(spans, t0, t1, at[k], out[k])
    {
      assert Found(spans, t0, t1, j, spans[j]);
      out, at := out + [spans[j]], at + [j];
      j := j + 1;
    }
    forall m | lo <= m < j ensures m in at {
      assert at[m - lo] == m;
    }
    assert forall m | j < m < |spans| :: StartsNoLater(spans[j], spans[m]);
  }

  ghost predicate Found(spans: seq<Span>, t0: int, t1: int, i: nat, s: Span)
    reads spans
  {
    i < |spans| && s == spans[i] && Overlaps(s, t0, t1) && Reached(spans, i, t0)
  }

  method Walk(spans: seq<Span>, t0: int, t1: int) returns (out: seq<Span>, ghost at: seq<nat>, ghost lo: nat)
    requires Sorted(StartsNoLater, spans)
    ensures Answers(spans, t0, t1, out, at, lo)
  {
    if spans == [] {
      return [], [], 0;
    }
    var first := FindStart(spans, t0);
    var behind, atBehind := WalkBack(spans, t0, t1, first);
    var ahead, atAhead := WalkForward(spans, t0, t1, first);
    out, at, lo := behind + ahead, atBehind + atAhead, first;
    JoinWalks(spans, t0, t1, first, behind, atBehind, ahead, atAhead);
  }

  lemma JoinWalks(spans: seq<Span>, t0: int, t1: int, lo: nat, behind: seq<Span>, atBehind: seq<nat>,
                  ahead: seq<Span>, atAhead: seq<nat>)
    requires lo <= |spans| && forall i | 0 <= i < |spans| :: i < lo <==> spans[i].startMs < t0
    requires |atBehind| == |behind| && WalkOrder(atBehind, lo)
    requires forall k | 0 <= k < |atBehind| :: Found(spans, t0, t1, atBehind[k], behind[k]) && atBehind[k] < lo
    requires forall m | 0 <= m < lo && Overlaps(spans[m], t0, t1) && Reached(spans, m, t0) :: m in atBehind
    requires |atAhead| == |ahead| && forall j | 0 <= j < |atAhead| :: atAhead[j] == lo + j
    requires forall k | 0 <= k < |atAhead| :: Found(spans, t0, t1, atAhead[k], ahead[k])
    requires forall m | lo <= m < |spans| && Overlaps(spans[m], t0, t1) :: m in atAhead
    ensures Answers(spans, t0, t1, behind + ahead, atBehind + atAhead, lo)
  {
    var at, found := atBehind + atAhead, behind + ahead;
    forall k | 0 <= k < |at|
      ensures at[k] < |spans| && found[k] == spans[at[k]] && Overlaps(spans[at[k]], t0, t1) && Reached(spans, at[k], t0)
    {
      assert Found(spans, t0, t1, at[k], found[k]);
    }
    hide Overlaps, Reached;
    assert WalkOrder(at, lo);
  }

  /** The limit is real: a span that is still running is missed by every window that opens
      more than the horizon after the start of a later span. */
  method RunningSpanIsMissed(t0: int, t1: int) returns (index: SpanIndex, running: Span, out: seq<Span>)
    requires HORIZON_MS + 1 < t0 < t1
    ensures index.Valid() && running in RowOf(index.agents, "a") && Overlaps(running, t0, t1)
    ensures running !in out
  {
    hide Indexed, Owned, Answers, Insert, SpanIndex.Valid, Updated;
    running := new Span("r", "a", 0, None, "");
    var later := new Span("l", "a", 1, Some(2), "");
    index := new SpanIndex();
    index.Append(running);
    InsertBothWays(running, later);
    assert RowOf(index.agents, "a") == [running];
    index.Append(later);
    ghost var row := RowOf(index.agents, "a");
    assert row == [running, later];
    out := index.QueryAgent("a", t0, t1, []);
    assert out[0..] == out;
    ghost var at, lo :| Answers(row, t0, t1, out[0..], at, lo);
    HiddenBehind(running, later, t0, t1, out, at, lo);
  }

  lemma InsertBothWays(a: Span, b: Span)
    requires a.startMs <= b.startMs
    ensures Insert(StartsNoLater, [], a) == [a] && Insert(StartsNoLater, [a], b) == [a, b]
  {
  }

  lemma HiddenBehind(first: Span, later: Span, t0: int, t1: int, out: seq<Span>, at: seq<nat>, lo: nat)
    requires Answers([first, later], t0, t1, out, at, lo) && first != later
    requires first.startMs <= later.startMs < t0 - HORIZON_MS && Overlaps(first, t0, t1)
    ensures first !in out
  {
    var row := [first, later];
    assert row[1].startMs < t0 - HORIZON_MS;
    QueryAgainstNaive(row, t0, t1, out, at, lo);
    assert row[0] !in out;
  }
}
