/** Plan diffs and the plan registry with its revision history (frontend/src/gantt/index.ts). */
module PlanRegistry {
  import opened Common
  import opened Sorting

  datatype TaskValue = TaskValue(id: string, title: string, description: string, assignee: string,
                                 status: string, boundSpanId: string, cancelReason: string)
  datatype Edge = Edge(fromId: string, toId: string)
  datatype PlanValue = PlanValue(id: string, revision: int, tasks: seq<TaskValue>, edges: seq<Edge>)

  // ---- Plan diff --------------------------------------------------------------------

  datatype Change = TitleChanged | DescriptionChanged | AssigneeChanged | StatusChanged
  datatype Modified = Modified(id: string, title: string, changes: seq<Change>)
  datatype PlanDiff = PlanDiff(added: seq<TaskValue>, removed: seq<(string, string)>, modified: seq<Modified>,
                               edgesChanged: bool)

  ghost predicate DistinctIds(tasks: seq<TaskValue>) {
    forall i, j | 0 <= i < j < |tasks| :: tasks[i].id != tasks[j].id
  }

  ghost function Ids(tasks: seq<TaskValue>): set<string> {
    set t | t in tasks :: t.id
  }

  /** The task an id stands for: the last one that has it. */
  ghost function Standing(tasks: seq<TaskValue>, id: string): (t: Option<TaskValue>)
    ensures t.None? <==> id !in Ids(tasks)
    ensures t.Some? ==> t.value in tasks && t.value.id == id
  {
    if tasks == [] then None
    else
      var (init, last) := (tasks[..|tasks| - 1], tasks[|tasks| - 1]);
      assert tasks == init + [last];
      if last.id == id then Some(last) else Standing(init, id)
  }

  /** The ids in the order of their first appearance, each once. */
  ghost function FirstIds(tasks: seq<TaskValue>): seq<string> {
    if tasks == [] then []
    else
      var (ids, id) := (FirstIds(tasks[..|tasks| - 1]), tasks[|tasks| - 1].id);
      if id in ids then ids else ids + [id]
  }

  function Changes(p: TaskValue, t: TaskValue): seq<Change> {
    (if p.title != t.title then [TitleChanged] else [])
    + (if p.description != t.description then [DescriptionChanged] else [])
    + (if p.assignee != t.assignee then [AssigneeChanged] else [])
    + (if p.status != t.status then [StatusChanged] else [])
  }

  ghost function NewTo(prev: seq<TaskValue>): TaskValue -> bool {
    var ids := Ids(prev);
    (t: TaskValue) => t.id !in ids
  }

  ghost function GoneFrom(next: seq<TaskValue>): string -> bool {
    var ids := Ids(next);
    (id: string) => id !in ids
  }

  /** The list names exactly the fields in which the tasks differ, each once, and in the order
      title, description, assignee, status. */
  ghost predicate Names(changes: seq<Change>, p: TaskValue, t: TaskValue) {
    && (TitleChanged in changes <==> p.title != t.title)
    && (DescriptionChanged in changes <==> p.description != t.description)
    && (AssigneeChanged in changes <==> p.assignee != t.assignee)
    && (StatusChanged in changes <==> p.status != t.status)
    && forall i, j | 0 <= i < j < |changes| :: Rank(changes[i]) < Rank(changes[j])
  }

  ghost function Rank(c: Change): nat {
    match c
    case TitleChanged => 0
    case DescriptionChanged => 1
    case AssigneeChanged => 2
    case StatusChanged => 3
  }

  ghost predicate Differ(p: TaskValue, t: TaskValue) {
    p.title != t.title || p.description != t.description || p.assignee != t.assignee || p.status != t.status
  }

  lemma ChangesAreNamed(p: TaskValue, t: TaskValue)
    ensures Names(Changes(p, t), p, t) && (Changes(p, t) != [] <==> Differ(p, t))
  {
  }

  /** The task is known and differs in some compared field. */
  ghost predicate IsAltered(prev: seq<TaskValue>, t: TaskValue) {
    Standing(prev, t.id).Some? && Differ(Standing(prev, t.id).value, t)
  }

  ghost predicate ReportsOne(prev: seq<TaskValue>, t: TaskValue, m: Modified) {
    && IsAltered(prev, t)
    && var p := Standing(prev, t.id).value;
       && m.id == t.id && m.title == (if t.title != "" then t.title else p.title)
       && Names(m.changes, p, t)
  }

  /** The altered tasks of `next`, at the positions `at`, each reported once and in order. */
  ghost predicate Reports(modified: seq<Modified>, prev: seq<TaskValue>, next: seq<TaskValue>, at: seq<nat>) {
    && |at| == |modified|
    && (forall k | 0 <= k < |at| :: at[k] < |next| && ReportsOne(prev, next[at[k]], modified[k]))
    && (forall i, j | 0 <= i < j < |at| :: at[i] < at[j])
    && (forall n | 0 <= n < |next| && IsAltered(prev, next[n]) :: n in at)
  }

  ghost predicate Lists(removed: seq<(string, string)>, prev: seq<TaskValue>, gone: seq<string>) {
    && |removed| == |gone|
    && forall i | 0 <= i < |removed| ::
         && removed[i].0 == gone[i] && Standing(prev, gone[i]).Some?
         && removed[i].1 == Standing(prev, gone[i]).value.title
  }

  /** What a diff means: the added tasks are those with a new id; the modified ones are the
      others whose title, description, assignee or status differ from the task their id stood
      for, with exactly the fields that differ; the removed ones are the ids no longer there,
      with the title they had. */
  ghost predicate Describes(diff: PlanDiff, prev: seq<TaskValue>, next: seq<TaskValue>) {
    && diff.added == Filter(NewTo(prev), next)
    && (exists at :: Reports(diff.modified, prev, next, at))
    && Lists(diff.removed, prev, Filter(GoneFrom(next), FirstIds(prev)))
  }

  /** Every id is added, removed or kept, the new ids are the old ones less the removed plus the
      added, and no id is removed twice. */
  lemma DiffPartitionsIds(diff: PlanDiff, prev: seq<TaskValue>, next: seq<TaskValue>)
    requires Describes(diff, prev, next)
    ensures var (added, removed) := (Ids(diff.added), set r | r in diff.removed :: r.0);
      && Ids(next) == (Ids(prev) - removed) + added
      && added !! Ids(prev) && removed <= Ids(prev) && removed !! added
      && (forall m | m in diff.modified :: m.id in Ids(prev) * Ids(next))
    ensures forall i, j | 0 <= i < j < |diff.removed| :: diff.removed[i].0 != diff.removed[j].0
  {
    hide *;
    DiffParts(diff, prev, next);
    AddedIds(diff.added, prev, next);
    RemovedIds(diff.removed, prev, next);
    ModifiedIds(diff.modified, prev, next);
    DiffParts(diff, prev, next);
  }

  lemma DiffParts(diff: PlanDiff, prev: seq<TaskValue>, next: seq<TaskValue>)
    requires Describes(diff, prev, next)
    ensures diff.added == Filter(NewTo(prev), next) && (exists at :: Reports(diff.modified, prev, next, at))
    ensures Lists(diff.removed, prev, Filter(GoneFrom(next), FirstIds(prev)))
  {
    hide Reports, Lists;
  }

  lemma AddedIds(added: seq<TaskValue>, prev: seq<TaskValue>, next: seq<TaskValue>)
    requires added == Filter(NewTo(prev), next)
    ensures Ids(added) == Ids(next) - Ids(prev)
  {
    FilterElements(NewTo(prev), next);
    hide Filter;
    forall id | id in Ids(next) - Ids(prev) ensures id in Ids(added) {
      var t :| t in next && t.id == id;
      assert NewTo(prev)(t) && t in added;
    }
  }

  lemma ModifiedIds(modified: seq<Modified>, prev: seq<TaskValue>, next: seq<TaskValue>)
    requires exists at :: Reports(modified, prev, next, at)
    ensures forall m | m in modified :: m.id in Ids(prev) * Ids(next)
  {
    hide Changes;
    var at :| Reports(modified, prev, next, at);
    forall m | m in modified ensures m.id in Ids(prev) * Ids(next) {
      var k :| 0 <= k < |modified| && modified[k] == m;
      assert ReportsOne(prev, next[at[k]], modified[k]) && next[at[k]] in next;
    }
  }

  lemma RemovedIds(removed: seq<(string, string)>, prev: seq<TaskValue>, next: seq<TaskValue>)
    requires Lists(removed, prev, Filter(GoneFrom(next), FirstIds(prev)))
    ensures (set r | r in removed :: r.0) == Ids(prev) - Ids(next)
    ensures forall i, j | 0 <= i < j < |removed| :: removed[i].0 != removed[j].0
  {
    var gone := Filter(GoneFrom(next), FirstIds(prev));
    FilterElements(GoneFrom(next), FirstIds(prev));
    FirstIdsMeans(prev);
    FilterDistinct(GoneFrom(next), FirstIds(prev));
    forall id | id in Ids(prev) - Ids(next) ensures id in set r | r in removed :: r.0 {
      assert id in gone;
      var i :| 0 <= i < |gone| && gone[i] == id;
      assert removed[i] in removed;
    }
    forall r | r in removed ensures r.0 in Ids(prev) - Ids(next) {
      var i :| 0 <= i < |removed| && removed[i] == r;
      assert gone[i] in gone;
    }
  }

  /** Between plans without repeated ids a task is reported if and only if its title,
      description, assignee or status differ, and the report names exactly those that do. */
  lemma ReportNamesFields(diff: PlanDiff, prev: seq<TaskValue>, next: seq<TaskValue>, p: TaskValue, t: TaskValue)
    requires Describes(diff, prev, next) && DistinctIds(prev) && DistinctIds(next)
    requires p in prev && t in next && p.id == t.id
    ensures (exists m :: m in diff.modified && m.id == t.id) <==>
              p.title != t.title || p.description != t.description || p.assignee != t.assignee || p.status != t.status
    ensures forall m | m in diff.modified && m.id == t.id ::
              && (TitleChanged in m.changes <==> p.title != t.title)
              && (DescriptionChanged in m.changes <==> p.description != t.description)
              && (AssigneeChanged in m.changes <==> p.assignee != t.assignee)
              && (StatusChanged in m.changes <==> p.status != t.status)
              && m.title == if t.title != "" then t.title else p.title
  {
    hide Standing, Reports, Filter;
    StandsForItself(prev, p);
    var at :| Reports(diff.modified, prev, next, at);
    ReportedOnce(diff.modified, prev, next, at, t);
  }

  lemma ReportedOnce(modified: seq<Modified>, prev: seq<TaskValue>, next: seq<TaskValue>, at: seq<nat>, t: TaskValue)
    requires Reports(modified, prev, next, at) && DistinctIds(next) && t in next
    ensures (exists m :: m in modified && m.id == t.id) <==> IsAltered(prev, t)
    ensures forall m | m in modified && m.id == t.id :: ReportsOne(prev, t, m)
  {
    hide IsAltered, Names;
    var n :| 0 <= n < |next| && next[n] == t;
    if IsAltered(prev, next[n]) {
      var k :| 0 <= k < |at| && at[k] == n;
      assert ReportsOne(prev, next[at[k]], modified[k]);
      assert modified[k] in modified;
    }
    forall m | m in modified && m.id == t.id ensures ReportsOne(prev, t, m) {
      var k :| 0 <= k < |modified| && modified[k] == m;
      assert ReportsOne(prev, next[at[k]], modified[k]);
      assert next[at[k]].id == next[n].id;
    }
  }

  lemma {:induction false} StandsForItself(tasks: seq<TaskValue>, t: TaskValue)
    requires DistinctIds(tasks) && t in tasks
    ensures Standing(tasks, t.id) == Some(t)
  {
    var init, last := tasks[..|tasks| - 1], tasks[|tasks| - 1];
    var n :| 0 <= n < |tasks| && tasks[n] == t;
    if n < |init| {
      assert init[n] == t;
      StandsForItself(init, t);
    }
  }

  /** A task that only starts to run is reported as a change of its status. */
  lemma StatusAloneIsReported(diff: PlanDiff, p: TaskValue)
    requires p.status == "PENDING" && Describes(diff, [p], [p.(status := "RUNNING")])
    ensures diff.added == [] && diff.removed == []
    ensures diff.modified == [Modified(p.id, p.title, [StatusChanged])]
  {
    hide Standing, Reports, Filter, Lists, NewTo, FirstIds;
    var t := p.(status := "RUNNING");
    assert Ids([p]) == Ids([t]) == {p.id};
    DiffPartitionsIds(diff, [p], [t]);
    NoIds(diff.added);
    NoneGone(diff.removed);
    DiffNamesOnce(diff, [p], [t]);
    ReportNamesFields(diff, [p], [t], p, t);
    var at :| Reports(diff.modified, [p], [t], at);
    ReportedOnce(diff.modified, [p], [t], at, t);
    forall m | m in diff.modified ensures m == Modified(p.id, p.title, [StatusChanged]) {
      assert m.id in Ids([p]);
      OnlyStatus(m.changes, p, t);
    }
    FirstTwo(diff.modified);
  }

  lemma NoIds(tasks: seq<TaskValue>)
    ensures Ids(tasks) == {} ==> tasks == []
  {
    if tasks != [] { assert tasks[0].id in Ids(tasks); }
  }

  lemma NoneGone(removed: seq<(string, string)>)
    ensures (set r | r in removed :: r.0) == {} ==> removed == []
  {
    var gone := set r | r in removed :: r.0;
    forall r | r in removed ensures r.0 in gone { }
    if removed != [] { assert removed[0].0 in gone; }
  }

  lemma FirstTwo<T>(s: seq<T>)
    ensures s != [] ==> s[0] in s
    ensures |s| > 1 ==> s[1] in s
  {
  }

  lemma FirstRanks(changes: seq<Change>, p: TaskValue, t: TaskValue)
    requires Names(changes, p, t)
    ensures |changes| > 1 ==> Rank(changes[0]) < Rank(changes[1])
  {
  }

  lemma OnlyStatus(changes: seq<Change>, p: TaskValue, t: TaskValue)
    requires Names(changes, p, t) && p.status != t.status
    requires p.title == t.title && p.description == t.description && p.assignee == t.assignee
    ensures changes == [StatusChanged]
  {
    forall i | 0 <= i < |changes| ensures changes[i] == StatusChanged {
      assert changes[i] in changes;
    }
    FirstRanks(changes, p, t);
  }

  /** In a plan without repeated ids, no id is added or modified twice. */
  lemma DiffNamesOnce(diff: PlanDiff, prev: seq<TaskValue>, next: seq<TaskValue>)
    requires Describes(diff, prev, next) && DistinctIds(next)
    ensures DistinctIds(diff.added)
    ensures forall i, j | 0 <= i < j < |diff.modified| :: diff.modified[i].id != diff.modified[j].id
  {
    FilterKeepsDistinct(NewTo(prev), next);
    var at :| Reports(diff.modified, prev, next, at);
    forall i, j | 0 <= i < j < |diff.modified| ensures diff.modified[i].id != diff.modified[j].id {
      assert at[i] < at[j];
      assert ReportsOne(prev, next[at[i]], diff.modified[i]) && ReportsOne(prev, next[at[j]], diff.modified[j]);
    }
  }

  lemma {:induction false} FilterKeepsDistinct(p: TaskValue -> bool, s: seq<TaskValue>)
    requires DistinctIds(s)
    ensures DistinctIds(Filter(p, s))
  {
    if s != [] {
      var t, x := s[..|s| - 1], s[|s| - 1];
      FilterKeepsDistinct(p, t);
      FilterElements(p, t);
      forall u | u in Filter(p, t) ensures u.id != x.id {
        var i :| 0 <= i < |t| && t[i] == u;
        assert s[i].id != s[|s| - 1].id;
      }
    }
  }

  lemma {:induction false} FilterDistinct(p: string -> bool, s: seq<string>)
    requires Distinct(s)
    ensures Distinct(Filter(p, s))
  {
    if s != [] {
      var t, x := s[..|s| - 1], s[|s| - 1];
      FilterDistinct(p, t);
      FilterElements(p, t);
      forall u | u in Filter(p, t) ensures u != x {
        var i :| 0 <= i < |t| && t[i] == u;
        assert s[i] != s[|s| - 1];
      }
    }
  }

  lemma {:induction false} FirstIdsMeans(tasks: seq<TaskValue>)
    ensures Distinct(FirstIds(tasks)) && forall id :: id in FirstIds(tasks) <==> id in Ids(tasks)
  {
    if tasks != [] {
      var init, last := tasks[..|tasks| - 1], tasks[|tasks| - 1];
      assert tasks == init + [last];
      FirstIdsMeans(init);
      assert Ids(tasks) == Ids(init) + {last.id};
    }
  }

  // ---- Edge keys --------------------------------------------------------------------

  /** The key an edge is compared by. */
  function EdgeKey(e: Edge): string {
    e.fromId + "->" + e.toId
  }

  ghost function EdgeKeys(edges: seq<Edge>): set<string> {
    set e | e in edges :: EdgeKey(e)
  }

  ghost function EdgeSet(edges: seq<Edge>): set<Edge> {
    set e | e in edges
  }

  /** The second edge puts the arrow of its key elsewhere: its source goes on past the first
      edge's arrow. */
  ghost predicate Splits(a: Edge, b: Edge) {
    exists s :: b.fromId == a.fromId + "->" + s && a.toId == s + "->" + b.toId
  }

  ghost predicate Collide(a: Edge, b: Edge) {
    Splits(a, b) || Splits(b, a)
  }

  /** Two edges share a key exactly when they are equal or an arrow inside a task id can be
      read as the edge's own. */
  lemma SameKeyIff(a: Edge, b: Edge)
    ensures EdgeKey(a) == EdgeKey(b) <==> a == b || Collide(a, b)
  {
    ShorterSource(a, b);
    ShorterSource(b, a);
    EqualSource(a, b);
    SplitSource(a, b);
    SplitSource(b, a);
  }

  lemma SplitSource(a: Edge, b: Edge)
    ensures Splits(a, b) ==> |a.fromId| < |b.fromId|
  {
  }

  lemma EqualSource(a: Edge, b: Edge)
    ensures |a.fromId| == |b.fromId| && EdgeKey(a) == EdgeKey(b) ==> a == b
  {
    if |a.fromId| == |b.fromId| && EdgeKey(a) == EdgeKey(b) {
      assert EdgeKey(a)[..|a.fromId|] == a.fromId && EdgeKey(a)[|a.fromId| + 2..] == a.toId;
      assert EdgeKey(b)[..|b.fromId|] == b.fromId && EdgeKey(b)[|b.fromId| + 2..] == b.toId;
    }
  }

  lemma ShorterSource(a: Edge, b: Edge)
    ensures |a.fromId| < |b.fromId| ==> (EdgeKey(a) == EdgeKey(b) <==> Splits(a, b))
  {
    if |a.fromId| < |b.fromId| && EdgeKey(a) == EdgeKey(b) {
      var key, n := EdgeKey(a), |a.fromId|;
      assert key[n] == '-' && key[n + 1] == '>' && key[n + 2..] == a.toId && key[..n] == a.fromId;
      assert key[|b.fromId|] == '-' && key[..|b.fromId|] == b.fromId;
      var s := b.fromId[n + 2..];
      assert b.fromId == a.fromId + "->" + s;
      assert a.toId == key[n + 2..] == s + "->" + b.toId;
    }
    if s :| b.fromId == a.fromId + "->" + s && a.toId == s + "->" + b.toId {
      assert a.fromId + "->" + (s + "->" + b.toId) == (a.fromId + "->" + s) + "->" + b.toId;
    }
  }

  /** No two edges collide when no source contains the character that ends the arrow. */
  lemma EdgeKeysTellApart(a: Edge, b: Edge)
    requires '>' !in a.fromId && '>' !in b.fromId && EdgeKey(a) == EdgeKey(b)
    ensures a == b
  {
    SameKeyIff(a, b);
    NoSplit(a, b);
    NoSplit(b, a);
  }

  lemma NoSplit(a: Edge, b: Edge)
    ensures Splits(a, b) ==> '>' in b.fromId
  {
    if s :| b.fromId == a.fromId + "->" + s && a.toId == s + "->" + b.toId {
      assert b.fromId[|a.fromId| + 1] == '>';
    }
  }

  lemma EdgeKeysCanCollide()
    ensures EdgeKey(Edge("a->b", "c")) == EdgeKey(Edge("a", "b->c"))
    ensures Collide(Edge("a->b", "c"), Edge("a", "b->c"))
  {
    assert "a->b" == "a" + "->" + "b" && "b->c" == "b" + "->" + "c";
    SameKeyIff(Edge("a->b", "c"), Edge("a", "b->c"));
  }

  /** An edge of one list has no counterpart in the other, not even one that collides with it. */
  ghost predicate Unmatched(e: Edge, others: seq<Edge>) {
    forall o | o in others :: o != e && !Collide(e, o)
  }

  /** The flag is raised exactly when some edge of either plan has no counterpart in the other. */
  lemma EdgesChangedIff(prev: seq<Edge>, next: seq<Edge>)
    ensures EdgeKeys(prev) != EdgeKeys(next) <==>
              (exists e :: e in prev && Unmatched(e, next)) || (exists e :: e in next && Unmatched(e, prev))
  {
    KeysCovered(prev, next);
    KeysCovered(next, prev);
  }

  lemma KeysCovered(a: seq<Edge>, b: seq<Edge>)
    ensures EdgeKeys(a) <= EdgeKeys(b) <==> forall e | e in a :: !Unmatched(e, b)
  {
    forall e | e in a ensures EdgeKey(e) in EdgeKeys(b) <==> !Unmatched(e, b) {
      forall o | o in b ensures EdgeKey(e) == EdgeKey(o) <==> o == e || Collide(e, o) {
        SameKeyIff(e, o);
      }
    }
    assert forall e | e in a :: EdgeKey(e) in EdgeKeys(a);
  }

  /** Between plans without a colliding pair the flag says whether the edges differ; and when
      differing edges go unnoticed, two of them collide. */
  lemma EdgesChangedMeans(prev: seq<Edge>, next: seq<Edge>)
    ensures (forall e, o | e in prev && o in next :: !Collide(e, o)) ==>
              (EdgeKeys(prev) != EdgeKeys(next) <==> EdgeSet(prev) != EdgeSet(next))
    ensures EdgeKeys(prev) == EdgeKeys(next) && EdgeSet(prev) != EdgeSet(next) ==>
              exists e, o :: e in prev && o in next && Collide(e, o)
  {
    hide EdgeKeys, Collide, Unmatched;
    EdgesChangedIff(prev, next);
    forall e ensures e in EdgeSet(prev) <==> e in prev { }
    forall e ensures e in EdgeSet(next) <==> e in next { }
    forall e ensures Unmatched(e, next) ==> e !in next
             ensures Unmatched(e, prev) ==> e !in prev
             ensures e !in next && !Unmatched(e, next) ==> exists o :: o in next && Collide(e, o)
             ensures e !in prev && !Unmatched(e, prev) ==> exists o :: o in prev && Collide(o, e)
    {
      Counterpart(e, next);
      Counterpart(e, prev);
    }
  }

  lemma Counterpart(e: Edge, others: seq<Edge>)
    ensures Unmatched(e, others) ==> e !in others
    ensures e !in others && !Unmatched(e, others) ==> exists o :: o in others && Collide(e, o) && Collide(o, e)
  {
    hide Splits;
  }

  // ---- Computing the diff -----------------------------------------------------------

  method ComputePlanDiff(prev: Option<PlanValue>, next: PlanValue) returns (diff: PlanDiff)
    ensures Describes(diff, if prev.Some? then prev.value.tasks else [], next.tasks)
    ensures diff.edgesChanged <==> EdgeKeys(next.edges) != EdgeKeys(if prev.Some? then prev.value.edges else [])
  {
    var oldTasks := if prev.Some? then prev.value.tasks else [];
    var prevTasks, order := IndexById(oldTasks);
    var added, modified, nextIds := ScanNext(oldTasks, prevTasks, next.tasks);
    var removed := ScanPrev(oldTasks, prevTasks, order, next.tasks, nextIds);
    var prevEdges := CollectKeys(if prev.Some? then prev.value.edges else []);
    var nextEdges := CollectKeys(next.edges);
    diff := PlanDiff(added, removed, modified, prevEdges != nextEdges);
  }

  /** The index says what every id stands for. */
  ghost predicate IndexOf(byId: map<string, TaskValue>, tasks: seq<TaskValue>) {
    byId.Keys == Ids(tasks) && forall id | id in byId :: Standing(tasks, id) == Some(byId[id])
  }

  /** A map keeps its keys in the order they were first set. */
  method IndexById(tasks: seq<TaskValue>) returns (byId: map<string, TaskValue>, order: seq<string>)
    ensures IndexOf(byId, tasks) && order == FirstIds(tasks)
  {
    byId, order := map[], [];
    for i := 0 to |tasks|
      invariant IndexOf(byId, tasks[..i]) && order == FirstIds(tasks[..i])
    {
      IndexStep(byId, tasks[..i], tasks[i]);
      FirstIdsMeans(tasks[..i]);
      assert tasks[..i + 1][..i] == tasks[..i];
      assert tasks[..i + 1] == tasks[..i] + [tasks[i]];
      if tasks[i].id !in byId {
        order := order + [tasks[i].id];
      }
      byId := byId[tasks[i].id := tasks[i]];
    }
    assert tasks[..|tasks|] == tasks;
  }

  lemma IndexStep(byId: map<string, TaskValue>, tasks: seq<TaskValue>, t: TaskValue)
    requires IndexOf(byId, tasks)
    ensures IndexOf(byId[t.id := t], tasks + [t])
  {
    assert (tasks + [t])[..|tasks|] == tasks;
    assert Ids(tasks + [t]) == Ids(tasks) + {t.id};
  }

  method ScanNext(prev: seq<TaskValue>, byId: map<string, TaskValue>, next: seq<TaskValue>)
    returns (added: seq<TaskValue>, modified: seq<Modified>, nextIds: set<string>)
    requires IndexOf(byId, prev)
    ensures nextIds == Ids(next) && added == Filter(NewTo(prev), next)
    ensures exists at :: Reports(modified, prev, next, at)
  {
    hide *;
    added, modified, nextIds := [], [], {};
    ghost var at: seq<nat> := [];
    NothingScanned(prev);
    for i := 0 to |next|
      invariant nextIds == Ids(next[..i]) && added == Filter(NewTo(prev), next[..i])
      invariant Reports(modified, prev, next[..i], at)
    {
      var t := next[i];
      assert next[..i + 1] == next[..i] + [t];
      FilterAppend(NewTo(prev), next[..i], t);
      IdsAppend(next[..i], t);
      Classified(prev, byId, t);
      nextIds := nextIds + {t.id};
      if t.id !in byId {
        ReportsStep(prev, next[..i], t, modified, at, Modified("", "", []));
        added := added + [t];
      } else {
        var p := byId[t.id];
        var changes := Changes(p, t);
        var m := Modified(t.id, if t.title != "" then t.title else p.title, changes);
        ReportsStep(prev, next[..i], t, modified, at, m);
        if changes != [] {
          modified, at := modified + [m], at + [i];
        }
      }
    }
    assert next[..|next|] == next;
  }

  lemma IdsAppend(tasks: seq<TaskValue>, t: TaskValue)
    ensures Ids(tasks + [t]) == Ids(tasks) + {t.id}
  {
  }

  /** What the index says of a task. */
  lemma Classified(prev: seq<TaskValue>, byId: map<string, TaskValue>, t: TaskValue)
    requires IndexOf(byId, prev)
    ensures NewTo(prev)(t) <==> t.id !in byId
    ensures t.id !in byId ==> !IsAltered(prev, t)
    ensures t.id in byId ==>
      && var p := byId[t.id];
      && (IsAltered(prev, t) <==> Changes(p, t) != [])
      && (IsAltered(prev, t) ==>
            ReportsOne(prev, t, Modified(t.id, if t.title != "" then t.title else p.title, Changes(p, t))))
  {
    hide Standing, Changes, Names, Differ;
    if t.id in byId {
      assert Standing(prev, t.id) == Some(byId[t.id]);
      ChangesAreNamed(byId[t.id], t);
    }
  }

  lemma NothingScanned(prev: seq<TaskValue>)
    ensures Reports([], prev, [], []) && Ids([]) == {} && Filter(NewTo(prev), []) == []
  {
  }

  lemma ReportsStep(prev: seq<TaskValue>, seen: seq<TaskValue>, t: TaskValue, modified: seq<Modified>, at: seq<nat>,
                    m: Modified)
    requires Reports(modified, prev, seen, at) && (IsAltered(prev, t) ==> ReportsOne(prev, t, m))
    ensures if IsAltered(prev, t) then Reports(modified + [m], prev, seen + [t], at + [|seen|])
            else Reports(modified, prev, seen + [t], at)
  {
    hide IsAltered, ReportsOne;
    var more := at + [|seen|];
    assert |seen| in more && forall n | n in at :: n in more;
  }

  method ScanPrev(prev: seq<TaskValue>, byId: map<string, TaskValue>, order: seq<string>, next: seq<TaskValue>,
                  nextIds: set<string>)
    returns (removed: seq<(string, string)>)
    requires IndexOf(byId, prev) && order == FirstIds(prev) && nextIds == Ids(next)
    ensures Lists(removed, prev, Filter(GoneFrom(next), FirstIds(prev)))
  {
    hide Standing, Lists, Filter, FirstIds;
    removed := [];
    ListNone(prev, next);
    FirstIdsMeans(prev);
    for i := 0 to |order|
      invariant Lists(removed, prev, Filter(GoneFrom(next), order[..i]))
    {
      var id := order[i];
      assert id in order;
      assert order[..i + 1] == order[..i] + [id];
      FilterAppend(GoneFrom(next), order[..i], id);
      ListOne(removed, prev, Filter(GoneFrom(next), order[..i]), id);
      if id !in nextIds {
        removed := removed + [(id, byId[id].title)];
      }
    }
    assert order[..|order|] == order;
  }

  lemma ListNone(prev: seq<TaskValue>, next: seq<TaskValue>)
    ensures Lists([], prev, Filter(GoneFrom(next), []))
  {
  }

  lemma ListOne(removed: seq<(string, string)>, prev: seq<TaskValue>, gone: seq<string>, id: string)
    requires Lists(removed, prev, gone) && Standing(prev, id).Some?
    ensures Lists(removed + [(id, Standing(prev, id).value.title)], prev, gone + [id])
  {
    hide Standing;
  }

  method CollectKeys(edges: seq<Edge>) returns (keys: set<string>)
    ensures keys == EdgeKeys(edges)
  {
    keys := {};
    for i := 0 to |edges|
      invariant keys == EdgeKeys(edges[..i])
    {
      assert edges[..i + 1] == edges[..i] + [edges[i]];
      keys := keys + {EdgeKey(edges[i])};
    }
    assert edges[..|edges|] == edges;
  }

  // ---- The registry -----------------------------------------------------------------

  /** A task object; status events write its last three fields. */
  class Task {
    const id: string
    const title: string
    const description: string
    const assignee: string
    var status: string
    var boundSpanId: string
    var cancelReason: string

    constructor (v: TaskValue)
      ensures Value() == v
    {
      id, title, description, assignee := v.id, v.title, v.description, v.assignee;
      status, boundSpanId, cancelReason := v.status, v.boundSpanId, v.cancelReason;
    }

    function Value(): TaskValue
      reads this
    {
      TaskValue(id, title, description, assignee, status, boundSpanId, cancelReason)
    }
  }

  /** A plan object shares its task objects with whoever else holds it. */
  class Plan {
    const id: string
    const invocationSpanId: string
    const createdAtMs: int
    const revision: int
    const reason: string
    const tasks: seq<Task>
    const edges: seq<Edge>

    constructor (id: string, invocationSpanId: string, createdAtMs: int, revision: int, reason: string,
                 tasks: seq<Task>, edges: seq<Edge>)
      ensures this.id == id && this.invocationSpanId == invocationSpanId && this.createdAtMs == createdAtMs
      ensures this.revision == revision && this.reason == reason && this.tasks == tasks && this.edges == edges
    {
      this.id, this.invocationSpanId, this.createdAtMs, this.revision := id, invocationSpanId, createdAtMs, revision;
      this.reason, this.tasks, this.edges := reason, tasks, edges;
    }

    function Value(): PlanValue
      reads tasks
    {
      PlanValue(id, revision, Values(tasks), edges)
    }
  }

  function Values(tasks: seq<Task>): (r: seq<TaskValue>)
    reads tasks
  {
    if tasks == [] then [] else Values(tasks[..|tasks| - 1]) + [tasks[|tasks| - 1].Value()]
  }

  lemma {:induction false} ValuesAt(tasks: seq<Task>)
    ensures |Values(tasks)| == |tasks|
    ensures forall i | 0 <= i < |tasks| :: Values(tasks)[i] == tasks[i].Value()
  {
    if tasks != [] {
      ValuesAt(tasks[..|tasks| - 1]);
    }
  }

  /** The first task of the list with that id. */
  ghost predicate FirstIn(tasks: seq<Task>, taskId: string, task: Task) {
    exists i :: 0 <= i < |tasks| && tasks[i] == task && task.id == taskId
      && forall j | 0 <= j < i :: tasks[j].id != taskId
  }

  predicate CreatedNoLater(a: Plan, b: Plan) {
    a.createdAtMs <= b.createdAtMs
  }

  /** The list and the id map hold the same plans, each once. */
  ghost predicate Matched(plans: seq<Plan>, byId: map<string, Plan>) {
    && (forall p | p in plans :: p.id in byId && byId[p.id] == p)
    && (forall id | id in byId :: byId[id].id == id && byId[id] in plans)
    && (forall i, j | 0 <= i < j < |plans| :: plans[i].id != plans[j].id)
  }

  /** At most one plan per non-empty invocation span. */
  ghost predicate OneSpan(plans: seq<Plan>) {
    forall p, q | p in plans && q in plans && p.invocationSpanId != ""
      && p.invocationSpanId == q.invocationSpanId :: p == q
  }

  /** Another plan of the same invocation, which the new plan replaces. */
  predicate IsSibling(p: Plan, plan: Plan) {
    plan.invocationSpanId != "" && p.invocationSpanId == plan.invocationSpanId && p.id != plan.id
  }

  lemma CutMatched(plans: seq<Plan>, byId: map<string, Plan>, k: nat)
    requires Matched(plans, byId) && OneSpan(plans) && k < |plans|
    ensures Matched(plans[..k] + plans[k + 1..], byId - {plans[k].id})
    ensures OneSpan(plans[..k] + plans[k + 1..])
    ensures forall p :: p in plans[..k] + plans[k + 1..] <==> p in plans && p != plans[k]
  {
    var rest := plans[..k] + plans[k + 1..];
    assert forall i | 0 <= i < |rest| :: rest[i] == plans[if i < k then i else i + 1];
    forall p | p in plans && p != plans[k] ensures p in rest {
      var i :| 0 <= i < |plans| && plans[i] == p;
      assert rest[if i < k then i else i - 1] == p;
    }
  }

  lemma ReplaceMatched(plans: seq<Plan>, byId: map<string, Plan>, k: nat, plan: Plan)
    requires Matched(plans, byId) && OneSpan(plans) && k < |plans| && plans[k].id == plan.id
    requires forall p | p in plans :: !IsSibling(p, plan)
    ensures Matched(plans[k := plan], byId[plan.id := plan]) && OneSpan(plans[k := plan])
    ensures forall p | p in plans[k := plan] :: p == plan || p in plans
  {
    var after := plans[k := plan];
    forall p | p in after ensures p == plan || (p in plans && p.id != plan.id) {
      var i :| 0 <= i < |after| && after[i] == p;
      assert i != k ==> plans[i].id != plans[k].id;
    }
    forall id | id in byId && id != plan.id ensures byId[id] in after {
      var i :| 0 <= i < |plans| && plans[i] == byId[id];
      assert after[i] == byId[id];
    }
    assert after[k] == plan;
  }

  lemma AddMatched(plans: seq<Plan>, byId: map<string, Plan>, plan: Plan, r: seq<Plan>)
    requires Matched(plans, byId) && OneSpan(plans) && plan.id !in byId
    requires forall p | p in plans :: !IsSibling(p, plan)
    requires r == StableSort(CreatedNoLater, plans + [plan])
    ensures Matched(r, byId[plan.id := plan]) && OneSpan(r) && Sorted(CreatedNoLater, r)
    ensures forall p :: p in r <==> p in plans || p == plan
  {
    hide StableSort, OrderOn;
    var all := plans + [plan];
    assert OrderOn(CreatedNoLater, all) by { CreationOrder(all); }
    StableSortSorts(CreatedNoLater, all);
    assert plan !in plans;
    IdsPermuted(all, r);
    hide Sorted;
  }

  lemma InCreationOrder(plans: seq<Plan>)
    requires Sorted(CreatedNoLater, plans)
    ensures forall i, j | 0 <= i < j < |plans| :: plans[i].createdAtMs <= plans[j].createdAtMs
  {
    var leq := CreatedNoLater;
    forall i, j | 0 <= i < j < |plans| ensures plans[i].createdAtMs <= plans[j].createdAtMs {
      assert leq(plans[i], plans[j]);
    }
  }

  lemma CreationOrder(plans: seq<Plan>)
    ensures OrderOn(CreatedNoLater, plans)
  {
  }

  /** Distinct ids survive reordering. */
  lemma IdsPermuted(a: seq<Plan>, b: seq<Plan>)
    requires forall i, j | 0 <= i < j < |a| :: a[i].id != a[j].id
    requires multiset(a) == multiset(b)
    ensures forall i, j | 0 <= i < j < |b| :: b[i].id != b[j].id
  {
    DistinctPermutation(a, b);
    SameElements(a, b);
    forall i, j | 0 <= i < j < |b| ensures b[i].id != b[j].id {
      assert b[i] in a && b[j] in a && b[i] != b[j];
    }
  }

  const MAX_REVISIONS: nat := 20

  datatype Revision = Revision(revisedAtMs: int, reason: string, diff: PlanDiff)

  /** A snapshot owns its tasks and still says what it said when it was taken. */
  ghost predicate Intact(p: Plan, v: PlanValue, frozen: set<Task>)
    reads frozen
  {
    (forall t | t in p.tasks :: t in frozen) && p.Value() == v
  }

  ghost predicate Remembered(snapshots: map<string, seq<Plan>>, history: map<string, seq<PlanValue>>, frozen: set<Task>)
    reads frozen
  {
    && snapshots.Keys == history.Keys
    && forall k | k in snapshots ::
         && |snapshots[k]| == |history[k]|
         && forall i | 0 <= i < |snapshots[k]| :: Intact(snapshots[k][i], history[k][i], frozen)
  }

  lemma RememberOne(snapshots: map<string, seq<Plan>>, history: map<string, seq<PlanValue>>, frozen: set<Task>,
                    id: string, copy: Plan, copied: set<Task>)
    requires Remembered(snapshots, history, frozen) && forall t | t in copy.tasks :: t in copied
    ensures var (s, h) := (if id in snapshots then snapshots[id] else [], if id in history then history[id] else []);
      Remembered(snapshots[id := s + [copy]], history[id := h + [copy.Value()]], frozen + copied)
  {
    var (s, h) := (if id in snapshots then snapshots[id] else [], if id in history then history[id] else []);
    assert Intact(copy, copy.Value(), frozen + copied);
    forall k, i | k in snapshots && 0 <= i < |snapshots[k]|
      ensures Intact(snapshots[k][i], history[k][i], frozen + copied)
    {
      assert Intact(snapshots[k][i], history[k][i], frozen);
    }
    hide Intact;
  }

  /** A plan that gives a new reason leaves one revision more, at most twenty, with the
      difference from the plan it is compared with; any other leaves none. */
  ghost predicate Noted(revisions: map<string, seq<Revision>>, lastReason: map<string, string>,
                        plan: Plan, prev: Option<PlanValue>, nowMs: int,
                        revisions': map<string, seq<Revision>>, lastReason': map<string, string>)
    reads plan.tasks
  {
    var last := if plan.id in lastReason then lastReason[plan.id] else "";
    var past := if plan.id in revisions then revisions[plan.id] else [];
    if plan.reason == "" || plan.reason == last then revisions' == revisions && lastReason' == lastReason
    else
      && lastReason' == lastReason[plan.id := plan.reason]
      && exists diff :: Describes(diff, if prev.Some? then prev.value.tasks else [], Values(plan.tasks))
           && (diff.edgesChanged <==> EdgeKeys(plan.edges) != EdgeKeys(if prev.Some? then prev.value.edges else []))
           && revisions' == revisions[plan.id :=
                (if |past| >= 20 then past[1..] else past) + [Revision(nowMs, plan.reason, diff)]]
  }

  lemma NotedNone(revisions: map<string, seq<Revision>>, lastReason: map<string, string>, plan: Plan,
                  prev: Option<PlanValue>, nowMs: int)
    ensures plan.reason == "" || plan.reason == (if plan.id in lastReason then lastReason[plan.id] else "") ==>
              Noted(revisions, lastReason, plan, prev, nowMs, revisions, lastReason)
  {
  }

  lemma ValueParts(plan: Plan)
    ensures plan.Value().tasks == Values(plan.tasks) && plan.Value().edges == plan.edges
  {
  }

  lemma NotedOne(revisions: map<string, seq<Revision>>, lastReason: map<string, string>, plan: Plan,
                 prev: Option<PlanValue>, nowMs: int, diff: PlanDiff)
    requires plan.reason != "" && plan.reason != (if plan.id in lastReason then lastReason[plan.id] else "")
    requires Describes(diff, if prev.Some? then prev.value.tasks else [], Values(plan.tasks))
    requires diff.edgesChanged <==> EdgeKeys(plan.edges) != EdgeKeys(if prev.Some? then prev.value.edges else [])
    ensures var past := if plan.id in revisions then revisions[plan.id] else [];
      Noted(revisions, lastReason, plan, prev, nowMs,
            revisions[plan.id := (if |past| >= 20 then past[1..] else past) + [Revision(nowMs, plan.reason, diff)]],
            lastReason[plan.id := plan.reason])
  {
    hide Describes;
  }

  ghost function TasksOf(plans: seq<Plan>): set<Task> {
    set p, t | p in plans && t in p.tasks :: t
  }

  /** What a new plan is compared with: the plan of its invocation that it replaces, else the
      plan of its id. */
  ghost function Previous(plans: seq<Plan>, byId: map<string, Plan>, plan: Plan): Option<PlanValue>
    reads TasksOf(plans), if plan.id in byId then byId[plan.id].tasks else []
  {
    if exists p :: p in plans && p.id != plan.id && p.invocationSpanId == plan.invocationSpanId != ""
    then
      var p :| p in plans && p.id != plan.id && p.invocationSpanId == plan.invocationSpanId != "";
      assert forall t | t in p.tasks :: t in TasksOf(plans);
      Some(p.Value())
    else if plan.id in byId then Some(byId[plan.id].Value()) else None
  }

  lemma PreviousIs(plans: seq<Plan>, byId: map<string, Plan>, plan: Plan)
    requires OneSpan(plans)
    ensures forall p | p in plans && IsSibling(p, plan) :: Previous(plans, byId, plan) == Some(p.Value())
    ensures (forall p | p in plans :: !IsSibling(p, plan)) ==>
              Previous(plans, byId, plan) == if plan.id in byId then Some(byId[plan.id].Value()) else None
  {
  }

  class TaskRegistry {
    var plans: seq<Plan>
    var byId: map<string, Plan>
    var snapshots: map<string, seq<Plan>>
    var revisions: map<string, seq<Revision>>
    var lastReason: map<string, string>

    // The task objects of current plans, those of snapshots, and what the snapshots held when
    // they were taken.
    ghost var live: set<Task>
    ghost var frozen: set<Task>
    ghost var history: map<string, seq<PlanValue>>

    ghost predicate Current()
      reads this`plans, this`byId, this`live
    {
      && Matched(plans, byId) && OneSpan(plans)
      && (forall p, t | p in plans && t in p.tasks :: t in live)
    }

    ghost predicate Valid()
      reads this, frozen
    {
      && Current() && Remembered(snapshots, history, frozen) && live !! frozen
      && forall k | k in revisions :: |revisions[k]| <= MAX_REVISIONS
    }

    constructor ()
      ensures Valid() && plans == [] && byId == map[] && history == map[] && live == frozen == {}
    {
      plans, byId, snapshots, revisions, lastReason := [], map[], map[], map[], map[];
      live, frozen, history := {}, {}, map[];
    }

    ghost function PastOf(planId: string): seq<PlanValue>
      reads this`history
    {
      if planId in history then history[planId] else []
    }

    /** The status (and, when given, the span) of one task of the current plan changes; no snapshot
        changes, whatever objects it was copied from. */
    method UpdateTaskStatus(planId: string, taskId: string, status: string, boundSpanId: string)
      requires Valid()
      modifies live
      ensures Valid()
      ensures forall t | t in old(live) ::
        if planId in byId && FirstIn(byId[planId].tasks, taskId, t)
        then t.status == status && t.boundSpanId == (if boundSpanId != "" then boundSpanId else old(t.boundSpanId))
             && t.cancelReason == old(t.cancelReason)
        else t.Value() == old(t.Value())
    {
      if planId !in byId {
        return;
      }
      var plan := byId[planId];
      assert plan in plans;
      var found := FindTask(plan.tasks, taskId);
      if found.None? {
        return;
      }
      var task := found.value;
      OnlyFirst(plan.tasks, taskId, task);
      task.status := status;
      if boundSpanId != "" {
        task.boundSpanId := boundSpanId;
      }
    }

    method FindTask(tasks: seq<Task>, taskId: string) returns (task: Option<Task>)
      ensures task.Some? ==> FirstIn(tasks, taskId, task.value)
      ensures task.None? ==> forall t | t in tasks :: t.id != taskId
    {
      for i := 0 to |tasks|
        invariant forall j | 0 <= j < i :: tasks[j].id != taskId
      {
        if tasks[i].id == taskId {
          return Some(tasks[i]);
        }
      }
      return None;
    }

    /** A deep copy: same value, all task objects new. */
    method ClonePlan(p: Plan) returns (copy: Plan)
      ensures fresh(copy) && copy.Value() == p.Value()
      ensures fresh(set t | t in copy.tasks)
    {
      var tasks: seq<Task> := [];
      for i := 0 to |p.tasks|
        invariant |tasks| == i && fresh(set t | t in tasks)
        invariant forall j | 0 <= j < i :: tasks[j].Value() == p.tasks[j].Value()
      {
        var t := new Task(p.tasks[i].Value());
        tasks := tasks + [t];
      }
      copy := new Plan(p.id, p.invocationSpanId, p.createdAtMs, p.revision, p.reason, tasks, p.edges);
      ValuesAt(tasks);
      ValuesAt(p.tasks);
      assert Values(tasks) == Values(p.tasks);
    }

    /** The first plan of the same invocation under another id leaves the registry. */
    method RemoveSibling(plan: Plan) returns (sibling: Option<Plan>)
      requires Current()
      modifies this`plans, this`byId
      ensures Current() && forall p | p in plans :: !IsSibling(p, plan)
      ensures sibling.Some? ==> sibling.value in old(plans) && IsSibling(sibling.value, plan)
      ensures sibling.None? ==> plans == old(plans) && byId == old(byId)
      ensures plan.id in byId <==> plan.id in old(byId)
      ensures plan.id in byId ==> byId[plan.id] == old(byId)[plan.id]
      ensures forall p :: p in plans <==> p in old(plans) && !IsSibling(p, plan)
    {
      for i := 0 to |plans|
        invariant plans == old(plans) && byId == old(byId)
        invariant forall j | 0 <= j < i :: !IsSibling(plans[j], plan)
      {
        if IsSibling(plans[i], plan) {
          var found := plans[i];
          CutMatched(plans, byId, i);
          OneSibling(plans, byId, found, plan);
          byId := byId - {found.id};
          plans := plans[..i] + plans[i + 1..];
          return Some(found);
        }
      }
      return None;
    }

    method Remember(existing: Plan)
      requires Remembered(snapshots, history, frozen) && live !! frozen && forall t | t in existing.tasks :: t in live
      modifies this`snapshots, this`history, this`frozen
      ensures Remembered(snapshots, history, frozen) && live !! frozen
      ensures old(frozen) <= frozen && fresh(frozen - old(frozen))
      ensures history == old(history)[existing.id := old(PastOf(existing.id)) + [existing.Value()]]
    {
      hide Remembered;
      RememberedKeys(snapshots, history, frozen);
      var copy := ClonePlan(existing);
      ghost var copied := set t | t in copy.tasks;
      RememberOne(snapshots, history, frozen, existing.id, copy, copied);
      var snaps := if existing.id in snapshots then snapshots[existing.id] else [];
      history := history[existing.id := PastOf(existing.id) + [copy.Value()]];
      snapshots := snapshots[existing.id := snaps + [copy]];
      frozen := frozen + copied;
    }

    /** The plan takes the place of the plan of its id, or joins the list in creation order. */
    method Store(plan: Plan)
      requires Current() && forall p | p in plans :: !IsSibling(p, plan)
      requires forall t | t in plan.tasks :: t in live
      modifies this`plans, this`byId
      ensures Current() && byId == old(byId)[plan.id := plan]
      ensures plan.id in old(byId) ==>
        exists k :: 0 <= k < |old(plans)| && old(plans)[k].id == plan.id && plans == old(plans)[k := plan]
      ensures plan.id !in old(byId) ==> plans == StableSort(CreatedNoLater, old(plans) + [plan])
      ensures plan.id !in old(byId) ==>
        forall i, j | 0 <= i < j < |plans| :: plans[i].createdAtMs <= plans[j].createdAtMs
      ensures forall p :: p in plans <==> p == plan || (p in old(plans) && p.id != plan.id)
    {
      hide StableSort;
      if plan.id in byId {
        var existing := byId[plan.id];
        var k := 0;
        while plans[k] != existing
          invariant k < |plans| && existing !in plans[..k] && plans == old(plans) && byId == old(byId)
          decreases |plans| - k
        {
          NotLast(plans, existing, k);
          k := k + 1;
        }
        ReplaceMatched(plans, byId, k, plan);
        ReplacedElements(plans, k, plan);
        plans, byId := plans[k := plan], byId[plan.id := plan];
      } else {
        var sorted := StableSort(CreatedNoLater, plans + [plan]);
        AddMatched(plans, byId, plan, sorted);
        InCreationOrder(sorted);
        plans, byId := sorted, byId[plan.id := plan];
      }
    }

    /** A revision is noted when the plan gives a reason other than the last one noted for
        its id, with its difference from the plan it replaces; the oldest of more than twenty goes. */
    method NoteRevision(plan: Plan, prev: Option<PlanValue>, nowMs: int)
      requires forall k | k in revisions :: |revisions[k]| <= MAX_REVISIONS
      modifies this`revisions, this`lastReason
      ensures forall k | k in revisions :: |revisions[k]| <= MAX_REVISIONS
      ensures Noted(old(revisions), old(lastReason), plan, prev, nowMs, revisions, lastReason)
    {
      hide *;
      NotedNone(revisions, lastReason, plan, prev, nowMs);
      var last := if plan.id in lastReason then lastReason[plan.id] else "";
      if plan.reason == "" || plan.reason == last {
        return;
      }
      var next := plan.Value();
      ValueParts(plan);
      var diff := ComputePlanDiff(prev, next);
      var noted := (if plan.id in revisions then revisions[plan.id] else []) + [Revision(nowMs, plan.reason, diff)];
      NewestSize(noted);
      NewestDrops(if plan.id in revisions then revisions[plan.id] else [], Revision(nowMs, plan.reason, diff));
      NotedOne(revisions, lastReason, plan, prev, nowMs, diff);
      revisions := revisions[plan.id := Newest(noted)];
      lastReason := lastReason[plan.id := plan.reason];
    }

    /** A plan arrives: it replaces the plan of its id, in place, and any other plan of its
        invocation. When it replaces its own id under another revision index, one snapshot of
        the old plan as it stood joins the history; every earlier snapshot stays as it was. */
    method UpsertPlan(plan: Plan, nowMs: int)
      requires Valid() && forall t | t in plan.tasks :: t !in frozen
      modifies this
      ensures Valid() && plan.id in byId && byId[plan.id] == plan
      ensures forall p :: p in plans <==>
                || p == plan
                || (p in old(plans) && p.id != plan.id
                    && (plan.invocationSpanId == "" || p.invocationSpanId != plan.invocationSpanId))
      ensures plan.id !in old(byId) ==>
        forall i, j | 0 <= i < j < |plans| :: plans[i].createdAtMs <= plans[j].createdAtMs
      ensures history == if plan.id in old(byId) && old(byId)[plan.id].revision != plan.revision
        then old(history)[plan.id := old(PastOf(plan.id)) + [old(byId[plan.id].Value())]]
        else old(history)
      ensures Noted(old(revisions), old(lastReason), plan, old(Previous(plans, byId, plan)), nowMs,
                    revisions, lastReason)
    {
      hide Matched, OneSpan, Remembered;
      Replace(plan, nowMs);
    }

    lemma CurrentParts()
      requires Current()
      ensures OneSpan(plans)
    {
    }

    method Replace(plan: Plan, nowMs: int)
      requires Current() && Remembered(snapshots, history, frozen) && live !! frozen
      requires forall k | k in revisions :: |revisions[k]| <= MAX_REVISIONS
      requires forall t | t in plan.tasks :: t !in frozen
      modifies this
      ensures Current() && Remembered(snapshots, history, frozen) && live !! frozen
      ensures forall k | k in revisions :: |revisions[k]| <= MAX_REVISIONS
      ensures plan.id in byId && byId[plan.id] == plan
      ensures forall p :: p in plans <==> p == plan || (p in old(plans) && p.id != plan.id && !IsSibling(p, plan))
      ensures plan.id !in old(byId) ==>
        forall i, j | 0 <= i < j < |plans| :: plans[i].createdAtMs <= plans[j].createdAtMs
      ensures history == if plan.id in old(byId) && old(byId)[plan.id].revision != plan.revision
        then old(history)[plan.id := old(PastOf(plan.id)) + [old(byId[plan.id].Value())]]
        else old(history)
      ensures Noted(old(revisions), old(lastReason), plan, old(Previous(plans, byId, plan)), nowMs,
                    revisions, lastReason)
    {
      hide *;
      ghost var was := if plan.id in byId then [byId[plan.id].Value()] else [];
      CurrentParts();
      PreviousIs(plans, byId, plan);
      ghost var previous := Previous(plans, byId, plan);
      var sibling := RemoveSibling(plan);
      ghost var kept := plans;
      assert sibling.Some? ==> previous == Some(sibling.value.Value());
      assert plan.id in byId ==> was == [byId[plan.id].Value()];
      var prev := TakePrevious(plan, sibling);
      assert history == if plan.id in byId && byId[plan.id].revision != plan.revision
        then old(history)[plan.id := old(PastOf(plan.id)) + was] else old(history);
      Admit(plan);
      assert forall p :: p in plans <==> p == plan || (p in kept && p.id != plan.id);
      assert prev == previous;
      NoteRevision(plan, prev, nowMs);
    }

    /** What the new plan is compared with: the sibling it replaced, or else the plan of its id,
        which is remembered first when the revision index changes. */
    method TakePrevious(plan: Plan, sibling: Option<Plan>) returns (prev: Option<PlanValue>)
      requires Current() && Remembered(snapshots, history, frozen) && live !! frozen
      modifies this`snapshots, this`history, this`frozen
      ensures Current() && Remembered(snapshots, history, frozen) && live !! frozen
      ensures old(frozen) <= frozen && fresh(frozen - old(frozen))
      ensures prev == if sibling.Some? then Some(old(sibling.value.Value()))
                      else if plan.id in byId then Some(old(byId[plan.id].Value())) else None
      ensures history == if plan.id in byId && byId[plan.id].revision != plan.revision
        then old(history)[plan.id := old(PastOf(plan.id)) + [old(byId[plan.id].Value())]] else old(history)
    {
      hide Matched, OneSpan, Remembered, Values;
      prev := None;
      if sibling.Some? {
        prev := Some(sibling.value.Value());
      }
      if plan.id in byId {
        var existing := byId[plan.id];
        ExistingIsListed(plans, byId, plan.id);
        prev := if prev.Some? then prev else Some(existing.Value());
        if existing.revision != plan.revision {
          Remember(existing);
        }
      }
    }

    /** The plan's task objects become live and the plan is stored. */
    method Admit(plan: Plan)
      requires Current() && live !! frozen && forall t | t in plan.tasks :: t !in frozen
      requires forall p | p in plans :: !IsSibling(p, plan)
      modifies this`plans, this`byId, this`live
      ensures Current() && live !! frozen && byId == old(byId)[plan.id := plan]
      ensures forall p :: p in plans <==> p == plan || (p in old(plans) && p.id != plan.id)
      ensures plan.id !in old(byId) ==>
        forall i, j | 0 <= i < j < |plans| :: plans[i].createdAtMs <= plans[j].createdAtMs
    {
      hide *;
      AddLive(plan);
      Store(plan);
    }

    ghost method AddLive(plan: Plan)
      requires Current() && live !! frozen && forall t | t in plan.tasks :: t !in frozen
      modifies this`live
      ensures Current() && live !! frozen && forall t | t in plan.tasks :: t in live
    {
      hide Matched, OneSpan;
      live := live + set t | t in plan.tasks;
    }

    /** The first plan that has the task is updated; later plans with the same task id are not. */
    method UpdateTaskStatusByTaskId(taskId: string, status: string, boundSpanId: string, cancelReason: string)
      requires Valid()
      modifies live
      ensures Valid()
      ensures forall t | t in old(live) && !FirstWith(plans, taskId, t) :: t.Value() == old(t.Value())
      ensures forall t | t in old(live) && FirstWith(plans, taskId, t) ::
        && t.status == status
        && t.boundSpanId == (if boundSpanId != "" then boundSpanId else old(t.boundSpanId))
        && t.cancelReason == (if cancelReason != "" then cancelReason else old(t.cancelReason))
    {
      hide Matched, OneSpan, Remembered, Intact;
      var found := FindFirst(taskId);
      if found.None? {
        return;
      }
      var task := found.value;
      task.status := status;
      if boundSpanId != "" {
        task.boundSpanId := boundSpanId;
      }
      if cancelReason != "" {
        task.cancelReason := cancelReason;
      }
    }

    method FindFirst(taskId: string) returns (task: Option<Task>)
      requires Current()
      ensures task.Some? ==> task.value in live && forall t: Task :: FirstWith(plans, taskId, t) <==> t == task.value
      ensures task.None? ==> forall t: Task :: !FirstWith(plans, taskId, t)
    {
      hide Matched, OneSpan;
      for i := 0 to |plans|
        invariant forall j, t | 0 <= j < i && t in plans[j].tasks :: t.id != taskId
      {
        var found := FindTask(plans[i].tasks, taskId);
        if found.Some? {
          OnlyFirst(plans[i].tasks, taskId, found.value);
          FirstIsFound(plans, taskId, i, found.value);
          return found;
        }
      }
      return None;
    }
  }

  /** The first task of that id in the first plan that has one. */
  ghost predicate FirstWith(plans: seq<Plan>, taskId: string, task: Task) {
    exists i :: 0 <= i < |plans| && FirstIn(plans[i].tasks, taskId, task)
      && forall j, t | 0 <= j < i && t in plans[j].tasks :: t.id != taskId
  }

  lemma FirstIsFound(plans: seq<Plan>, taskId: string, i: nat, task: Task)
    requires i < |plans| && FirstIn(plans[i].tasks, taskId, task)
    requires forall t | FirstIn(plans[i].tasks, taskId, t) :: t == task
    requires forall j, t | 0 <= j < i && t in plans[j].tasks :: t.id != taskId
    ensures forall t: Task :: FirstWith(plans, taskId, t) <==> t == task
  {
    assert task in plans[i].tasks && task.id == taskId;
  }

  function Newest<T>(s: seq<T>): seq<T> {
    if |s| > MAX_REVISIONS then s[1..] else s
  }

  lemma NewestSize<T>(s: seq<T>)
    requires |s| <= MAX_REVISIONS + 1
    ensures |Newest(s)| <= MAX_REVISIONS
  {
  }

  lemma NewestDrops<T>(past: seq<T>, x: T)
    ensures Newest(past + [x]) == (if |past| >= 20 then past[1..] else past) + [x]
  {
  }

  lemma NotLast(plans: seq<Plan>, x: Plan, k: nat)
    requires x in plans && k < |plans| && x !in plans[..k] && plans[k] != x
    ensures k + 1 < |plans| && x !in plans[..k + 1]
  {
    assert plans == plans[..k] + [plans[k]] + plans[k + 1..];
    assert plans[..k + 1] == plans[..k] + [plans[k]];
  }

  lemma ReplacedElements(plans: seq<Plan>, k: nat, plan: Plan)
    requires k < |plans| && plans[k].id == plan.id
    requires forall i, j | 0 <= i < j < |plans| :: plans[i].id != plans[j].id
    ensures forall p :: p in plans[k := plan] <==> p == plan || (p in plans && p.id != plan.id)
  {
    var after := plans[k := plan];
    assert after[k] == plan;
    forall p | p in plans && p.id != plan.id ensures p in after {
      var i :| 0 <= i < |plans| && plans[i] == p;
      assert after[i] == p;
    }
  }

  lemma ExistingIsListed(plans: seq<Plan>, byId: map<string, Plan>, id: string)
    requires Matched(plans, byId) && id in byId
    ensures byId[id] in plans && byId[id].id == id
  {
  }

  lemma RememberedKeys(snapshots: map<string, seq<Plan>>, history: map<string, seq<PlanValue>>, frozen: set<Task>)
    requires Remembered(snapshots, history, frozen)
    ensures snapshots.Keys == history.Keys
  {
  }

  lemma OneSibling(plans: seq<Plan>, byId: map<string, Plan>, found: Plan, plan: Plan)
    requires Matched(plans, byId) && OneSpan(plans) && found in plans && IsSibling(found, plan)
    ensures forall p | p in plans && IsSibling(p, plan) :: p == found
  {
  }

  lemma OnlyFirst(tasks: seq<Task>, taskId: string, task: Task)
    requires FirstIn(tasks, taskId, task)
    ensures task in tasks && forall t | FirstIn(tasks, taskId, t) :: t == task
  {
  }
}
