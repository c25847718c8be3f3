/** Execution stages of a task plan's dependency graph (frontend/src/gantt/stages.ts). */
module Stages {
  import opened Common

  datatype Task = Task(id: string, title: string)
  datatype Edge = Edge(fromTaskId: string, toTaskId: string)
  datatype TaskPlan = TaskPlan(id: string, tasks: seq<Task>, edges: seq<Edge>)

  ghost predicate DistinctIds(tasks: seq<Task>) {
    forall i, j | 0 <= i < j < |tasks| :: tasks[i].id != tasks[j].id
  }

  // ---- The graph and its paths, independent of the algorithm ---------------------------

  /** Edges that name an unknown task are ignored. */
  datatype Graph = Graph(nodes: set<string>, edges: seq<Edge>) {
    ghost predicate Link(a: string, b: string) {
      a in nodes && b in nodes && Edge(a, b) in edges
    }
  }

  ghost function GraphOf(plan: TaskPlan): Graph {
    Graph(set t | t in plan.tasks :: t.id, plan.edges)
  }

  ghost predicate Path(g: Graph, p: seq<string>) {
    && p != []
    && (forall x | x in p :: x in g.nodes)
    && (forall i | 0 < i < |p| :: g.Link(p[i-1], p[i]))
  }

  ghost predicate PathTo(g: Graph, p: seq<string>, x: string) {
    Path(g, p) && p[|p|-1] == x
  }

  ghost predicate Cycle(g: Graph, p: seq<string>) {
    Path(g, p) && |p| > 1 && p[0] == p[|p|-1]
  }

  /** `x` lies on a cycle or can be reached from one. */
  ghost predicate BehindCycle(g: Graph, x: string) {
    exists c, p :: Cycle(g, c) && PathTo(g, p, x) && p[0] == c[0]
  }

  ghost predicate Acyclic(g: Graph) {
    forall c :: !Cycle(g, c)
  }

  /** A chain of tasks that can all run, up to `x` itself. */
  ghost predicate RunnableChain(g: Graph, p: seq<string>, x: string) {
    PathTo(g, p, x) && forall i | 0 <= i < |p| - 1 :: !BehindCycle(g, p[i])
  }

  /** The stage a task belongs to: the length of its longest runnable chain. */
  ghost predicate IsStage(g: Graph, x: string, k: nat) {
    && (exists p :: RunnableChain(g, p, x) && |p| - 1 == k)
    && (forall p | RunnableChain(g, p, x) :: |p| - 1 <= k)
  }

  lemma StageUnique(g: Graph, x: string, k: nat, k': nat)
    requires IsStage(g, x, k) && IsStage(g, x, k')
    ensures k == k'
  {
    var p :| RunnableChain(g, p, x) && |p| - 1 == k;
    var p' :| RunnableChain(g, p', x) && |p'| - 1 == k';
  }

  // ---- What the algorithm establishes ----------------------------------------------------

  /** `done` are the tasks that went through the queue: they form the part of the graph
      with all its predecessors, the others always have a predecessor among themselves, and
      stages are one more than the highest stage of a processed predecessor. */
  ghost predicate Layered(g: Graph, done: set<string>, stage: map<string, nat>) {
    && done <= g.nodes && g.nodes <= stage.Keys
    && (forall a, b | g.Link(a, b) && b in done :: a in done)
    && (forall b {:trigger Waits(g, done, b)} | b in g.nodes - done :: Waits(g, done, b))
    && (forall a, b | g.Link(a, b) && a in done :: stage[a] < stage[b])
    && (forall b {:trigger Follows(g, done, stage, b)} | b in g.nodes && stage[b] > 0 ::
          Follows(g, done, stage, b))
  }

  ghost predicate Waits(g: Graph, done: set<string>, b: string) {
    exists a :: g.Link(a, b) && a !in done
  }

  ghost predicate Follows(g: Graph, done: set<string>, stage: map<string, nat>, b: string) {
    b in stage && exists a :: g.Link(a, b) && a in done && a in stage && stage[b] == stage[a] + 1
  }

  lemma {:induction false} DoneBackwards(g: Graph, done: set<string>, stage: map<string, nat>, p: seq<string>)
    requires Layered(g, done, stage) && Path(g, p) && p[|p|-1] in done
    ensures forall i | 0 <= i < |p| :: p[i] in done
    ensures stage[p[0]] + |p| - 1 <= stage[p[|p|-1]]
  {
    if |p| > 1 {
      var q := p[..|p|-1];
      assert g.Link(p[|p|-2], p[|p|-1]);
      DoneBackwards(g, done, stage, q);
    }
  }

  /** Walk backwards through unprocessed tasks for `n` steps. */
  lemma {:induction false} WalkBack(g: Graph, done: set<string>, stage: map<string, nat>, x: string, n: nat)
    returns (p: seq<string>)
    requires Layered(g, done, stage) && x in g.nodes - done
    ensures PathTo(g, p, x) && |p| == n + 1
    decreases n
  {
    if n == 0 {
      p := [x];
    } else {
      assert Waits(g, done, x);
      var a :| g.Link(a, x) && a !in done;
      var q := WalkBack(g, done, stage, a, n - 1);
      p := q + [x];
    }
  }

  lemma {:induction false} Pigeonhole(p: seq<string>, nodes: set<string>) returns (i: nat, j: nat)
    requires |p| > |nodes| && forall x | x in p :: x in nodes
    ensures i < j < |p| && p[i] == p[j]
  {
    var last := p[|p|-1];
    if k :| 0 <= k < |p| - 1 && p[k] == last {
      i, j := k, |p| - 1;
    } else {
      var q := p[..|p|-1];
      assert forall x | x in q :: x in nodes - {last};
      i, j := Pigeonhole(q, nodes - {last});
    }
  }

  /** The queue processes exactly the tasks no cycle blocks. */
  lemma DoneIffNotBehindCycle(g: Graph, done: set<string>, stage: map<string, nat>, x: string)
    requires Layered(g, done, stage) && x in g.nodes
    ensures x in done <==> !BehindCycle(g, x)
  {
    if x in done {
      forall c, p | Cycle(g, c) && PathTo(g, p, x) ensures p[0] != c[0] {
        DoneBackwards(g, done, stage, p);
        if c[|c|-1] in done { DoneBackwards(g, done, stage, c); }
      }
    } else {
      var p := WalkBack(g, done, stage, x, |g.nodes|);
      var i, j := Pigeonhole(p, g.nodes);
      assert Cycle(g, p[i..j+1]) && PathTo(g, p[i..], x);
    }
  }

  lemma {:induction false} ChainBound(g: Graph, done: set<string>, stage: map<string, nat>, p: seq<string>, x: string)
    requires Layered(g, done, stage) && RunnableChain(g, p, x)
    ensures |p| - 1 <= stage[x]
  {
    if |p| > 1 {
      var y := p[|p|-2];
      assert y in p && g.Link(y, x);
      DoneIffNotBehindCycle(g, done, stage, y);
      DoneBackwards(g, done, stage, p[..|p|-1]);
    }
  }

  lemma {:induction false} ChainExists(g: Graph, done: set<string>, stage: map<string, nat>, x: string)
    returns (p: seq<string>)
    requires Layered(g, done, stage) && x in g.nodes
    ensures RunnableChain(g, p, x) && |p| - 1 == stage[x]
    decreases stage[x]
  {
    if stage[x] == 0 {
      p := [x];
    } else {
      assert Follows(g, done, stage, x);
      var a :| g.Link(a, x) && a in done && stage[x] == stage[a] + 1;
      var q := ChainExists(g, done, stage, a);
      DoneIffNotBehindCycle(g, done, stage, a);
      p := q + [x];
    }
  }

  /** For any graph, cyclic or not, every task's stage is the length of its longest
      runnable chain. */
  lemma LayeredIsLongestChain(g: Graph, done: set<string>, stage: map<string, nat>, x: string)
    requires Layered(g, done, stage) && x in g.nodes
    ensures IsStage(g, x, stage[x])
  {
    var p := ChainExists(g, done, stage, x);
    forall p | RunnableChain(g, p, x) ensures |p| - 1 <= stage[x] {
      ChainBound(g, done, stage, p, x);
    }
  }

  /** On an acyclic graph every path counts, so stages are longest-path lengths and every
      edge goes strictly forward. */
  lemma AcyclicStages(g: Graph, done: set<string>, stage: map<string, nat>)
    requires Layered(g, done, stage) && Acyclic(g)
    ensures done == g.nodes
    ensures forall a, b | g.Link(a, b) :: stage[a] < stage[b]
    ensures forall p, x | PathTo(g, p, x) :: |p| - 1 <= stage[x]
    ensures forall x | x in g.nodes :: exists p :: PathTo(g, p, x) && |p| - 1 == stage[x]
  {
    forall x | x in g.nodes ensures x in done {
      DoneIffNotBehindCycle(g, done, stage, x);
    }
    forall p, x | PathTo(g, p, x) ensures |p| - 1 <= stage[x] {
      DoneBackwards(g, done, stage, p);
    }
    forall x | x in g.nodes ensures exists p :: PathTo(g, p, x) && |p| - 1 == stage[x] {
      var p := ChainExists(g, done, stage, x);
    }
  }

  /** Stages have no gap: below an occupied stage every stage is occupied. */
  lemma {:induction false} NoGap(g: Graph, done: set<string>, stage: map<string, nat>, x: string, k: nat)
    requires Layered(g, done, stage) && x in g.nodes && k <= stage[x]
    ensures exists y :: y in g.nodes && stage[y] == k
    decreases stage[x]
  {
    if k < stage[x] {
      assert Follows(g, done, stage, x);
      var a :| g.Link(a, x) && a in done && stage[x] == stage[a] + 1;
      NoGap(g, done, stage, a, k);
    }
  }

  /** What the comment calls "collapsed into stage 0" holds for a task behind a cycle if and
      only if none of its predecessors can run. */
  lemma BlockedTaskStage(g: Graph, x: string, k: nat)
    requires x in g.nodes && BehindCycle(g, x) && IsStage(g, x, k)
    ensures k == 0 <==> forall a | g.Link(a, x) :: BehindCycle(g, a)
  {
    if a :| g.Link(a, x) && !BehindCycle(g, a) {
      assert RunnableChain(g, [a, x], x);
    }
    var p :| RunnableChain(g, p, x) && |p| - 1 == k;
    if k > 0 {
      assert g.Link(p[|p|-2], x) && !BehindCycle(g, p[|p|-2]);
    }
  }

  /** A plan whose cyclic task is not collapsed into stage 0: `b` depends on `a` and on
      itself, and lands on stage 1. */
  lemma CyclicTaskOnStageOne(g: Graph)
    requires g == Graph({"a", "b"}, [Edge("a", "b"), Edge("b", "b")])
    ensures BehindCycle(g, "b") && IsStage(g, "b", 1)
  {
    assert Edge("a", "b") == g.edges[0] && Edge("b", "b") == g.edges[1];
    assert g.Link("a", "b") && g.Link("b", "b");
    assert Cycle(g, ["b", "b"]) && PathTo(g, ["b"], "b");
    assert forall x | g.Link(x, "a") :: false;
    var stage: map<string, nat> := map["a" := 0, "b" := 1];
    assert Follows(g, {"a"}, stage, "b") && Waits(g, {"a"}, "b");
    LayeredIsLongestChain(g, {"a"}, stage, "b");
  }

  // ---- Counting the edges the queue has not used up ----------------------------------------

  predicate Known(nodes: set<string>, e: Edge) {
    e.fromTaskId in nodes && e.toTaskId in nodes
  }

  /** Successors of `a`, one entry per edge, in edge order. */
  function Targets(nodes: set<string>, edges: seq<Edge>, a: string): seq<string> {
    if edges == [] then []
    else
      var e := edges[|edges|-1];
      Targets(nodes, edges[..|edges|-1], a) + if Known(nodes, e) && e.fromTaskId == a then [e.toTaskId] else []
  }

  function Sources(nodes: set<string>, edges: seq<Edge>, b: string): seq<string> {
    if edges == [] then []
    else
      var e := edges[|edges|-1];
      Sources(nodes, edges[..|edges|-1], b) + if Known(nodes, e) && e.toTaskId == b then [e.fromTaskId] else []
  }

  /** Edges into `b` whose source is not in `done`. */
  ghost function Pending(nodes: set<string>, edges: seq<Edge>, b: string, done: set<string>): nat {
    if edges == [] then 0
    else
      var e := edges[|edges|-1];
      Pending(nodes, edges[..|edges|-1], b, done) +
      if Known(nodes, e) && e.toTaskId == b && e.fromTaskId !in done then 1 else 0
  }

  lemma {:induction false} PendingAtStart(nodes: set<string>, edges: seq<Edge>, b: string)
    ensures Pending(nodes, edges, b, {}) == |Sources(nodes, edges, b)|
  {
    if edges != [] { PendingAtStart(nodes, edges[..|edges|-1], b); }
  }

  /** Processing `a` uses up one edge into `b` for each entry of `b` among its targets. */
  lemma {:induction false} PendingStep(nodes: set<string>, edges: seq<Edge>, b: string, done: set<string>, a: string)
    requires a !in done
    ensures Pending(nodes, edges, b, done) ==
            Pending(nodes, edges, b, done + {a}) + multiset(Targets(nodes, edges, a))[b]
  {
    if edges != [] {
      PendingStep(nodes, edges[..|edges|-1], b, done, a);
    }
  }

  lemma {:induction false} PendingZero(g: Graph, b: string, done: set<string>, n: nat)
    requires n <= |g.edges|
    ensures Pending(g.nodes, g.edges[..n], b, done) == 0 <==>
            forall i | 0 <= i < n && Known(g.nodes, g.edges[i]) && g.edges[i].toTaskId == b ::
              g.edges[i].fromTaskId in done
  {
    if n > 0 {
      PendingZero(g, b, done, n - 1);
      assert g.edges[..n][..n-1] == g.edges[..n-1];
    }
  }

  lemma NothingPending(g: Graph, b: string, done: set<string>)
    ensures Pending(g.nodes, g.edges, b, done) == 0 <==> forall a | g.Link(a, b) :: a in done
  {
    PendingZero(g, b, done, |g.edges|);
    assert g.edges[..|g.edges|] == g.edges;
    if Pending(g.nodes, g.edges, b, done) == 0 {
      forall a | g.Link(a, b) ensures a in done {
        var i :| 0 <= i < |g.edges| && g.edges[i] == Edge(a, b);
      }
    } else {
      var i :| 0 <= i < |g.edges| && Known(g.nodes, g.edges[i]) && g.edges[i].toTaskId == b &&
               g.edges[i].fromTaskId !in done;
      assert g.edges[i] == Edge(g.edges[i].fromTaskId, b);
      assert g.Link(g.edges[i].fromTaskId, b);
    }
  }

  lemma {:induction false} TargetsAreLinks(g: Graph, a: string, b: string, n: nat)
    requires n <= |g.edges|
    ensures b in Targets(g.nodes, g.edges[..n], a) <==> a in g.nodes && b in g.nodes && Edge(a, b) in g.edges[..n]
  {
    if n > 0 {
      TargetsAreLinks(g, a, b, n - 1);
      assert g.edges[..n][..n-1] == g.edges[..n-1];
      assert g.edges[..n] == g.edges[..n-1] + [g.edges[n-1]];
    }
  }

  // ---- The queue -----------------------------------------------------------------------------

  /** `indeg` counts the edges not used up: those from unprocessed tasks and those of the
      task in process whose target is still in `left`. */
  ghost predicate Counted(g: Graph, done: set<string>, left: seq<string>, indeg: map<string, int>) {
    && indeg.Keys == g.nodes
    && forall x | x in g.nodes ::
         indeg[x] == Pending(g.nodes, g.edges, x, done) + multiset(left)[x]
  }

  ghost predicate Queued(g: Graph, done: set<string>, queue: seq<string>, indeg: map<string, int>) {
    && (forall i, j | 0 <= i < j < |queue| :: queue[i] != queue[j])
    && indeg.Keys == g.nodes
    && (forall x :: x in queue <==> x in g.nodes && indeg[x] == 0)
    && (forall x | x in done :: x in queue)
  }

  ghost predicate Staged(g: Graph, done: set<string>, queue: seq<string>, cur: string, left: seq<string>,
                         stage: map<string, nat>) {
    && stage.Keys <= g.nodes
    && (forall x | x in queue :: x in stage)
    && (forall a, b | g.Link(a, b) && a in done && (a == cur ==> b !in left) ::
          a in stage && b in stage && stage[a] < stage[b])
    && (forall b {:trigger Follows(g, done, stage, b)} | b in stage && stage[b] > 0 :: Follows(g, done, stage, b))
  }

  /** The state of the queue loop while `left` are the targets of the current task still to
      come; between rounds `left` is empty. */
  ghost predicate QueueState(g: Graph, done: set<string>, queue: seq<string>, cur: string, left: seq<string>,
                             indeg: map<string, int>, stage: map<string, nat>) {
    && done <= g.nodes
    && Counted(g, done, left, indeg) && Queued(g, done, queue, indeg) && Staged(g, done, queue, cur, left, stage)
  }

  /** Queued tasks have all predecessors processed, so processing never revisits them. */
  lemma QueuedAreReady(g: Graph, done: set<string>, queue: seq<string>, left: seq<string>,
                       indeg: map<string, int>, b: string)
    requires Counted(g, done, left, indeg) && Queued(g, done, queue, indeg) && b in queue
    ensures b !in left && forall a | g.Link(a, b) :: a in done
  {
    NothingPending(g, b, done);
  }

  lemma TakeCounts(g: Graph, done: set<string>, indeg: map<string, int>, id: string)
    requires Counted(g, done, [], indeg) && id !in done
    ensures Counted(g, done + {id}, Targets(g.nodes, g.edges, id), indeg)
  {
    forall x | x in g.nodes
      ensures indeg[x] == Pending(g.nodes, g.edges, x, done + {id}) + multiset(Targets(g.nodes, g.edges, id))[x]
    {
      PendingStep(g.nodes, g.edges, x, done, id);
    }
  }

  lemma TargetsAreSuccessors(g: Graph, a: string)
    ensures forall b :: b in Targets(g.nodes, g.edges, a) <==> g.Link(a, b)
  {
    assert g.edges[..|g.edges|] == g.edges;
    forall b ensures b in Targets(g.nodes, g.edges, a) <==> g.Link(a, b) {
      TargetsAreLinks(g, a, b, |g.edges|);
    }
  }

  lemma FollowsKept(g: Graph, done: set<string>, done': set<string>, stage: map<string, nat>, stage': map<string,
                    nat>, b: string)
    requires Follows(g, done, stage, b) && done <= done'
    requires b in stage' && stage'[b] == stage[b]
    requires forall a | a in done && a in stage :: a in stage' && stage'[a] == stage[a]
    ensures Follows(g, done', stage', b)
  {
  }

  /** Taking the next task off the queue leaves its targets to be relaxed. */
  lemma TakeNext(g: Graph, done: set<string>, queue: seq<string>, indeg: map<string, int>,
                 stage: map<string, nat>, cur: string, id: string)
    requires QueueState(g, done, queue, cur, [], indeg, stage) && id in queue && id !in done
    ensures QueueState(g, done + {id}, queue, id, Targets(g.nodes, g.edges, id), indeg, stage)
    ensures id in g.nodes && id in stage
  {
    TakeCounts(g, done, indeg, id);
    TargetsAreSuccessors(g, id);
    forall b | b in stage && stage[b] > 0 ensures Follows(g, done + {id}, stage, b) {
      FollowsKept(g, done, done + {id}, stage, stage, b);
    }
  }

  function Raised(stage: map<string, nat>, id: string, next: string): map<string, nat>
    requires id in stage
  {
    if next !in stage || stage[id] + 1 > stage[next] then stage[next := stage[id] + 1] else stage
  }

  lemma RelaxCounts(g: Graph, done: set<string>, left: seq<string>, indeg: map<string, int>)
    requires Counted(g, done, left, indeg) && left != [] && left[0] in g.nodes
    ensures left[0] in indeg && indeg[left[0]] > 0
    ensures Counted(g, done, left[1..], indeg[left[0] := indeg[left[0]] - 1])
  {
    assert left == [left[0]] + left[1..];
    assert forall x :: multiset(left)[x] == multiset(left[1..])[x] + if x == left[0] then 1 else 0;
  }

  lemma RelaxStages(g: Graph, done: set<string>, queue: seq<string>, left: seq<string>, stage: map<string, nat>,
                    id: string)
    requires Staged(g, done, queue, id, left, stage) && (forall x | x in done :: x in queue) && left != [] && id in done
    requires g.Link(id, left[0]) && left[0] !in done
    ensures id in stage
    ensures Staged(g, done, queue, id, left[1..], Raised(stage, id, left[0]))
    ensures Staged(g, done, queue + [left[0]], id, left[1..], Raised(stage, id, left[0]))
  {
    var next, stage' := left[0], Raised(stage, id, left[0]);
    forall a, b | g.Link(a, b) && a in done && (a == id ==> b !in left[1..])
      ensures a in stage' && b in stage' && stage'[a] < stage'[b]
    {
      assert a == id && b != next ==> b !in left;
    }
    forall b | b in stage' && stage'[b] > 0 ensures Follows(g, done, stage', b) {
      if b != next || stage' == stage {
        FollowsKept(g, done, done, stage, stage', b);
      }
    }
  }

  lemma RelaxQueue(g: Graph, done: set<string>, queue: seq<string>, indeg: map<string, int>, next: string)
    requires Queued(g, done, queue, indeg) && next in g.nodes && indeg[next] > 0
    ensures var d := indeg[next] - 1;
            Queued(g, done, if d == 0 then queue + [next] else queue, indeg[next := d])
    ensures next !in queue && forall x | x in done :: x in queue
  {
  }

  /** Relaxing one target of `id`: its stage may rise, and it enters the queue with its last
      edge. */
  lemma Relax(g: Graph, done: set<string>, queue: seq<string>, left: seq<string>,
              indeg: map<string, int>, stage: map<string, nat>, id: string)
    requires QueueState(g, done, queue, id, left, indeg, stage)
    requires left != [] && id in done && g.Link(id, left[0])
    ensures left[0] !in queue && left[0] != id && id in stage && left[0] in indeg
    ensures var next := left[0];
            var d := indeg[next] - 1;
            QueueState(g, done, if d == 0 then queue + [next] else queue, id, left[1..],
                       indeg[next := d], Raised(stage, id, next))
  {
    hide Counted, Queued, Staged;
    RelaxCounts(g, done, left, indeg);
    RelaxQueue(g, done, queue, indeg, left[0]);
    RelaxStages(g, done, queue, left, stage, id);
  }

  ghost function Elements(s: seq<string>): set<string> {
    set x | x in s
  }

  /** When the queue is used up, its tasks are the processed ones; the rest falls to stage 0
      unless a processed predecessor has raised it. */
  lemma QueueDone(g: Graph, queue: seq<string>, indeg: map<string, int>, stage: map<string, nat>,
                  full: map<string, nat>)
    requires QueueState(g, Elements(queue), queue, "", [], indeg, stage)
    requires full.Keys == g.nodes && forall x | x in g.nodes :: full[x] == if x in stage then stage[x] else 0
    ensures Layered(g, Elements(queue), full)
  {
    var done, none: seq<string> := Elements(queue), [];
    forall a, b | g.Link(a, b) && b in done ensures a in done {
      QueuedAreReady(g, done, queue, [], indeg, b);
    }
    forall b | b in g.nodes - done ensures Waits(g, done, b) {
      NothingPending(g, b, done);
      assert multiset(none)[b] == 0;
    }
    forall b | b in g.nodes && full[b] > 0 ensures Follows(g, done, full, b) {
      FollowsKept(g, done, done, stage, full, b);
    }
  }

  // ---- The result ------------------------------------------------------------------------------

  function TasksAt(tasks: seq<Task>, stage: map<string, nat>, k: nat): seq<Task> {
    if tasks == [] then []
    else
      var t := tasks[|tasks|-1];
      TasksAt(tasks[..|tasks|-1], stage, k) + if t.id in stage && stage[t.id] == k then [t] else []
  }

  /** Every task sits at its stage, in plan order, and no stage is empty. */
  ghost predicate Laid(plan: TaskPlan, stages: seq<seq<Task>>, stage: map<string, nat>) {
    && (forall t | t in plan.tasks :: t.id in stage && stage[t.id] < |stages|)
    && (forall t | t in plan.tasks :: IsStage(GraphOf(plan), t.id, stage[t.id]))
    && (forall k | 0 <= k < |stages| :: stages[k] == TasksAt(plan.tasks, stage, k))
    && (forall k | 0 <= k < |stages| :: stages[k] != [])
  }

  ghost function Flatten(stages: seq<seq<Task>>): seq<Task> {
    if stages == [] then [] else Flatten(stages[..|stages|-1]) + stages[|stages|-1]
  }

  ghost function TasksBelow(tasks: seq<Task>, stage: map<string, nat>, n: nat): seq<Task> {
    if tasks == [] then []
    else
      var t := tasks[|tasks|-1];
      TasksBelow(tasks[..|tasks|-1], stage, n) + if t.id in stage && stage[t.id] < n then [t] else []
  }

  lemma {:induction false} BelowStep(tasks: seq<Task>, stage: map<string, nat>, n: nat)
    ensures multiset(TasksBelow(tasks, stage, n + 1)) ==
            multiset(TasksBelow(tasks, stage, n)) + multiset(TasksAt(tasks, stage, n))
    ensures TasksBelow(tasks, stage, 0) == []
  {
    if tasks != [] { BelowStep(tasks[..|tasks|-1], stage, n); }
  }

  lemma {:induction false} BelowAll(tasks: seq<Task>, stage: map<string, nat>, n: nat)
    requires forall t | t in tasks :: t.id in stage && stage[t.id] < n
    ensures TasksBelow(tasks, stage, n) == tasks
  {
    if tasks != [] {
      var rest := tasks[..|tasks|-1];
      assert tasks == rest + [tasks[|tasks|-1]];
      BelowAll(rest, stage, n);
    }
  }

  lemma {:induction false} FlattenBelow(tasks: seq<Task>, stage: map<string, nat>, stages: seq<seq<Task>>)
    requires forall k | 0 <= k < |stages| :: stages[k] == TasksAt(tasks, stage, k)
    ensures multiset(Flatten(stages)) == multiset(TasksBelow(tasks, stage, |stages|))
  {
    if stages == [] {
      BelowStep(tasks, stage, 0);
    } else {
      var n, rest := |stages| - 1, stages[..|stages|-1];
      FlattenBelow(tasks, stage, rest);
      BelowStep(tasks, stage, n);
      assert Flatten(stages) == Flatten(rest) + stages[n];
    }
  }

  /** Conservation: the stages together hold every task of the plan exactly once. */
  lemma StagesPartitionTasks(plan: TaskPlan, stages: seq<seq<Task>>, stage: map<string, nat>)
    requires Laid(plan, stages, stage)
    ensures multiset(Flatten(stages)) == multiset(plan.tasks)
  {
    FlattenBelow(plan.tasks, stage, stages);
    BelowAll(plan.tasks, stage, |stages|);
  }

  /** The definition leaves no freedom: a plan has one layering. */
  lemma LayeringIsDetermined(plan: TaskPlan, stages: seq<seq<Task>>, stage: map<string, nat>,
                             other: seq<seq<Task>>, otherStage: map<string, nat>)
    requires Laid(plan, stages, stage) && Laid(plan, other, otherStage)
    ensures stages == other
  {
    forall t | t in plan.tasks ensures stage[t.id] == otherStage[t.id] {
      StageUnique(GraphOf(plan), t.id, stage[t.id], otherStage[t.id]);
    }
    forall k: nat ensures TasksAt(plan.tasks, stage, k) == TasksAt(plan.tasks, otherStage, k) {
      SameTasksAt(plan.tasks, stage, otherStage, k);
    }
    SameHeight(plan, stages, stage, other, otherStage);
    SameHeight(plan, other, otherStage, stages, stage);
  }

  lemma {:induction false} SameTasksAt(tasks: seq<Task>, stage: map<string, nat>, other: map<string, nat>, k: nat)
    requires forall t | t in tasks :: t.id in stage && t.id in other && stage[t.id] == other[t.id]
    ensures TasksAt(tasks, stage, k) == TasksAt(tasks, other, k)
  {
    if tasks != [] {
      SameTasksAt(tasks[..|tasks|-1], stage, other, k);
    }
  }

  lemma SameHeight(plan: TaskPlan, stages: seq<seq<Task>>, stage: map<string, nat>,
                   other: seq<seq<Task>>, otherStage: map<string, nat>)
    requires Laid(plan, stages, stage) && Laid(plan, other, otherStage)
    requires forall t | t in plan.tasks :: stage[t.id] == otherStage[t.id]
    ensures |stages| <= |other|
  {
    if stages != [] {
      var top := stages[|stages|-1][0];
      TasksAtElements(plan.tasks, stage, |stages| - 1);
      assert top in stages[|stages|-1];
    }
  }

  lemma {:induction false} TasksAtElements(tasks: seq<Task>, stage: map<string, nat>, k: nat)
    ensures forall t :: t in TasksAt(tasks, stage, k) <==> t in tasks && t.id in stage && stage[t.id] == k
  {
    if tasks != [] {
      TasksAtElements(tasks[..|tasks|-1], stage, k);
      assert tasks == tasks[..|tasks|-1] + [tasks[|tasks|-1]];
    }
  }

  /** Within a stage the tasks stand in the order of the plan. */
  lemma {:induction false} StageKeepsPlanOrder(tasks: seq<Task>, stage: map<string, nat>, k: nat) returns (at: seq<nat>)
    ensures |at| == |TasksAt(tasks, stage, k)|
    ensures forall i | 0 <= i < |at| :: at[i] < |tasks| && tasks[at[i]] == TasksAt(tasks, stage, k)[i]
    ensures forall i, j | 0 <= i < j < |at| :: at[i] < at[j]
  {
    if tasks == [] {
      at := [];
    } else {
      var init, last := tasks[..|tasks|-1], tasks[|tasks|-1];
      at := StageKeepsPlanOrder(init, stage, k);
      if last.id in stage && stage[last.id] == k {
        at := at + [|init|];
      }
    }
  }

  lemma LaterThan(g: Graph, a: string, b: string, j: nat, k: nat)
    requires Acyclic(g) && g.Link(a, b) && IsStage(g, a, j) && IsStage(g, b, k)
    ensures j < k
  {
    var p :| RunnableChain(g, p, a) && |p| - 1 == j;
    var q := p + [b];
    assert PathTo(g, q, b);
    assert RunnableChain(g, q, b);
  }

  /** In an acyclic plan every dependency lies in an earlier stage than its dependant, so
      stages can run one after the other. */
  lemma StagesRespectEdges(plan: TaskPlan, stages: seq<seq<Task>>, stage: map<string, nat>, a: Task, b: Task,
                           j: nat, k: nat)
    requires Laid(plan, stages, stage) && Acyclic(GraphOf(plan))
    requires j < |stages| && k < |stages| && a in stages[j] && b in stages[k]
    requires Edge(a.id, b.id) in plan.edges
    ensures j < k
  {
    var g := GraphOf(plan);
    TasksAtElements(plan.tasks, stage, j);
    TasksAtElements(plan.tasks, stage, k);
    assert IsStage(g, a.id, j) && IsStage(g, b.id, k);
    LaterThan(g, a.id, b.id, j, k);
  }

  // ---- The algorithm -----------------------------------------------------------------------------

  /** The id map with empty adjacency lists. */
  method IndexTasks(plan: TaskPlan)
    returns (byId: map<string, Task>, incoming: map<string, seq<string>>, outgoing: map<string, seq<string>>)
    ensures byId.Keys == incoming.Keys == outgoing.Keys == GraphOf(plan).nodes
    ensures forall x | x in byId :: incoming[x] == [] && outgoing[x] == []
  {
    byId, incoming, outgoing := map[], map[], map[];
    for i := 0 to |plan.tasks|
      invariant byId.Keys == incoming.Keys == outgoing.Keys == set t | t in plan.tasks[..i] :: t.id
      invariant forall x | x in byId :: incoming[x] == [] && outgoing[x] == []
    {
      var t := plan.tasks[i];
      assert plan.tasks[..i+1] == plan.tasks[..i] + [t];
      byId := byId[t.id := t];
      incoming := incoming[t.id := []];
      outgoing := outgoing[t.id := []];
    }
    assert plan.tasks[..|plan.tasks|] == plan.tasks;
  }

  ghost predicate Adjacent(nodes: set<string>, edges: seq<Edge>, incoming: map<string, seq<string>>,
                           outgoing: map<string, seq<string>>) {
    && incoming.Keys == outgoing.Keys == nodes
    && (forall x | x in nodes :: incoming[x] == Sources(nodes, edges, x))
    && (forall x | x in nodes :: outgoing[x] == Targets(nodes, edges, x))
  }

  lemma AdjacentStep(nodes: set<string>, edges: seq<Edge>, incoming: map<string, seq<string>>,
                     outgoing: map<string, seq<string>>, e: Edge)
    requires Adjacent(nodes, edges, incoming, outgoing)
    ensures !Known(nodes, e) ==> Adjacent(nodes, edges + [e], incoming, outgoing)
    ensures Known(nodes, e) ==>
              Adjacent(nodes, edges + [e], incoming[e.toTaskId := incoming[e.toTaskId] + [e.fromTaskId]],
                       outgoing[e.fromTaskId := outgoing[e.fromTaskId] + [e.toTaskId]])
  {
    assert (edges + [e])[..|edges|] == edges;
  }

  /** The adjacency lists; edges with an unknown end are skipped. */
  method BuildAdjacency(plan: TaskPlan)
    returns (incoming: map<string, seq<string>>, outgoing: map<string, seq<string>>)
    ensures Adjacent(GraphOf(plan).nodes, plan.edges, incoming, outgoing)
  {
    var byId;
    byId, incoming, outgoing := IndexTasks(plan);
    hide GraphOf;
    for i := 0 to |plan.edges|
      invariant byId.Keys == GraphOf(plan).nodes
      invariant Adjacent(byId.Keys, plan.edges[..i], incoming, outgoing)
    {
      var e := plan.edges[i];
      AdjacentStep(byId.Keys, plan.edges[..i], incoming, outgoing, e);
      assert plan.edges[..i+1] == plan.edges[..i] + [e];
      if e.fromTaskId !in byId || e.toTaskId !in byId {
        continue;
      }
      incoming := incoming[e.toTaskId := incoming[e.toTaskId] + [e.fromTaskId]];
      outgoing := outgoing[e.fromTaskId := outgoing[e.fromTaskId] + [e.toTaskId]];
    }
    assert plan.edges[..|plan.edges|] == plan.edges;
  }

  lemma InitialState(g: Graph, queue: seq<string>, indeg: map<string, int>, stage: map<string, nat>)
    requires indeg.Keys == g.nodes
    requires forall x | x in g.nodes :: indeg[x] == |Sources(g.nodes, g.edges, x)|
    requires forall i, j | 0 <= i < j < |queue| :: queue[i] != queue[j]
    requires forall x :: x in queue <==> x in g.nodes && indeg[x] == 0
    requires stage.Keys == Elements(queue) && forall x | x in stage :: stage[x] == 0
    ensures QueueState(g, {}, queue, "", [], indeg, stage)
  {
    forall x | x in g.nodes ensures indeg[x] == Pending(g.nodes, g.edges, x, {}) {
      PendingAtStart(g.nodes, g.edges, x);
    }
  }

  method CountIncoming(tasks: seq<Task>, incoming: map<string, seq<string>>) returns (indeg: map<string, int>)
    requires incoming.Keys == set t | t in tasks :: t.id
    ensures indeg.Keys == incoming.Keys
    ensures forall x | x in indeg :: indeg[x] == |incoming[x]|
  {
    indeg := map[];
    for i := 0 to |tasks|
      invariant indeg.Keys == set t | t in tasks[..i] :: t.id
      invariant forall x | x in indeg :: x in incoming && indeg[x] == |incoming[x]|
    {
      assert tasks[..i+1] == tasks[..i] + [tasks[i]];
      indeg := indeg[tasks[i].id := |incoming[tasks[i].id]|];
    }
    assert tasks[..|tasks|] == tasks;
  }

  /** Tasks without an incoming edge start the queue at stage 0. */
  method SeedQueue(tasks: seq<Task>, indeg: map<string, int>)
    returns (queue: seq<string>, stageOf: map<string, nat>)
    requires DistinctIds(tasks) && indeg.Keys == set t | t in tasks :: t.id
    ensures forall j, k | 0 <= j < k < |queue| :: queue[j] != queue[k]
    ensures forall x :: x in queue <==> x in indeg && indeg[x] == 0
    ensures stageOf.Keys == Elements(queue) && forall x | x in stageOf :: stageOf[x] == 0
  {
    queue, stageOf := [], map[];
    for i := 0 to |tasks|
      invariant forall j, k | 0 <= j < k < |queue| :: queue[j] != queue[k]
      invariant forall x | x in queue :: x in indeg && indeg[x] == 0
      invariant forall j | i <= j < |tasks| :: tasks[j].id !in queue
      invariant forall j | 0 <= j < i && indeg[tasks[j].id] == 0 :: tasks[j].id in queue
      invariant stageOf.Keys == Elements(queue)
      invariant forall x | x in stageOf :: stageOf[x] == 0
    {
      var t := tasks[i];
      if indeg[t.id] == 0 {
        stageOf := stageOf[t.id := 0];
        queue := queue + [t.id];
      }
    }
  }

  /** Relax every outgoing edge of one task. */
  method RelaxTargets(ghost g: Graph, ghost done: set<string>, id: string, targets: seq<string>,
                      queue0: seq<string>, indeg0: map<string, int>, stageOf0: map<string, nat>)
    returns (queue: seq<string>, indeg: map<string, int>, stageOf: map<string, nat>)
    requires QueueState(g, done, queue0, id, targets, indeg0, stageOf0)
    requires id in done && id in stageOf0 && forall x | x in targets :: g.Link(id, x)
    ensures QueueState(g, done, queue, id, [], indeg, stageOf)
    ensures queue0 <= queue
  {
    hide QueueState;
    queue, indeg, stageOf := queue0, indeg0, stageOf0;
    var s := stageOf[id];
    for i := 0 to |targets|
      invariant QueueState(g, done, queue, id, targets[i..], indeg, stageOf)
      invariant queue0 <= queue && id in stageOf && stageOf[id] == s
    {
      var next := targets[i];
      Relax(g, done, queue, targets[i..], indeg, stageOf, id);
      assert targets[i..][1..] == targets[i+1..];
      var candidate := s + 1;
      if next !in stageOf || candidate > stageOf[next] {
        stageOf := stageOf[next := candidate];
      }
      var d := indeg[next] - 1;
      indeg := indeg[next := d];
      if d == 0 {
        queue := queue + [next];
      }
    }
  }

  lemma NextIsNew(g: Graph, queue: seq<string>, head: nat, cur: string, indeg: map<string, int>, stage: map<string,
                  nat>)
    requires head < |queue| && QueueState(g, Elements(queue[..head]), queue, cur, [], indeg, stage)
    ensures queue[head] !in Elements(queue[..head])
  {
  }

  lemma Settled(g: Graph, done: set<string>, queue: seq<string>, cur: string, cur': string, indeg: map<string, int>,
                stage: map<string, nat>)
    requires QueueState(g, done, queue, cur, [], indeg, stage)
    ensures QueueState(g, done, queue, cur', [], indeg, stage)
  {
  }

  /** Kahn's algorithm with longest-path relaxation. */
  method RunQueue(plan: TaskPlan, ghost incoming: map<string, seq<string>>, outgoing: map<string, seq<string>>,
                  queue0: seq<string>,
                  indeg0: map<string, int>, stageOf0: map<string, nat>)
    returns (stageOf: map<string, nat>, ghost queue: seq<string>, ghost indeg: map<string, int>)
    requires Adjacent(GraphOf(plan).nodes, plan.edges, incoming, outgoing)
    requires QueueState(GraphOf(plan), {}, queue0, "", [], indeg0, stageOf0)
    ensures QueueState(GraphOf(plan), Elements(queue), queue, "", [], indeg, stageOf)
  {
    ghost var g := GraphOf(plan);
    hide QueueState;
    ghost var done: set<string>, cur := {}, "";
    var pending, degrees := queue0, indeg0;
    stageOf := stageOf0;
    var head := 0;
    while head < |pending|
      invariant head <= |pending| && done == Elements(pending[..head])
      invariant QueueState(g, done, pending, cur, [], degrees, stageOf)
      decreases g.nodes - done
    {
      var id := pending[head];
      ghost var before := done;
      NextIsNew(g, pending, head, cur, degrees, stageOf);
      TakeNext(g, done, pending, degrees, stageOf, cur, id);
      TargetsAreSuccessors(g, id);
      done, cur := done + {id}, id;
      assert id in g.nodes - before;
      assert pending[..head+1] == pending[..head] + [id];
      ghost var prior := pending;
      pending, degrees, stageOf := RelaxTargets(g, done, id, outgoing[id], pending, degrees, stageOf);
      head := head + 1;
      assert pending[..head] == prior[..head];
    }
    assert pending[..head] == pending;
    queue, indeg := pending, degrees;
    Settled(g, done, queue, cur, "", indeg, stageOf);
  }

  /** Tasks the queue has not reached fall to stage 0. */
  method FillUnresolved(tasks: seq<Task>, reached: map<string, nat>) returns (stageOf: map<string, nat>)
    requires reached.Keys <= set t | t in tasks :: t.id
    ensures stageOf.Keys == set t | t in tasks :: t.id
    ensures forall x | x in stageOf :: stageOf[x] == if x in reached then reached[x] else 0
  {
    stageOf := reached;
    for i := 0 to |tasks|
      invariant forall x | x in reached :: x in stageOf
      invariant forall x | x in stageOf :: stageOf[x] == if x in reached then reached[x] else 0
      invariant stageOf.Keys <= set t | t in tasks :: t.id
      invariant forall j | 0 <= j < i :: tasks[j].id in stageOf
    {
      if tasks[i].id !in stageOf {
        stageOf := stageOf[tasks[i].id := 0];
      }
    }
  }

  method HighestStage(tasks: seq<Task>, stageOf: map<string, nat>) returns (maxStage: nat)
    requires tasks != [] && forall t | t in tasks :: t.id in stageOf
    ensures forall t | t in tasks :: stageOf[t.id] <= maxStage
    ensures exists t :: t in tasks && stageOf[t.id] == maxStage
  {
    maxStage := 0;
    ghost var top := 0;
    for i := 0 to |tasks|
      invariant forall j | 0 <= j < i :: stageOf[tasks[j].id] <= maxStage
      invariant 0 <= top < |tasks| && (i > 0 ==> stageOf[tasks[top].id] == maxStage)
      invariant i == 0 ==> maxStage == 0
    {
      if stageOf[tasks[i].id] > maxStage {
        maxStage := stageOf[tasks[i].id];
        top := i;
      } else if i == 0 {
        top := 0;
      }
    }
    assert tasks[top] in tasks;
  }

  method GroupByStage(tasks: seq<Task>, stageOf: map<string, nat>, maxStage: nat) returns (stages: seq<seq<Task>>)
    requires forall t | t in tasks :: t.id in stageOf && stageOf[t.id] <= maxStage
    ensures |stages| == maxStage + 1
    ensures forall k | 0 <= k < |stages| :: stages[k] == TasksAt(tasks, stageOf, k)
  {
    stages := seq(maxStage + 1, _ => []);
    for i := 0 to |tasks|
      invariant |stages| == maxStage + 1
      invariant forall k | 0 <= k < |stages| :: stages[k] == TasksAt(tasks[..i], stageOf, k)
    {
      var t := tasks[i];
      assert tasks[..i+1][..i] == tasks[..i];
      stages := stages[stageOf[t.id] := stages[stageOf[t.id]] + [t]];
    }
    assert tasks[..|tasks|] == tasks;
  }

  lemma LayeredIsLaid(plan: TaskPlan, done: set<string>, stage: map<string, nat>, stages: seq<seq<Task>>)
    requires Layered(GraphOf(plan), done, stage)
    requires forall k | 0 <= k < |stages| :: stages[k] == TasksAt(plan.tasks, stage, k)
    requires forall t | t in plan.tasks :: t.id in stage && stage[t.id] < |stages|
    requires exists t :: t in plan.tasks && stage[t.id] == |stages| - 1
    ensures Laid(plan, stages, stage)
  {
    var g := GraphOf(plan);
    forall t | t in plan.tasks ensures IsStage(g, t.id, stage[t.id]) {
      LayeredIsLongestChain(g, done, stage, t.id);
    }
    var top :| top in plan.tasks && stage[top.id] == |stages| - 1;
    forall k: nat | k < |stages| ensures stages[k] != [] {
      NoGap(g, done, stage, top.id, k);
      var y :| y in g.nodes && stage[y] == k;
      var t :| t in plan.tasks && t.id == y;
      TasksAtElements(plan.tasks, stage, k);
      assert t in stages[k];
    }
  }

  /** Layering of a plan: the tasks by stage. The empty plan has no stages. */
  method ComputeStages(plan: TaskPlan) returns (stages: seq<seq<Task>>, ghost stage: map<string, nat>)
    requires DistinctIds(plan.tasks)
    ensures Laid(plan, stages, stage)
    ensures plan.tasks == [] <==> stages == []
  {
    var tasks := plan.tasks;
    if |tasks| == 0 {
      return [], map[];
    }
    hide QueueState, Layered, Laid;
    var incoming, outgoing := BuildAdjacency(plan);
    var indeg := CountIncoming(tasks, incoming);
    var queue, stageOf := SeedQueue(tasks, indeg);
    InitialState(GraphOf(plan), queue, indeg, stageOf);
    ghost var order, left;
    stageOf, order, left := RunQueue(plan, incoming, outgoing, queue, indeg, stageOf);
    ghost var reached := stageOf;
    QueueKeys(GraphOf(plan), order, left, reached);
    stageOf := FillUnresolved(tasks, stageOf);
    QueueDone(GraphOf(plan), order, left, reached, stageOf);
    var maxStage := HighestStage(tasks, stageOf);
    stages := GroupByStage(tasks, stageOf, maxStage);
    stage := stageOf;
    LayeredIsLaid(plan, Elements(order), stage, stages);
    assert plan.tasks != [];
  }

  lemma QueueKeys(g: Graph, queue: seq<string>, indeg: map<string, int>, stage: map<string, nat>)
    requires QueueState(g, Elements(queue), queue, "", [], indeg, stage)
    ensures stage.Keys <= g.nodes
  {
  }
}
