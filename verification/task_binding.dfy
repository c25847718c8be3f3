/** Binding tasks to the spans that execute them when the two arrive in either order
    (server/harmonograf_server/ingest.py; the store as server/harmonograf_server/storage/memory.py
    keeps it). */
module TaskBinding {
  import opened Common

  type Id = string

  datatype TaskStatus = Pending | Running | Completed | Failed | Blocked | TaskCancelled
  datatype Task = Task(assignee: Id, status: TaskStatus, bound: Option<Id>, cancelReason: string)

  /** Task ids are distinct within a plan, so its tasks are a map. */
  datatype Plan = Plan(session: Id, tasks: map<Id, Task>)

  datatype SpanKind = Invocation | LlmCall | ToolCall | OtherKind
  datatype Span = Span(session: Id, agent: Id, kind: SpanKind, running: bool, start: int)

  type Plans = map<Id, Plan>
  type Spans = map<Id, Span>
  type Waiting = map<(Id, Id), seq<(Id, Id)>>

  ghost predicate Owns(plans: Plans, s: Id, t: Id, p: Id) {
    p in plans && plans[p].session == s && t in plans[p].tasks
  }

  /** A task id belongs to at most one plan of its session. */
  ghost predicate UniqueTasks(plans: Plans) {
    forall s, t, p, q | Owns(plans, s, t, p) && Owns(plans, s, t, q) :: p == q
  }

  /** The task index is a cache of the plan scan: what it knows is what a scan would find. */
  ghost predicate IndexAgrees(plans: Plans, index: map<(Id, Id), Id>) {
    forall k | k in index :: Owns(plans, k.0, k.1, index[k])
  }

  predicate IsInvocation(span: Span, s: Id, a: Id) {
    span.session == s && span.agent == a && span.kind.Invocation?
  }

  ghost predicate HasInvocation(spans: Spans, s: Id, a: Id) {
    exists id | id in spans :: IsInvocation(spans[id], s, a)
  }

  /** No task waits for an invocation span that is already stored, unless its session has no
      name, and a waiting entry names a plan of the session it waits in. */
  ghost predicate WaitsForNothingStored(plans: Plans, spans: Spans, waiting: Waiting) {
    forall k | k in waiting ::
      && k.1 != "" && (k.0 != "" ==> !HasInvocation(spans, k.0, k.1))
      && forall e | e in waiting[k] :: e.0 in plans && plans[e.0].session == k.0
  }

  /** The span a started task is bound to: the latest-started running invocation of the agent,
      or else the latest-started invocation. */
  ghost predicate Chosen(spans: Spans, s: Id, a: Id, choice: Option<Id>) {
    match choice
    case None => s == "" || a == "" || !HasInvocation(spans, s, a)
    case Some(best) =>
      && s != "" && a != "" && best in spans && IsInvocation(spans[best], s, a)
      && forall id | id in spans && IsInvocation(spans[id], s, a) :: Prefers(spans[best], spans[id])
  }

  predicate Prefers(best: Span, other: Span) {
    if best.running == other.running then other.start <= best.start else best.running
  }

  /** The latest-started running invocation of the agent, or else the latest-started one. */
  ghost predicate Best(spans: Spans, s: Id, a: Id, best: Id) {
    && best in spans
    && spans[best].session == s && spans[best].agent == a && spans[best].kind == Invocation
    && forall id | id in spans && spans[id].session == s && spans[id].agent == a && spans[id].kind == Invocation ::
         && (spans[id].running ==> spans[best].running)
         && (spans[id].running == spans[best].running ==> spans[id].start <= spans[best].start)
  }

  lemma ChosenIsBest(spans: Spans, s: Id, a: Id, choice: Option<Id>)
    requires Chosen(spans, s, a, choice)
    ensures choice.Some? ==> Best(spans, s, a, choice.value)
    ensures choice.None? && s != "" && a != "" ==>
              forall id | id in spans ::
                !(spans[id].session == s && spans[id].agent == a && spans[id].kind == Invocation)
  {
    forall id | id in spans && spans[id].session == s && spans[id].agent == a && spans[id].kind == Invocation
      ensures IsInvocation(spans[id], s, a)
    {
    }
  }

  /** `update_task_status`: a missing plan or task changes nothing, an absent span keeps the
      binding and an empty reason keeps the reason. */
  ghost function SetRow(plans: Plans, p: Id, t: Id, status: TaskStatus, bound: Option<Id>,
                        reason: string := ""): Plans {
    if p !in plans || t !in plans[p].tasks then plans
    else
      var task := plans[p].tasks[t];
      var row := Written(task, status, bound, reason);
      plans[p := plans[p].(tasks := plans[p].tasks[t := row])]
  }

  function Written(task: Task, status: TaskStatus, bound: Option<Id>, reason: string): Task {
    task.(status := status, bound := if bound.Some? then bound else task.bound,
          cancelReason := if reason != "" then reason else task.cancelReason)
  }

  /** Exactly the listed tasks get the span; nothing else of any task changes. */
  ghost function BoundTo(plans: Plans, entries: set<(Id, Id)>, span: Id): Plans {
    map p | p in plans ::
      plans[p].(tasks := map t | t in plans[p].tasks ::
        if (p, t) in entries then plans[p].tasks[t].(bound := Some(span)) else plans[p].tasks[t])
  }

  ghost function Queue(waiting: Waiting, k: (Id, Id)): seq<(Id, Id)> {
    if k in waiting then waiting[k] else []
  }

  ghost function Entries(queue: seq<(Id, Id)>): set<(Id, Id)> {
    set e | e in queue
  }

  datatype State = State(plans: Plans, spans: Spans, waiting: Waiting)

  ghost function OwnerOf(plans: Plans, s: Id, t: Id): (o: Option<Id>)
    ensures o.Some? ==> Owns(plans, s, t, o.value)
    ensures o.None? ==> forall p :: !Owns(plans, s, t, p)
  {
    if exists p :: Owns(plans, s, t, p) then var p :| Owns(plans, s, t, p); Some(p) else None
  }

  /** A task starts: it runs, and is bound to the chosen span or waits for one. */
  ghost function Started(st: State, s: Id, t: Id, choice: Option<Id>): State {
    var o := OwnerOf(st.plans, s, t);
    if t == "" || o.None? then st
    else
      var (p, a) := (o.value, st.plans[o.value].tasks[t].assignee);
      if a == "" then st.(plans := SetRow(st.plans, p, t, Running, None))
      else st.(plans := SetRow(st.plans, p, t, Running, choice),
               waiting := if choice.Some? then st.waiting
                          else st.waiting[(s, a) := Queue(st.waiting, (s, a)) + [(p, t)]])
  }

  /** A span arrives: a known id keeps its span, and an invocation takes every task that waits
      for its agent. */
  ghost function Arrived(st: State, id: Id, span: Span): State {
    var stored := if id in st.spans then st.spans[id] else span;
    var k := (stored.session, stored.agent);
    if !stored.kind.Invocation? then st.(spans := st.spans[id := stored])
    else State(BoundTo(st.plans, Entries(Queue(st.waiting, k)), id), st.spans[id := stored], st.waiting - {k})
  }

  ghost predicate Consistent(st: State) {
    UniqueTasks(st.plans) && WaitsForNothingStored(st.plans, st.spans, st.waiting)
  }

  // ---- The order of the two events --------------------------------------------------

  ghost function AssigneeOf(plans: Plans, s: Id, t: Id): Id {
    var o := OwnerOf(plans, s, t);
    if o.Some? then plans[o.value].tasks[t].assignee else ""
  }

  /** Binding rows does not move tasks between plans or change their assignee. */
  lemma BoundToKeepsOwners(plans: Plans, entries: set<(Id, Id)>, span: Id, s: Id, t: Id)
    requires UniqueTasks(plans)
    ensures OwnerOf(BoundTo(plans, entries, span), s, t) == OwnerOf(plans, s, t)
    ensures UniqueTasks(BoundTo(plans, entries, span))
  {
    var after := BoundTo(plans, entries, span);
    assert forall s', t', p :: Owns(after, s', t', p) <==> Owns(plans, s', t', p);
  }

  /** A task start and the arrival of the first invocation span of its assignee lead to the
      same tasks, the same spans and the same waiting table in either order. */
  lemma StartAndFirstSpanCommute(st: State, s: Id, t: Id, id: Id, span: Span, early: Option<Id>, late: Option<Id>)
    requires Consistent(st) && t != "" && OwnerOf(st.plans, s, t).Some?
    requires var a := AssigneeOf(st.plans, s, t);
      && s != "" && a != "" && IsInvocation(span, s, a) && id !in st.spans
      && !HasInvocation(st.spans, s, a)
      && Chosen(st.spans, s, a, early) && Chosen(st.spans[id := span], s, a, late)
    ensures Arrived(Started(st, s, t, early), id, span) == Started(Arrived(st, id, span), s, t, late)
    ensures var after := Arrived(Started(st, s, t, early), id, span);
      var p := OwnerOf(st.plans, s, t).value;
      after.plans[p].tasks[t].bound == Some(id) && after.plans[p].tasks[t].status == Running
  {
    var (p, a) := (OwnerOf(st.plans, s, t).value, AssigneeOf(st.plans, s, t));
    var k, queue := (s, a), Queue(st.waiting, (s, a));
    assert late == Some(id) by { OnlyChoice(st.spans, id, span, s, a, late); }
    BoundToKeepsOwners(st.plans, Entries(queue), id, s, t);
    BindLast(st.plans, queue, p, t, id);
    assert st.waiting[k := queue + [(p, t)]] - {k} == st.waiting - {k};
  }

  lemma OnlyChoice(spans: Spans, id: Id, span: Span, s: Id, a: Id, late: Option<Id>)
    requires s != "" && a != "" && id !in spans && !HasInvocation(spans, s, a) && IsInvocation(span, s, a)
    requires Chosen(spans[id := span], s, a, late)
    ensures late == Some(id)
  {
    assert HasInvocation(spans[id := span], s, a) by {
      assert IsInvocation(spans[id := span][id], s, a);
    }
    assert forall j | j in spans :: spans[id := span][j] == (if j == id then span else spans[j]);
  }

  /** Joining the queue and then being bound with it is being bound with it and then on its own. */
  lemma BindLast(plans: Plans, queue: seq<(Id, Id)>, p: Id, t: Id, id: Id)
    requires p in plans && t in plans[p].tasks
    ensures BoundTo(SetRow(plans, p, t, Running, None), Entries(queue + [(p, t)]), id)
         == SetRow(BoundTo(plans, Entries(queue), id), p, t, Running, Some(id))
  {
    hide BoundTo, SetRow, Entries;
    var started, bound := SetRow(plans, p, t, Running, None), BoundTo(plans, Entries(queue), id);
    var early, late := BoundTo(started, Entries(queue + [(p, t)]), id), SetRow(bound, p, t, Running, Some(id));
    SetRowAt(plans, p, t, Running, None);
    BoundToAt(plans, Entries(queue), id);
    BoundToAt(started, Entries(queue + [(p, t)]), id);
    SetRowAt(bound, p, t, Running, Some(id));
    EntriesAppend(queue, (p, t));
    SameRows(early, late);
  }

  lemma EntriesAppend(queue: seq<(Id, Id)>, e: (Id, Id))
    ensures Entries(queue + [e]) == Entries(queue) + {e}
  {
  }

  lemma BoundToAt(plans: Plans, entries: set<(Id, Id)>, id: Id)
    ensures var after := BoundTo(plans, entries, id);
      after.Keys == plans.Keys && forall q | q in plans ::
        && after[q].session == plans[q].session && after[q].tasks.Keys == plans[q].tasks.Keys
        && forall u | u in plans[q].tasks :: after[q].tasks[u] ==
             if (q, u) in entries then plans[q].tasks[u].(bound := Some(id)) else plans[q].tasks[u]
  {
  }

  /** One row takes the status, the span when one is given and the reason when it is not empty. */
  lemma SetRowAt(plans: Plans, p: Id, t: Id, status: TaskStatus, bound: Option<Id>, reason: string := "")
    requires p in plans && t in plans[p].tasks
    ensures var after := SetRow(plans, p, t, status, bound, reason);
      after.Keys == plans.Keys && forall q | q in plans ::
        && after[q].session == plans[q].session && after[q].tasks.Keys == plans[q].tasks.Keys
        && forall u | u in plans[q].tasks :: after[q].tasks[u] ==
             if (q, u) == (p, t) then plans[p].tasks[t].(status := status,
               bound := if bound.Some? then bound else plans[p].tasks[t].bound,
               cancelReason := if reason != "" then reason else plans[p].tasks[t].cancelReason)
             else plans[q].tasks[u]
  {
  }

  /** No two invocations of the agent are equally good. */
  ghost predicate NoTies(spans: Spans, s: Id, a: Id) {
    forall i, j | i in spans && j in spans && IsInvocation(spans[i], s, a) && IsInvocation(spans[j], s, a) &&
      spans[i].running == spans[j].running && spans[i].start == spans[j].start :: i == j
  }

  /** When the agent already has an invocation, the order of the two events matters if the new
      span is better than the one chosen before it, and, ties aside, only then. */
  lemma LaterSpanMatters(st: State, s: Id, t: Id, id: Id, span: Span, early: Option<Id>, late: Option<Id>)
    requires Consistent(st) && t != "" && OwnerOf(st.plans, s, t).Some?
    requires var a := AssigneeOf(st.plans, s, t);
      && s != "" && a != "" && IsInvocation(span, s, a) && id !in st.spans
      && HasInvocation(st.spans, s, a)
      && Chosen(st.spans, s, a, early) && Chosen(st.spans[id := span], s, a, late)
    ensures early.Some?
    ensures var same := Arrived(Started(st, s, t, early), id, span) == Started(Arrived(st, id, span), s, t, late);
      var chosen := st.spans[early.value];
      var better := (span.running && !chosen.running) || (span.running == chosen.running && chosen.start < span.start);
      && (better ==> !same)
      && (NoTies(st.spans[id := span], s, AssigneeOf(st.plans, s, t)) ==> (same <==> !better))
  {
    hide Started, Arrived, Consistent, OwnerOf, NoTies;
    ChoiceDecides(st, s, t, id, span, early, late);
    LaterChoice(st.spans, s, AssigneeOf(st.plans, s, t), id, span, early, late);
  }

  /** The new span is chosen when it is better than the old choice; without ties, it or the old
      choice is chosen, the better of the two. */
  lemma LaterChoice(spans: Spans, s: Id, a: Id, id: Id, span: Span, early: Option<Id>, late: Option<Id>)
    requires s != "" && a != "" && IsInvocation(span, s, a) && id !in spans && HasInvocation(spans, s, a)
    requires Chosen(spans, s, a, early) && Chosen(spans[id := span], s, a, late)
    ensures early.Some? && late.Some?
    ensures !Prefers(spans[early.value], span) ==> late != early
    ensures NoTies(spans[id := span], s, a) ==> (late == early <==> Prefers(spans[early.value], span))
  {
    var more := spans[id := span];
    var other :| other in spans && IsInvocation(spans[other], s, a);
    assert IsInvocation(more[other], s, a) && IsInvocation(more[id], s, a);
    assert HasInvocation(more, s, a);
    assert more[early.value] == spans[early.value];
    assert late.value != id ==> late.value in spans && more[late.value] == spans[late.value];
  }

  lemma ChoiceDecides(st: State, s: Id, t: Id, id: Id, span: Span, early: Option<Id>, late: Option<Id>)
    requires Consistent(st) && t != "" && OwnerOf(st.plans, s, t).Some?
    requires var a := AssigneeOf(st.plans, s, t);
      && s != "" && a != "" && IsInvocation(span, s, a) && id !in st.spans
      && HasInvocation(st.spans, s, a)
      && Chosen(st.spans, s, a, early) && Chosen(st.spans[id := span], s, a, late)
    ensures Arrived(Started(st, s, t, early), id, span) == Started(Arrived(st, id, span), s, t, late) <==> early == late
  {
    var (p, a) := (OwnerOf(st.plans, s, t).value, AssigneeOf(st.plans, s, t));
    var k := (s, a);
    assert k !in st.waiting;
    var other :| other in st.spans && IsInvocation(st.spans[other], s, a);
    assert st.spans[id := span][other] == st.spans[other];
    assert late.Some? && early.Some?;
    NothingBound(st.plans, id);
    NothingBound(SetRow(st.plans, p, t, Running, early), id);
    assert Entries([]) == {};
    assert st.waiting - {k} == st.waiting;
    SetRowAt(st.plans, p, t, Running, early);
    SetRowAt(st.plans, p, t, Running, late);
  }

  /** A started task of the session runs. It is bound to the span chosen for its assignee and
      keeps an earlier one when there is none to choose; then, and only then, it waits, if it
      has an assignee. No other task changes. */
  lemma StartedMeans(st: State, s: Id, t: Id, p: Id, choice: Option<Id>)
    requires UniqueTasks(st.plans) && t != "" && p in st.plans && st.plans[p].session == s && t in st.plans[p].tasks
    ensures var after, task := Started(st, s, t, choice), st.plans[p].tasks[t];
      && after.spans == st.spans && after.plans.Keys == st.plans.Keys
      && (forall q | q in st.plans ::
            && after.plans[q].session == st.plans[q].session && after.plans[q].tasks.Keys == st.plans[q].tasks.Keys
            && forall u | u in st.plans[q].tasks && (q, u) != (p, t) ::
                 after.plans[q].tasks[u] == st.plans[q].tasks[u])
      && after.plans[p].tasks[t] == task.(status := Running,
           bound := if task.assignee != "" && choice.Some? then choice else task.bound)
      && after.waiting == if task.assignee == "" || choice.Some? then st.waiting
           else st.waiting[(s, task.assignee) :=
             (if (s, task.assignee) in st.waiting then st.waiting[(s, task.assignee)] else []) + [(p, t)]]
  {
    BoundIsUnique(st, p, s, t);
    SetRowAt(st.plans, p, t, Running, if st.plans[p].tasks[t].assignee == "" then None else choice);
  }

  /** The first span under an id is kept. An invocation is given to every task that waits for
      its agent, and nobody waits for that agent any more; a task keeps all else. */
  lemma ArrivedMeans(st: State, id: Id, span: Span)
    ensures var after, stored := Arrived(st, id, span), if id in st.spans then st.spans[id] else span;
      var k := (stored.session, stored.agent);
      && after.spans == st.spans[id := stored]
      && after.waiting == (if stored.kind == Invocation then st.waiting - {k} else st.waiting)
      && after.plans.Keys == st.plans.Keys
      && forall q | q in st.plans ::
           && after.plans[q].session == st.plans[q].session && after.plans[q].tasks.Keys == st.plans[q].tasks.Keys
           && forall u | u in st.plans[q].tasks :: after.plans[q].tasks[u] ==
                if stored.kind == Invocation && k in st.waiting && (q, u) in st.waiting[k]
                then st.plans[q].tasks[u].(bound := Some(id)) else st.plans[q].tasks[u]
  {
    var stored := if id in st.spans then st.spans[id] else span;
    BoundToAt(st.plans, Entries(Queue(st.waiting, (stored.session, stored.agent))), id);
  }

  lemma NothingBound(plans: Plans, id: Id)
    ensures BoundTo(plans, {}, id) == plans
  {
    BoundToAt(plans, {}, id);
    var after := BoundTo(plans, {}, id);
    forall q | q in plans ensures after[q] == plans[q] {
      assert after[q].tasks == plans[q].tasks;
    }
  }

  // ---- The handlers -----------------------------------------------------------------

  /** Every stored task is in the index, so that no scan is needed. */
  ghost predicate Warm(plans: Plans, index: map<(Id, Id), Id>) {
    forall s, t, p | Owns(plans, s, t, p) :: (s, t) in index
  }

  /** The plans differ in nothing but the state of their tasks. */
  ghost predicate SameShape(a: Plans, b: Plans) {
    && a.Keys == b.Keys
    && forall p | p in a :: a[p].session == b[p].session && a[p].tasks.Keys == b[p].tasks.Keys
  }

  lemma ShapeKeeps(a: Plans, b: Plans, spans: Spans, waiting: Waiting, index: map<(Id, Id), Id>)
    requires SameShape(a, b)
    ensures UniqueTasks(a) ==> UniqueTasks(b)
    ensures IndexAgrees(a, index) ==> IndexAgrees(b, index)
    ensures Warm(a, index) ==> Warm(b, index)
    ensures WaitsForNothingStored(a, spans, waiting) ==> WaitsForNothingStored(b, spans, waiting)
    ensures UniqueTasks(a) ==> forall s, t :: OwnerOf(b, s, t) == OwnerOf(a, s, t)
  {
    assert forall s, t, p :: Owns(a, s, t, p) <==> Owns(b, s, t, p);
  }

  lemma SetRowShape(plans: Plans, p: Id, t: Id, status: TaskStatus, bound: Option<Id>, reason: string := "")
    ensures SameShape(plans, SetRow(plans, p, t, status, bound, reason))
  {
  }

  lemma BoundToShape(plans: Plans, entries: set<(Id, Id)>, id: Id)
    ensures SameShape(plans, BoundTo(plans, entries, id))
  {
    BoundToAt(plans, entries, id);
  }

  /** One more waiting entry is fulfilled with the status its task already has. */
  lemma BindOneMore(plans: Plans, entries: set<(Id, Id)>, p: Id, t: Id, status: TaskStatus, id: Id)
    requires p in plans && t in plans[p].tasks ==> status == plans[p].tasks[t].status
    ensures SetRow(BoundTo(plans, entries, id), p, t, status, Some(id)) == BoundTo(plans, entries + {(p, t)}, id)
  {
    hide BoundTo, SetRow;
    var bound, more := BoundTo(plans, entries, id), BoundTo(plans, entries + {(p, t)}, id);
    BoundToAt(plans, entries, id);
    if p in plans && t in plans[p].tasks {
      BindKnown(plans, entries, p, t, status, id);
    } else {
      BoundToAt(plans, entries + {(p, t)}, id);
      NoRow(bound, p, t, status, Some(id));
      SameRows(bound, more);
    }
  }

  lemma BindKnown(plans: Plans, entries: set<(Id, Id)>, p: Id, t: Id, status: TaskStatus, id: Id)
    requires p in plans && t in plans[p].tasks && status == plans[p].tasks[t].status
    ensures SetRow(BoundTo(plans, entries, id), p, t, status, Some(id)) == BoundTo(plans, entries + {(p, t)}, id)
  {
    hide BoundTo, SetRow, SameShape;
    var bound, more := BoundTo(plans, entries, id), BoundTo(plans, entries + {(p, t)}, id);
    BoundToAt(plans, entries, id);
    BoundToAt(plans, entries + {(p, t)}, id);
    var set' := SetRow(bound, p, t, status, Some(id));
    SetRowAt(bound, p, t, status, Some(id));
    assert SameShape(set', more) by { SetRowShape(bound, p, t, status, Some(id)); SameShapeAs(bound, set', more); }
    forall q, u | q in set' && u in set'[q].tasks ensures set'[q].tasks[u] == more[q].tasks[u] { }
    SameRows(set', more);
  }

  lemma SameShapeAs(a: Plans, b: Plans, c: Plans)
    requires SameShape(a, b) && a.Keys == c.Keys
    requires forall p | p in a :: a[p].session == c[p].session && a[p].tasks.Keys == c[p].tasks.Keys
    ensures SameShape(b, c)
  {
  }

  lemma NoRow(plans: Plans, p: Id, t: Id, status: TaskStatus, bound: Option<Id>)
    requires p !in plans || t !in plans[p].tasks
    ensures SetRow(plans, p, t, status, bound) == plans
  {
  }

  lemma SameRows(a: Plans, b: Plans)
    requires SameShape(a, b)
    requires forall p, t | p in a && t in a[p].tasks :: a[p].tasks[t] == b[p].tasks[t]
    ensures a == b
  {
    forall p | p in a ensures a[p] == b[p] {
      assert a[p].tasks == b[p].tasks;
    }
  }

  lemma BoundIsUnique(st: State, p: Id, s: Id, t: Id)
    requires UniqueTasks(st.plans) && Owns(st.plans, s, t, p)
    ensures OwnerOf(st.plans, s, t) == Some(p)
  {
  }

  class Ingest {
    var plans: Plans
    var spans: Spans
    var index: map<(Id, Id), Id>
    var waiting: Waiting

    ghost function View(): State
      reads this`plans, this`spans, this`waiting
    {
      State(plans, spans, waiting)
    }

    ghost predicate Valid()
      reads this
    {
      Consistent(View()) && IndexAgrees(plans, index)
    }

    /** A pipeline over an existing store starts with a cold index and nothing waiting. */
    constructor (plans: Plans, spans: Spans)
      requires UniqueTasks(plans)
      ensures Valid() && View() == State(plans, spans, map[]) && index == map[]
    {
      this.plans, this.spans, index, waiting := plans, spans, map[], map[];
    }

    /** The plan of a task: from the index, or from a scan whose finding is remembered. */
    method FindPlan(s: Id, t: Id) returns (plan: Option<Id>)
      requires UniqueTasks(plans) && IndexAgrees(plans, index)
      modifies this`index
      ensures IndexAgrees(plans, index) && plan == OwnerOf(plans, s, t)
      ensures plan.Some? ==> (s, t) in index && index[(s, t)] == plan.value
      ensures plan.Some? ==> plan.value in plans && plans[plan.value].session == s && t in plans[plan.value].tasks
      ensures plan.None? ==> forall p | p in plans && plans[p].session == s :: t !in plans[p].tasks
      ensures old(Warm(plans, index)) ==> index == old(index)
    {
      if (s, t) in index {
        BoundIsUnique(View(), index[(s, t)], s, t);
        return Some(index[(s, t)]);
      }
      var rest := plans.Keys;
      while rest != {}
        invariant rest <= plans.Keys && index == old(index)
        invariant forall p | p in plans && p !in rest :: !Owns(plans, s, t, p)
        decreases rest
      {
        var p :| p in rest;
        if plans[p].session == s && t in plans[p].tasks {
          BoundIsUnique(View(), p, s, t);
          index := index[(s, t) := p];
          return Some(p);
        }
        rest := rest - {p};
      }
      return None;
    }

    method LookupTask(s: Id, t: Id) returns (task: Option<Task>)
      requires UniqueTasks(plans) && IndexAgrees(plans, index)
      modifies this`index
      ensures IndexAgrees(plans, index)
      ensures var o := OwnerOf(plans, s, t);
        if o.None? then task.None?
        else task == Some(plans[o.value].tasks[t]) && (s, t) in index && index[(s, t)] == o.value
      ensures old(Warm(plans, index)) ==> index == old(index)
    {
      var p := FindPlan(s, t);
      if p.None? {
        return None;
      }
      return Some(plans[p.value].tasks[t]);
    }

    method UpdateTaskStatus(p: Id, t: Id, status: TaskStatus, bound: Option<Id>, reason: string)
      modifies this`plans
      ensures plans == SetRow(old(plans), p, t, status, bound, reason)
    {
      if p in plans && t in plans[p].tasks {
        var task := plans[p].tasks[t];
        var row := Written(task, status, bound, reason);
        plans := plans[p := plans[p].(tasks := plans[p].tasks[t := row])];
      }
    }

    /** The scan over the agent's spans, keeping the preferred one so far. */
    method FindInvocationSpan(s: Id, a: Id) returns (choice: Option<Id>)
      ensures Chosen(spans, s, a, choice)
      ensures choice.Some? ==> s != "" && a != "" && Best(spans, s, a, choice.value)
      ensures choice.None? && s != "" && a != "" ==> forall id | id in spans ::
                !(spans[id].session == s && spans[id].agent == a && spans[id].kind == Invocation)
    {
      choice := None;
      if s == "" || a == "" {
        return;
      }
      var rest := spans.Keys;
      while rest != {}
        invariant rest <= spans.Keys
        invariant choice.Some? ==> choice.value in spans && IsInvocation(spans[choice.value], s, a)
        invariant forall id | id in spans && id !in rest && IsInvocation(spans[id], s, a) ::
          choice.Some? && Prefers(spans[choice.value], spans[id])
        decreases rest
      {
        var id :| id in rest;
        if IsInvocation(spans[id], s, a) && (choice.None? || !Prefers(spans[choice.value], spans[id])) {
          choice := Some(id);
        }
        rest := rest - {id};
      }
      ChosenIsBest(spans, s, a, choice);
    }

    /** A status event for a task of the session; an unknown or empty task id changes nothing. */
    method ApplyStatus(s: Id, t: Id, status: TaskStatus, bound: Option<Id>, reason: string)
      requires Valid()
      modifies this`plans, this`index
      ensures Valid() && (old(Warm(plans, index)) ==> Warm(plans, index))
      ensures var o := OwnerOf(old(plans), s, t);
        plans == if t == "" || o.None? then old(plans) else SetRow(old(plans), o.value, t, status, bound, reason)
    {
      hide UniqueTasks, IndexAgrees, Warm, SetRow, WaitsForNothingStored, OwnerOf;
      if t == "" {
        return;
      }
      var p := FindPlan(s, t);
      if p.None? {
        return;
      }
      SetRowShape(plans, p.value, t, status, bound, reason);
      ShapeKeeps(plans, SetRow(plans, p.value, t, status, bound, reason), spans, waiting, index);
      UpdateTaskStatus(p.value, t, status, bound, reason);
    }

    /** A started task runs and is bound at once, or waits for its agent's first invocation. */
    method OnTaskStarted(s: Id, t: Id) returns (ghost choice: Option<Id>)
      requires Valid()
      modifies this`plans, this`index, this`waiting
      ensures Valid() && (old(Warm(plans, index)) ==> Warm(plans, index))
      ensures t != "" ==> Chosen(spans, s, AssigneeOf(old(plans), s, t), choice)
      ensures choice.Some? ==> Best(spans, s, AssigneeOf(old(plans), s, t), choice.value)
      ensures var a := AssigneeOf(old(plans), s, t);
        choice.None? && t != "" && s != "" && a != "" ==> forall id | id in spans ::
          !(spans[id].session == s && spans[id].agent == a && spans[id].kind == Invocation)
      ensures View() == Started(old(View()), s, t, choice)
    {
      hide UniqueTasks, IndexAgrees, Warm, SetRow, WaitsForNothingStored, HasInvocation;
      choice := None;
      if t == "" {
        return;
      }
      var bound := None;
      var task := LookupTask(s, t);
      if task.Some? && task.value.assignee != "" {
        var a := task.value.assignee;
        bound := FindInvocationSpan(s, a);
        choice := bound;
        if bound.None? {
          StartsWaiting(View(), s, t, a, index[(s, t)]);
          waiting := waiting[(s, a) := (if (s, a) in waiting then waiting[(s, a)] else []) + [(index[(s, t)], t)]];
        }
      }
      ApplyStatus(s, t, Running, bound, "");
    }

    /** Every task waiting for the span's agent gets the span and keeps its status. */
    method DrainPendingBindings(id: Id, span: Span)
      requires UniqueTasks(plans) && IndexAgrees(plans, index)
      requires forall e | e in Queue(waiting, (span.session, span.agent)) ::
        e.0 in plans && plans[e.0].session == span.session
      modifies this`plans, this`index, this`waiting
      ensures waiting == old(waiting) - {(span.session, span.agent)}
      ensures plans == BoundTo(old(plans), Entries(Queue(old(waiting), (span.session, span.agent))), id)
      ensures IndexAgrees(plans, index) && (old(Warm(plans, index)) ==> Warm(plans, index))
    {
      hide IndexAgrees, Warm, SetRow, BoundTo, OwnerOf, UniqueTasks, Entries;
      var k := (span.session, span.agent);
      NothingBound(plans, id);
      EntriesNone();
      if k !in waiting {
        assert waiting - {k} == waiting;
        return;
      }
      var queue := waiting[k];
      waiting := waiting - {k};
      for i := 0 to |queue|
        invariant plans == BoundTo(old(plans), Entries(queue[..i]), id)
        invariant UniqueTasks(plans) && IndexAgrees(plans, index) && (old(Warm(plans, index)) ==> Warm(plans, index))
        invariant waiting == old(waiting) - {k}
      {
        var (p, t) := queue[i];
        assert queue[i] in queue;
        var current := LookupTask(span.session, t);
        var status := if current.Some? then current.value.status else Running;
        WaitingRow(old(plans), Entries(queue[..i]), id, span.session, p, t);
        BindOneMore(old(plans), Entries(queue[..i]), p, t, status, id);
        SetRowShape(plans, p, t, status, Some(id));
        ShapeKeeps(plans, SetRow(plans, p, t, status, Some(id)), spans, map[], index);
        UpdateTaskStatus(p, t, status, Some(id), "");
        EntriesAppend(queue[..i], (p, t));
        assert queue[..i + 1] == queue[..i] + [(p, t)];
      }
      assert queue[..|queue|] == queue;
    }

    /** A span is stored unless its id is known; an invocation drains its agent's waiting
        tasks; a leaf span that carries a task id sets that task running on itself. */
    method OnSpanStart(id: Id, span: Span, taskAttribute: Id)
      requires Valid()
      modifies this
      ensures Valid() && (old(Warm(plans, index)) ==> Warm(plans, index))
      ensures var after := Arrived(old(View()), id, span);
        && spans == after.spans && waiting == after.waiting
        && var o := OwnerOf(after.plans, span.session, taskAttribute);
           plans == if taskAttribute != "" && (span.kind.LlmCall? || span.kind.ToolCall?) && o.Some?
                    then SetRow(after.plans, o.value, taskAttribute, Running, Some(id)) else after.plans
    {
      hide IndexAgrees, Warm, SetRow, BoundTo, OwnerOf, UniqueTasks, Entries;
      var stored := if id in spans then spans[id] else span;
      ArrivedKeeps(View(), id, span, index);
      if id !in spans {
        spans := spans[id := span];
      }
      assert spans == old(spans)[id := stored];
      if stored.kind.Invocation? {
        DrainPendingBindings(id, stored);
      }
      assert View() == Arrived(old(View()), id, span);
      if taskAttribute != "" && (span.kind.LlmCall? || span.kind.ToolCall?) {
        ApplyStatus(span.session, taskAttribute, Running, Some(id), "");
      }
    }

    /** A plan is stored, and the index forgets the tasks it no longer has. Its id belongs to
        one session and its task ids to no other plan of that session. */
    method UpsertPlan(s: Id, p: Id, tasks: map<Id, Task>)
      requires Valid()
      requires p in plans ==> plans[p].session == s
      requires forall t, q | t in tasks && Owns(plans, s, t, q) :: q == p
      modifies this`plans, this`index
      ensures Valid() && plans == (if p == "" then old(plans) else old(plans)[p := Plan(s, tasks)])
      ensures old(Warm(plans, index)) ==> Warm(plans, index)
      ensures p != "" ==> forall t :: (s, t) in index && index[(s, t)] == p <==> t in tasks
    {
      if p == "" {
        return;
      }
      hide IndexAgrees, Warm, WaitsForNothingStored, Reindexed;
      PlanStored(View(), index, s, p, tasks);
      index := Reindex(index, s, p, tasks.Keys);
      plans := plans[p := Plan(s, tasks)];
      ReindexedHolds(old(index), s, p, tasks.Keys);
    }
  }

  method Reindex(index: map<(Id, Id), Id>, s: Id, p: Id, ids: set<Id>) returns (r: map<(Id, Id), Id>)
    ensures r == Reindexed(index, s, p, ids)
  {
    hide Reindexed;
    r := map k | k in index && !(k.0 == s && index[k] == p) :: index[k];
    ReindexNone(index, s, p);
    var rest := ids;
    ghost var done: set<Id> := {};
    while rest != {}
      invariant r == Reindexed(index, s, p, done) && done + rest == ids
      decreases rest
    {
      var t :| t in rest;
      ReindexStep(index, s, p, done, t);
      r := r[(s, t) := p];
      rest, done := rest - {t}, done + {t};
    }
    assert done == ids;
  }

  lemma ReindexNone(index: map<(Id, Id), Id>, s: Id, p: Id)
    ensures Reindexed(index, s, p, {}) == map k | k in index && !(k.0 == s && index[k] == p) :: index[k]
  {
  }

  lemma ReindexedHolds(index: map<(Id, Id), Id>, s: Id, p: Id, ids: set<Id>)
    ensures forall t :: (s, t) in Reindexed(index, s, p, ids) && Reindexed(index, s, p, ids)[(s, t)] == p <==> t in ids
  {
    forall t ensures (s, t) in Reindexed(index, s, p, ids) && Reindexed(index, s, p, ids)[(s, t)] == p <==> t in ids {
      assert t in ids <==> (s, t) in NewKeys(s, ids);
    }
  }

  lemma EntriesNone()
    ensures Entries([]) == {}
  {
  }

  /** A task joins the queue of its assignee, who has no invocation span yet. */
  lemma StartsWaiting(st: State, s: Id, t: Id, a: Id, p: Id)
    requires Consistent(st) && a != "" && Owns(st.plans, s, t, p) && (s != "" ==> !HasInvocation(st.spans, s, a))
    ensures Consistent(st.(waiting := st.waiting[(s, a) := Queue(st.waiting, (s, a)) + [(p, t)]]))
  {
    hide UniqueTasks, HasInvocation;
  }

  /** The row a waiting entry names, when it still exists, is the one a lookup by task finds. */
  lemma WaitingRow(plans: Plans, entries: set<(Id, Id)>, id: Id, s: Id, p: Id, t: Id)
    requires p in plans && plans[p].session == s && UniqueTasks(BoundTo(plans, entries, id))
    ensures t in plans[p].tasks ==>
      && OwnerOf(BoundTo(plans, entries, id), s, t) == Some(p)
      && BoundTo(plans, entries, id)[p].tasks[t].status == plans[p].tasks[t].status
  {
    BoundToAt(plans, entries, id);
    assert t in plans[p].tasks ==> Owns(BoundTo(plans, entries, id), s, t, p);
  }

  lemma ArrivedKeeps(st: State, id: Id, span: Span, index: map<(Id, Id), Id>)
    requires Consistent(st)
    ensures Consistent(Arrived(st, id, span))
    ensures IndexAgrees(st.plans, index) ==> IndexAgrees(Arrived(st, id, span).plans, index)
  {
    hide UniqueTasks, IndexAgrees, BoundTo, Entries, Queue, WaitsForNothingStored, HasInvocation;
    var stored := if id in st.spans then st.spans[id] else span;
    var k := (stored.session, stored.agent);
    var bound := BoundTo(st.plans, Entries(Queue(st.waiting, k)), id);
    BoundToShape(st.plans, Entries(Queue(st.waiting, k)), id);
    ShapeKeeps(st.plans, bound, st.spans, st.waiting, index);
    StillWaiting(st.plans, st.spans, st.waiting, id, stored);
    StillWaiting(bound, st.spans, st.waiting, id, stored);
  }

  lemma StillWaiting(plans: Plans, spans: Spans, waiting: Waiting, id: Id, span: Span)
    requires WaitsForNothingStored(plans, spans, waiting) && (id in spans ==> span == spans[id])
    ensures WaitsForNothingStored(plans, spans[id := span], waiting - {(span.session, span.agent)})
    ensures !span.kind.Invocation? ==> WaitsForNothingStored(plans, spans[id := span], waiting)
  {
    var more := spans[id := span];
    forall j | j in waiting && j.0 != "" && (!span.kind.Invocation? || j != (span.session, span.agent))
      ensures !HasInvocation(more, j.0, j.1)
    {
      assert !HasInvocation(spans, j.0, j.1);
      assert forall i | i in more :: more[i] == (if i in spans then spans[i] else span);
    }
  }

  ghost function NewKeys(s: Id, ids: set<Id>): set<(Id, Id)> {
    set t | t in ids :: (s, t)
  }

  /** The index of a session once plan `p` holds the tasks `ids`. */
  ghost function Reindexed(index: map<(Id, Id), Id>, s: Id, p: Id, ids: set<Id>): map<(Id, Id), Id> {
    map k | k in index.Keys + NewKeys(s, ids) && (k in NewKeys(s, ids) || !(k.0 == s && index[k] == p)) ::
      if k in NewKeys(s, ids) then p else index[k]
  }

  lemma ReindexStep(index: map<(Id, Id), Id>, s: Id, p: Id, ids: set<Id>, t: Id)
    ensures Reindexed(index, s, p, ids)[(s, t) := p] == Reindexed(index, s, p, ids + {t})
  {
    assert NewKeys(s, ids + {t}) == NewKeys(s, ids) + {(s, t)};
  }

  lemma PlanStored(st: State, index: map<(Id, Id), Id>, s: Id, p: Id, tasks: map<Id, Task>)
    requires Consistent(st) && IndexAgrees(st.plans, index)
    requires p in st.plans ==> st.plans[p].session == s
    requires forall t, q | t in tasks && Owns(st.plans, s, t, q) :: q == p
    ensures var (plans, index') := (st.plans[p := Plan(s, tasks)], Reindexed(index, s, p, tasks.Keys));
      Consistent(st.(plans := plans)) && IndexAgrees(plans, index') && (Warm(st.plans, index) ==> Warm(plans, index'))
  {
    hide HasInvocation;
    var plans := st.plans[p := Plan(s, tasks)];
    forall s', t', q
      ensures Owns(plans, s', t', q) <==> if q == p then s' == s && t' in tasks else Owns(st.plans, s', t', q)
    {
    }
    forall t | t in tasks ensures (s, t) in NewKeys(s, tasks.Keys) {
    }
  }

  /** Two running invocations of the assignee: the task is bound to the one started last. */
  method LatestIsBound() returns (ingest: Ingest, ghost choice: Option<Id>)
    ensures ingest.Valid() && "p" in ingest.plans && "t" in ingest.plans["p"].tasks
    ensures ingest.plans["p"].tasks["t"] == Task("a", Running, Some("late"), "")
  {
    var task := Task("a", Pending, None, "");
    var early, late := Span("s", "a", Invocation, true, 1), Span("s", "a", Invocation, true, 5);
    ingest := new Ingest(map["p" := Plan("s", map["t" := task])], map["early" := early, "late" := late]);
    ghost var st := ingest.View();
    choice := ingest.OnTaskStarted("s", "t");
    StartedMeans(st, "s", "t", "p", choice);
    BoundIsUnique(st, "p", "s", "t");
    assert choice == Some("late") by {
      assert IsInvocation(st.spans["late"], "s", "a");
      assert "early" != "late";
    }
  }
}
