/** The pending-task queue of one chat: a head task and the follow-ups queued behind it. */
module PendingQueue {
  import opened Wrappers
  import opened Sequences
  import opened Sorting

  datatype QueuedTask = QueuedTask(task_id: string, status: string, created_at: string,
                                   message_id: Option<string>, content: Option<string>)

  // Every field of the cached value is optional; the empty value stands for an absent one as well.
  datatype Pending = Pending(task_id: Option<string>, status: Option<string>, created_at: Option<string>,
                             wait_reason: Option<string>, supports_queue: Option<bool>,
                             queued_tasks: Option<seq<QueuedTask>>, message_id: Option<string>, content: Option<string>)

  const EMPTY: Pending := Pending(None, None, None, None, None, None, None, None)

  const QUEUED := "queued"
  const WAITING := "waiting_local_directory"

  function Queue(s: Pending): seq<QueuedTask> {
    if s.queued_tasks.Some? then s.queued_tasks.value else []
  }

  // A present, non-empty string.
  predicate Truthy(s: Option<string>) {
    s.Some? && s.value != ""
  }

  predicate HasHead(s: Pending) {
    Truthy(s.task_id)
  }

  function Id(t: QueuedTask): string {
    t.task_id
  }

  function Ids(q: seq<QueuedTask>): set<string> {
    if q == [] then {} else {q[0].task_id} + Ids(q[1..])
  }

  predicate Distinct(q: seq<QueuedTask>) {
    q == [] || (q[0].task_id !in Ids(q[1..]) && Distinct(q[1..]))
  }

  lemma {:induction false} IdsOf(q: seq<QueuedTask>, id: string)
    ensures id in Ids(q) <==> exists t :: t in q && t.task_id == id
  {
    if q != [] {
      HeadTail(q);
      IdsOf(q[1..], id);
    }
  }

  lemma {:induction false} DistinctIsById(q: seq<QueuedTask>)
    ensures Distinct(q) <==> DistinctBy(Id, q)
  {
    if q != [] {
      DistinctIsById(q[1..]);
      IdsOf(q[1..], q[0].task_id);
    }
  }

  // ---- Queue order ----

  // How timestamps are parsed and ids collated.
  datatype Order = Order(time: string -> Option<int>, collate: (string, string) -> int)

  function Compare(o: Order): Comparator<QueuedTask> {
    (a: QueuedTask, b: QueuedTask) =>
      match (o.time(a.created_at), o.time(b.created_at))
      case (Some(x), Some(y)) => if x != y then x - y else o.collate(a.task_id, b.task_id)
      case _ => o.collate(a.task_id, b.task_id)
  }

  // ---- One row per task ----

  predicate Rich(t: QueuedTask) {
    Truthy(t.message_id)
  }

  // The insertion-ordered map by task id: a rich observation replaces the row in place.
  function Put(q: seq<QueuedTask>, t: QueuedTask): seq<QueuedTask> {
    if q == [] then [t]
    else if q[0].task_id == t.task_id then (if Rich(t) then [t] + q[1..] else q)
    else [q[0]] + Put(q[1..], t)
  }

  function Unique(tasks: seq<QueuedTask>): seq<QueuedTask> {
    if tasks == [] then [] else Put(Unique(tasks[..|tasks| - 1]), tasks[|tasks| - 1])
  }

  method UniqueQueue(tasks: seq<QueuedTask>) returns (r: seq<QueuedTask>)
    ensures r == Unique(tasks)
  {
    r := [];
    for i := 0 to |tasks|
      invariant r == Unique(tasks[..i])
    {
      var t := tasks[i];
      assert tasks[..i + 1][..i] == tasks[..i];
      var at := 0;
      while at < |r| && r[at].task_id != t.task_id
        invariant 0 <= at <= |r|
        invariant forall j :: 0 <= j < at ==> r[j].task_id != t.task_id
      {
        at := at + 1;
      }
      PutAt(r, t, at);
      if at == |r| {
        r := r + [t];
      } else if Truthy(t.message_id) {
        r := r[at := t];
      }
    }
    assert tasks[..|tasks|] == tasks;
  }

  lemma {:induction false} PutAt(q: seq<QueuedTask>, t: QueuedTask, at: nat)
    requires at <= |q| && forall j :: 0 <= j < at ==> q[j].task_id != t.task_id
    requires at < |q| ==> q[at].task_id == t.task_id
    ensures Put(q, t) == if at == |q| then q + [t] else if Rich(t) then q[at := t] else q
  {
    if at > 0 {
      var rest := q[1..];
      assert forall j :: 0 <= j < at - 1 ==> rest[j] == q[j + 1];
      PutAt(rest, t, at - 1);
      assert q == [q[0]] + rest && Put(q, t) == [q[0]] + Put(rest, t);
    }
  }

  lemma {:induction false} PutIsSound(q: seq<QueuedTask>, t: QueuedTask)
    requires Distinct(q)
    ensures Distinct(Put(q, t)) && Ids(Put(q, t)) == Ids(q) + {t.task_id}
    ensures forall x | x in Put(q, t) :: x == t || x in q
    ensures forall x | x in Put(q, t) && x.task_id == t.task_id :: Rich(t) ==> x == t
    ensures forall x | x in Put(q, t) && !Rich(t) && t.task_id in Ids(q) :: x in q
  {
    if q != [] {
      HeadTail(q);
      IdsOf(q[1..], q[0].task_id);
      if q[0].task_id == t.task_id {
        HeadTail([t] + q[1..]);
      } else {
        PutIsSound(q[1..], t);
        HeadTail([q[0]] + Put(q[1..], t));
      }
    }
  }

  /** One row per id, for exactly the ids observed, each an observed row. */
  lemma {:induction false} UniqueIsSound(tasks: seq<QueuedTask>)
    ensures Distinct(Unique(tasks)) && Ids(Unique(tasks)) == Ids(tasks)
    ensures forall t | t in Unique(tasks) :: t in tasks
  {
    if tasks != [] {
      var init, last := tasks[..|tasks| - 1], tasks[|tasks| - 1];
      UniqueIsSound(init);
      InitLast(tasks);
      assert tasks == init + [last];
      IdsConcat(init, [last]);
      PutIsSound(Unique(init), last);
    }
  }

  /** Whatever order the observations come in, the row is rich once any of them is. */
  lemma {:induction false} UniqueKeepsRich(tasks: seq<QueuedTask>, t: QueuedTask, u: QueuedTask)
    requires t in Unique(tasks) && u in tasks && u.task_id == t.task_id && Rich(u)
    ensures Rich(t)
  {
    var init, last := tasks[..|tasks| - 1], tasks[|tasks| - 1];
    InitLast(tasks);
    UniqueIsSound(init);
    PutIsSound(Unique(init), last);
    if !(last.task_id == t.task_id && Rich(last)) {
      IdsOf(init, u.task_id);
      UniqueKeepsRich(init, t, u);
    }
  }

  lemma {:induction false} IdsConcat(a: seq<QueuedTask>, b: seq<QueuedTask>)
    ensures Ids(a + b) == Ids(a) + Ids(b)
  {
    if a == [] {
      assert a + b == b;
    } else {
      assert (a + b)[1..] == a[1..] + b;
      IdsConcat(a[1..], b);
    }
  }

  lemma {:induction false} UniqueOfDistinct(tasks: seq<QueuedTask>)
    requires Distinct(tasks)
    ensures Unique(tasks) == tasks
  {
    if tasks != [] {
      var init, last := tasks[..|tasks| - 1], tasks[|tasks| - 1];
      DistinctIsById(tasks);
      DistinctInit(Id, tasks);
      DistinctIsById(init);
      UniqueOfDistinct(init);
      assert forall j :: 0 <= j < |init| ==> init[j] in init;
      PutAt(init, last, |init|);
      assert tasks == init + [last];
    }
  }

  function Normalize(o: Order, tasks: seq<QueuedTask>): seq<QueuedTask> {
    Sort(Compare(o), Unique(tasks))
  }

  lemma NormalizeMembers(o: Order, q: seq<QueuedTask>)
    ensures Distinct(Normalize(o, q)) && Ids(Normalize(o, q)) == Ids(q)
    ensures forall t :: t in Normalize(o, q) <==> t in Unique(q)
  {
    var u, n := Unique(q), Normalize(o, q);
    UniqueIsSound(q);
    DistinctIsById(u);
    SortDistinct(Compare(o), Id, u);
    DistinctIsById(n);
    forall t ensures t in n <==> t in u {
      SortHas(Compare(o), u, t);
    }
    forall id ensures id in Ids(n) <==> id in Ids(u) {
      IdsOf(n, id);
      IdsOf(u, id);
    }
  }

  // The collation is a total order of ids.
  ghost predicate Collates(o: Order) {
    && (forall a, b :: o.collate(a, b) < 0 <==> o.collate(b, a) > 0)
    && (forall a, b, c | o.collate(a, b) <= 0 && o.collate(b, c) <= 0 :: o.collate(a, c) <= 0)
  }

  lemma CompareIsPreorder(o: Order, a: QueuedTask, b: QueuedTask, c: QueuedTask)
    requires Collates(o) && o.time(a.created_at).Some? && o.time(b.created_at).Some? && o.time(c.created_at).Some?
    ensures Compare(o)(a, b) < 0 <==> Compare(o)(b, a) > 0
    ensures Compare(o)(a, b) <= 0 && Compare(o)(b, c) <= 0 ==> Compare(o)(a, c) <= 0
  {
  }

  lemma ParsedIsPreorder(o: Order, q: multiset<QueuedTask>)
    requires Collates(o) && forall t | t in q :: o.time(t.created_at).Some?
    ensures PreorderOn(Compare(o), q)
  {
    var cmp := Compare(o);
    forall a, b | a in q && b in q ensures cmp(a, b) < 0 <==> cmp(b, a) > 0 {
      CompareIsPreorder(o, a, b, b);
    }
    forall a, b, c | a in q && b in q && c in q && cmp(a, b) <= 0 && cmp(b, c) <= 0 ensures cmp(a, c) <= 0 {
      CompareIsPreorder(o, a, b, c);
    }
  }

  /** When every timestamp parses, the normalized queue is oldest first with ties by id. */
  lemma NormalizeIsFifo(o: Order, q: seq<QueuedTask>)
    requires Collates(o) && forall t | t in q :: o.time(t.created_at).Some?
    ensures Ordered(Compare(o), Normalize(o, q))
  {
    UniqueIsSound(q);
    var u := Unique(q);
    assert forall t | t in multiset(u) :: t in u;
    ParsedIsPreorder(o, multiset(u));
    SortOrdered(Compare(o), u);
  }

  // ---- Transitions ----

  function Drop(q: seq<QueuedTask>, id: string): seq<QueuedTask> {
    if q == [] then []
    else if q[0].task_id == id then Drop(q[1..], id)
    else [q[0]] + Drop(q[1..], id)
  }

  function Find(q: seq<QueuedTask>, id: string): Option<QueuedTask> {
    if q == [] then None else if q[0].task_id == id then Some(q[0]) else Find(q[1..], id)
  }

  function AsHead(t: QueuedTask, supports: Option<bool>, queue: seq<QueuedTask>): Pending {
    Pending(Some(t.task_id), Some(t.status), Some(t.created_at), None, supports, Some(queue), t.message_id, t.content)
  }

  function OrElse<T>(a: Option<T>, b: Option<T>): Option<T> {
    if a.Some? then a else b
  }

  function Enqueue(o: Order, s: Pending, task: QueuedTask, queued: bool): Pending {
    if !HasHead(s) then
      if queued then EMPTY.(supports_queue := s.supports_queue, queued_tasks := Some([task]))
      else AsHead(task, s.supports_queue, Normalize(o, Drop(Queue(s), task.task_id)))
    else if s.task_id.value == task.task_id then
      s.(status := if Truthy(s.status) && s.status.value != QUEUED then s.status else Some(task.status),
         created_at := if Truthy(s.created_at) then s.created_at else Some(task.created_at),
         queued_tasks := Some(Drop(Queue(s), task.task_id)),
         message_id := OrElse(task.message_id, s.message_id),
         content := OrElse(task.content, s.content))
    else if !queued then AsHead(task, s.supports_queue, [])
    else s.(queued_tasks := Some(Normalize(o, Queue(s) + [task])))
  }

  // The flag's default: a different task than the present head queues.
  function DefaultQueued(s: Pending, task: QueuedTask): bool {
    HasHead(s) && s.task_id.value != task.task_id
  }

  function WaitReason(status: string, incoming: Option<string>, existing: Option<string>): Option<string> {
    if status != WAITING then None else OrElse(incoming, existing)
  }

  function Promote(s: Pending, id: string, status: string, createdAt: Option<string>, waitReason: Option<string>): Pending {
    var queue := Queue(s);
    if s.task_id == Some(id) then
      s.(status := Some(status), wait_reason := WaitReason(status, waitReason, s.wait_reason),
         queued_tasks := Some(Drop(queue, id)))
    else if !HasHead(s) || Find(queue, id).None? then s
    else
      var promoted := Find(queue, id).value;
      AsHead(promoted, s.supports_queue,
             Unique(Demoted(s) + Drop(queue, id)))
      .(status := Some(status), wait_reason := WaitReason(status, waitReason, None),
        created_at := if promoted.created_at != "" then Some(promoted.created_at)
                      else if Truthy(createdAt) then createdAt else Some(""))
  }

  function HeadSummary(s: Pending): QueuedTask
    requires HasHead(s)
  {
    QueuedTask(s.task_id.value, if s.status.Some? then s.status.value else QUEUED,
               if s.created_at.Some? then s.created_at.value else "", None, None)
  }

  // The previous head, if it goes back to the queue when another task is promoted.
  function Demoted(s: Pending): (r: seq<QueuedTask>)
    requires HasHead(s)
    ensures Ids(r) == if s.status.Some? && s.status.value != QUEUED then {} else {s.task_id.value}
  {
    if HeadSummary(s).status == QUEUED then [HeadSummary(s)] else []
  }

  function Remove(s: Pending, id: string): Pending {
    if !HasHead(s) then EMPTY
    else if s.task_id.value != id then s.(queued_tasks := Some(Drop(Queue(s), id)))
    else
      var rows := Unique(Drop(Queue(s), id));
      if rows == [] then EMPTY else AsHead(rows[0], s.supports_queue, rows[1..])
  }

  function Prioritize(s: Pending, id: string): Pending {
    if !HasHead(s) then EMPTY
    else
      match Find(Queue(s), id)
      case None => s
      case Some(selected) => s.(queued_tasks := Some([selected] + Drop(Queue(s), id)))
  }

  datatype Event =
    | EnqueueEvent(task: QueuedTask, queued: Option<bool>)
    | PromoteEvent(id: string, status: string, createdAt: Option<string>, waitReason: Option<string>)
    | RemoveEvent(id: string)
    | PrioritizeEvent(id: string)

  function IsQueued(s: Pending, e: Event): bool
    requires e.EnqueueEvent?
  {
    if e.queued.Some? then e.queued.value else DefaultQueued(s, e.task)
  }

  function Next(o: Order, s: Pending, e: Event): Pending {
    match e
    case EnqueueEvent(task, _) => Enqueue(o, s, task, IsQueued(s, e))
    case PromoteEvent(id, status, createdAt, waitReason) => Promote(s, id, status, createdAt, waitReason)
    case RemoveEvent(id) => Remove(s, id)
    case PrioritizeEvent(id) => Prioritize(s, id)
  }

  function Run(o: Order, s: Pending, es: seq<Event>): Pending
    decreases |es|
  {
    if es == [] then s else Run(o, Next(o, s, es[0]), es[1..])
  }

  // ---- What every run keeps ----

  ghost predicate Inv(s: Pending) {
    && Distinct(Queue(s))
    && (s.task_id.Some? ==> s.task_id.value !in Ids(Queue(s)))
    && (s.wait_reason.Some? ==> s.status == Some(WAITING))
  }

  lemma {:induction false} DropMembers(q: seq<QueuedTask>, id: string)
    ensures forall x :: x in Drop(q, id) <==> x in q && x.task_id != id
    ensures Distinct(q) ==> Distinct(Drop(q, id))
    ensures Ids(Drop(q, id)) == Ids(q) - {id}
  {
    if q != [] {
      DropMembers(q[1..], id);
      HeadTail(q);
      if q[0].task_id != id {
        HeadTail([q[0]] + Drop(q[1..], id));
      }
    }
  }

  lemma {:induction false} FindMembers(q: seq<QueuedTask>, id: string)
    ensures Find(q, id).Some? <==> id in Ids(q)
    ensures Find(q, id).Some? ==> Find(q, id).value in q && Find(q, id).value.task_id == id
  {
    if q != [] && q[0].task_id != id {
      FindMembers(q[1..], id);
      HeadTail(q);
    }
  }

  // The task ids the chat knows.
  function Known(s: Pending): set<string> {
    Ids(Queue(s)) + (if s.task_id.Some? then {s.task_id.value} else {})
  }

  // The known ids each event leaves, branch by branch.
  ghost function KnownAfter(s: Pending, e: Event): set<string> {
    var queue := Ids(Queue(s));
    match e
    case EnqueueEvent(task, _) =>
      if !HasHead(s) then (if IsQueued(s, e) then {} else queue) + {task.task_id}
      else if IsQueued(s, e) || s.task_id.value == task.task_id then Known(s) + {task.task_id}
      else {task.task_id}
    case PromoteEvent(id, _, _, _) =>
      if HasHead(s) && s.task_id.value != id && id in queue && s.status.Some? && s.status.value != QUEUED
      then queue else Known(s)
    case RemoveEvent(id) => if HasHead(s) then Known(s) - {id} else {}
    case PrioritizeEvent(_) => if HasHead(s) then Known(s) else {}
  }

  lemma EnqueueKeepsInv(o: Order, s: Pending, task: QueuedTask, queued: bool)
    requires Inv(s)
    ensures Inv(Enqueue(o, s, task, queued))
    ensures Known(Enqueue(o, s, task, queued)) == KnownAfter(s, EnqueueEvent(task, Some(queued)))
  {
    var queue := Queue(s);
    if HasHead(s) && s.task_id.value == task.task_id {
      DropMembers(queue, task.task_id);
    } else if HasHead(s) && queued {
      NormalizeMembers(o, queue + [task]);
      IdsConcat(queue, [task]);
    } else if !HasHead(s) && !queued {
      DropMembers(queue, task.task_id);
      NormalizeMembers(o, Drop(queue, task.task_id));
    }
  }

  lemma PromoteQueuedKeepsInv(s: Pending, e: Event)
    requires Inv(s) && e.PromoteEvent? && HasHead(s) && s.task_id.value != e.id && Find(Queue(s), e.id).Some?
    ensures var r := Promote(s, e.id, e.status, e.createdAt, e.waitReason); Inv(r) && Known(r) == KnownAfter(s, e)
  {
    var first := Demoted(s);
    var rest := Drop(Queue(s), e.id);
    DropMembers(Queue(s), e.id);
    FindMembers(Queue(s), e.id);
    UniqueIsSound(first + rest);
    IdsConcat(first, rest);
  }

  lemma PromoteKeepsInv(s: Pending, e: Event)
    requires Inv(s) && e.PromoteEvent?
    ensures var r := Promote(s, e.id, e.status, e.createdAt, e.waitReason); Inv(r) && Known(r) == KnownAfter(s, e)
  {
    FindMembers(Queue(s), e.id);
    if s.task_id == Some(e.id) {
      DropMembers(Queue(s), e.id);
    } else if HasHead(s) && Find(Queue(s), e.id).Some? {
      PromoteQueuedKeepsInv(s, e);
    }
  }

  lemma RemoveKeepsInv(s: Pending, id: string)
    requires Inv(s)
    ensures Inv(Remove(s, id)) && Known(Remove(s, id)) == KnownAfter(s, RemoveEvent(id))
  {
    DropMembers(Queue(s), id);
    UniqueOfDistinct(Drop(Queue(s), id));
  }

  lemma PrioritizeKeepsInv(s: Pending, id: string)
    requires Inv(s)
    ensures Inv(Prioritize(s, id)) && Known(Prioritize(s, id)) == KnownAfter(s, PrioritizeEvent(id))
  {
    DropMembers(Queue(s), id);
    FindMembers(Queue(s), id);
    if Find(Queue(s), id).Some? {
      assert ([Find(Queue(s), id).value] + Drop(Queue(s), id))[1..] == Drop(Queue(s), id);
    }
  }

  /** The invariant is inductive, and every event changes the known ids only as its branch allows. */
  lemma NextKeepsInv(o: Order, s: Pending, e: Event)
    requires Inv(s)
    ensures Inv(Next(o, s, e)) && Known(Next(o, s, e)) == KnownAfter(s, e)
  {
    match e
    case EnqueueEvent(task, _) => EnqueueKeepsInv(o, s, task, IsQueued(s, e));
    case PromoteEvent(_, _, _, _) => PromoteKeepsInv(s, e);
    case RemoveEvent(id) => RemoveKeepsInv(s, id);
    case PrioritizeEvent(id) => PrioritizeKeepsInv(s, id);
  }

  /** Over every run, queued ids stay distinct, the head is never queued as well, and a wait reason only shows while waiting. */
  lemma {:induction false} RunKeepsInv(o: Order, s: Pending, es: seq<Event>)
    requires Inv(s)
    ensures Inv(Run(o, s, es))
    decreases |es|
  {
    if es != [] {
      NextKeepsInv(o, s, es[0]);
      RunKeepsInv(o, Next(o, s, es[0]), es[1..]);
    }
  }

  // ---- Late and stray events ----

  predicate Started(s: Pending) {
    HasHead(s) && Truthy(s.status) && s.status.value != QUEUED
  }

  // The task is the head, and started.
  predicate Leads(s: Pending, head: string) {
    Started(s) && s.task_id.value == head
  }

  // Events that neither remove nor replace the head, nor report it as queued or without a status.
  predicate Spares(s: Pending, e: Event, head: string) {
    match e
    case EnqueueEvent(task, queued) => queued != Some(false) || task.task_id == head
    case PromoteEvent(id, status, _, _) => if id == head then status != QUEUED && status != "" else id !in Ids(Queue(s))
    case RemoveEvent(id) => id != head
    case PrioritizeEvent(_) => true
  }

  lemma {:induction false} UniqueKeepsFirst(tasks: seq<QueuedTask>)
    requires tasks != []
    ensures Unique(tasks) != [] && Unique(tasks)[0].task_id == tasks[0].task_id
  {
    if |tasks| > 1 {
      UniqueKeepsFirst(tasks[..|tasks| - 1]);
    }
  }

  lemma LeadsExactly(o: Order, s: Pending, e: Event, head: string)
    requires Leads(s, head)
    ensures Leads(Next(o, s, e), head) <==> Spares(s, e, head)
  {
    match e
    case EnqueueEvent(_, _) =>
    case PromoteEvent(id, _, _, _) =>
      FindMembers(Queue(s), id);
    case RemoveEvent(id) =>
      var rows := Drop(Queue(s), id);
      DropMembers(Queue(s), id);
      if rows != [] {
        UniqueKeepsFirst(rows);
        assert rows[0] in rows;
      }
    case PrioritizeEvent(_) =>
  }

  // The head leads after each event of the run.
  ghost predicate LeadsThroughout(o: Order, s: Pending, es: seq<Event>, head: string)
    decreases |es|
  {
    Leads(s, head) && (es == [] || LeadsThroughout(o, Next(o, s, es[0]), es[1..], head))
  }

  ghost predicate SparedThroughout(o: Order, s: Pending, es: seq<Event>, head: string)
    decreases |es|
  {
    es == [] || (Spares(s, es[0], head) && SparedThroughout(o, Next(o, s, es[0]), es[1..], head))
  }

  /**
   A started head stays the head, and started, through exactly the runs whose events
   spare it: in particular however late enqueues arrive for it or for others.
   */
  lemma {:induction false} StartedHeadSurvives(o: Order, s: Pending, es: seq<Event>)
    requires Started(s)
    ensures LeadsThroughout(o, s, es, s.task_id.value) <==> SparedThroughout(o, s, es, s.task_id.value)
    decreases |es|
  {
    if es != [] {
      LeadsExactly(o, s, es[0], s.task_id.value);
      if Spares(s, es[0], s.task_id.value) {
        StartedHeadSurvives(o, Next(o, s, es[0]), es[1..]);
      }
    }
  }

  // Equal up to an absent queue standing for an empty one.
  predicate Same(s: Pending, r: Pending) {
    s.(queued_tasks := Some(Queue(s))) == r.(queued_tasks := Some(Queue(r)))
  }

  predicate Lifecycle(e: Event) {
    !e.EnqueueEvent?
  }

  lemma {:induction false} DropUnknown(q: seq<QueuedTask>, id: string)
    requires id !in Ids(q)
    ensures Drop(q, id) == q
  {
    if q != [] {
      DropUnknown(q[1..], id);
    }
  }

  /**
   A lifecycle event for an unknown task changes nothing, with one exception:
   removing or prioritising while no head is known drops the whole cached value.
   */
  lemma UnknownChangesNothing(o: Order, s: Pending, e: Event)
    requires Lifecycle(e) && e.id !in Known(s)
    ensures Same(Next(o, s, e), s) <==> e.PromoteEvent? || HasHead(s) || Same(s, EMPTY)
  {
    DropUnknown(Queue(s), e.id);
    FindMembers(Queue(s), e.id);
  }

  /** The exception happens: a queued row waiting for its head is lost to a stray removal. */
  lemma StrayRemovalDropsQueue(o: Order, t: QueuedTask, stray: string)
    requires stray != t.task_id
    ensures var s := Enqueue(o, EMPTY, t, true);
            Inv(s) && stray !in Known(s) && Known(s) == {t.task_id} && Known(Remove(s, stray)) == {}
  {
    EnqueueKeepsInv(o, EMPTY, t, true);
  }

  // The queue holds a rich row for the task.
  predicate RichlyQueued(s: Pending, id: string) {
    exists t | t in Queue(s) :: t.task_id == id && Rich(t)
  }

  lemma {:induction false} DistinctRow(q: seq<QueuedTask>, a: QueuedTask, b: QueuedTask)
    requires Distinct(q) && a in q && b in q && a.task_id == b.task_id
    ensures a == b
  {
    HeadTail(q);
    IdsOf(q[1..], q[0].task_id);
    if a != q[0] && b != q[0] {
      DistinctRow(q[1..], a, b);
    }
  }

  lemma NormalizeStaysRich(o: Order, q: seq<QueuedTask>, u: QueuedTask)
    requires u in q && Rich(u)
    ensures exists t | t in Normalize(o, q) :: t.task_id == u.task_id && Rich(t)
  {
    NormalizeMembers(o, q);
    UniqueStaysRich(q, u);
  }

  lemma UniqueStaysRich(q: seq<QueuedTask>, u: QueuedTask)
    requires u in q && Rich(u)
    ensures exists t | t in Unique(q) :: t.task_id == u.task_id && Rich(t)
  {
    UniqueIsSound(q);
    IdsOf(q, u.task_id);
    IdsOf(Unique(q), u.task_id);
    var t :| t in Unique(q) && t.task_id == u.task_id;
    UniqueKeepsRich(q, t, u);
  }

  lemma RichRowStaysOnEnqueue(o: Order, s: Pending, e: Event, u: QueuedTask)
    requires Inv(s) && e.EnqueueEvent? && u in Queue(s) && Rich(u) && u.task_id in Ids(Queue(Next(o, s, e)))
    ensures RichlyQueued(Next(o, s, e), u.task_id) <==> HasHead(s) || !IsQueued(s, e) || Rich(e.task)
  {
    var queue, r := Queue(s), Next(o, s, e);
    if !HasHead(s) && IsQueued(s, e) {
      assert Queue(r) == [e.task] && e.task in Queue(r);
    } else if !HasHead(s) {
      DropMembers(queue, e.task.task_id);
      NormalizeMembers(o, Drop(queue, e.task.task_id));
      NormalizeStaysRich(o, Drop(queue, e.task.task_id), u);
    } else if s.task_id.value == e.task.task_id {
      DropMembers(queue, e.task.task_id);
    } else if IsQueued(s, e) {
      NormalizeStaysRich(o, queue + [e.task], u);
    }
  }

  lemma RichRowStaysOnPromote(s: Pending, e: Event, u: QueuedTask)
    requires Inv(s) && e.PromoteEvent? && u in Queue(s) && Rich(u)
    requires u.task_id in Ids(Queue(Promote(s, e.id, e.status, e.createdAt, e.waitReason)))
    ensures RichlyQueued(Promote(s, e.id, e.status, e.createdAt, e.waitReason), u.task_id)
  {
    var queue := Queue(s);
    DropMembers(queue, e.id);
    FindMembers(queue, e.id);
    if s.task_id != Some(e.id) && HasHead(s) && Find(queue, e.id).Some? {
      var first := Demoted(s);
      IdsConcat(first, Drop(queue, e.id));
      UniqueIsSound(first + Drop(queue, e.id));
      IdsOf(queue, s.task_id.value);
      UniqueStaysRich(first + Drop(queue, e.id), u);
    }
  }

  lemma RichRowStaysOnRemove(s: Pending, p: string, u: QueuedTask)
    requires Inv(s) && u in Queue(s) && Rich(u) && u.task_id in Ids(Queue(Remove(s, p)))
    ensures RichlyQueued(Remove(s, p), u.task_id)
  {
    DropMembers(Queue(s), p);
    UniqueOfDistinct(Drop(Queue(s), p));
    if HasHead(s) && s.task_id.value == p {
      HeadTail(Drop(Queue(s), p));
    }
  }

  lemma RichRowStaysOnPrioritize(s: Pending, p: string, u: QueuedTask)
    requires Inv(s) && u in Queue(s) && Rich(u) && HasHead(s)
    ensures RichlyQueued(Prioritize(s, p), u.task_id)
  {
    DropMembers(Queue(s), p);
    FindMembers(Queue(s), p);
    if Find(Queue(s), p).Some? {
      var selected := Find(Queue(s), p).value;
      HeadTail([selected] + Drop(Queue(s), p));
      if u.task_id == p {
        DistinctRow(Queue(s), u, selected);
      }
    }
  }

  /**
   A row that carries its message keeps it for as long as the task stays queued,
   except when a sparse queued enqueue arrives for it while no head is known.
   */
  lemma RichRowStays(o: Order, s: Pending, e: Event, id: string)
    requires Inv(s) && RichlyQueued(s, id) && id in Ids(Queue(Next(o, s, e)))
    ensures RichlyQueued(Next(o, s, e), id) <==> !(e.EnqueueEvent? && !HasHead(s) && IsQueued(s, e) && !Rich(e.task))
  {
    var u :| u in Queue(s) && u.task_id == id && Rich(u);
    match e
    case EnqueueEvent(_, _) => RichRowStaysOnEnqueue(o, s, e, u);
    case PromoteEvent(_, _, _, _) => RichRowStaysOnPromote(s, e, u);
    case RemoveEvent(p) => RichRowStaysOnRemove(s, p, u);
    case PrioritizeEvent(p) => RichRowStaysOnPrioritize(s, p, u);
  }

  /** The exception is reached: a second, sparse notice of a queued task replaces its rich row. */
  lemma SparseNoticeStripsRow(o: Order, rich: QueuedTask, sparse: QueuedTask)
    requires rich.task_id == sparse.task_id && Rich(rich) && !Rich(sparse)
    ensures var s := Enqueue(o, EMPTY, rich, true);
            Inv(s) && RichlyQueued(s, rich.task_id) && Queue(Enqueue(o, s, sparse, true)) == [sparse]
  {
    var s := Enqueue(o, EMPTY, rich, true);
    EnqueueKeepsInv(o, EMPTY, rich, true);
    assert rich in Queue(s);
  }

  // ---- Messages of queued tasks ----

  datatype Message = Message(id: string, task_id: Option<string>)

  // The task that the message map holds for a message: that of the last row naming it.
  function Owner(q: seq<QueuedTask>, message: string): Option<string> {
    if q == [] then None
    else
      var last := q[|q| - 1];
      if Truthy(last.message_id) && last.message_id.value == message then Some(last.task_id)
      else Owner(q[..|q| - 1], message)
  }

  function HideQueued(messages: seq<Message>, s: Pending): seq<Message> {
    if messages == [] then []
    else
      var m, rest := messages[0], HideQueued(messages[1..], s);
      if m.task_id.Some? && Owner(Queue(s), m.id) == m.task_id then rest else [m] + rest
  }

  lemma {:induction false} OwnerNamesMessage(q: seq<QueuedTask>, message: string, task: string)
    requires Owner(q, message) == Some(task)
    ensures exists t | t in q :: t.task_id == task && t.message_id == Some(message)
  {
    InitLast(q);
    var last := q[|q| - 1];
    if !(Truthy(last.message_id) && last.message_id.value == message) {
      OwnerNamesMessage(q[..|q| - 1], message, task);
    }
  }

  /** Only messages of queued tasks are hidden, and the rest keep their order. */
  lemma {:induction false} HiddenMessagesAreQueued(messages: seq<Message>, s: Pending)
    ensures forall m | m in messages && m !in HideQueued(messages, s) ::
              m.task_id.Some? && exists t | t in Queue(s) :: t.task_id == m.task_id.value && t.message_id == Some(m.id)
    ensures forall m | m in HideQueued(messages, s) :: m in messages
  {
    if messages != [] {
      HeadTail(messages);
      HiddenMessagesAreQueued(messages[1..], s);
      var m := messages[0];
      if m.task_id.Some? && Owner(Queue(s), m.id) == m.task_id {
        OwnerNamesMessage(Queue(s), m.id, m.task_id.value);
      }
    }
  }

  /** Promoting a queued task makes its message visible. */
  lemma PromotionRevealsMessage(s: Pending, e: Event, messages: seq<Message>, m: Message)
    requires Inv(s) && e.PromoteEvent? && m in messages && m.task_id == Some(e.id)
    requires HasHead(s)
    ensures m in HideQueued(messages, Promote(s, e.id, e.status, e.createdAt, e.waitReason))
  {
    var r := Promote(s, e.id, e.status, e.createdAt, e.waitReason);
    PromoteKeepsInv(s, e);
    FindMembers(Queue(s), e.id);
    DropMembers(Queue(s), e.id);
    HiddenMessagesAreQueued(messages, r);
    IdsOf(Queue(r), e.id);
  }
}
