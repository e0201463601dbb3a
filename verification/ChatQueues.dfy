/** The stored queues of pending restores and the stored ledger of applied ones, over every run. */
module ChatQueues {
  import opened Wrappers
  import opened Sequences
  import opened DraftUploads
  import opened ChatState
  import opened ChatRuns

  // ---- Queues and ledger ----

  // The queue of pending restores stored for a session of a workspace.
  function QueueAt(w: World, place: Option<string>, session: string): seq<Restore> {
    At(Restores(ShelfAt(w.disk, place).restores), session)
  }

  // The queue an action leaves, for a plain first-in first-out queue.
  function QueueNext(q: seq<Restore>, a: Action, session: string): seq<Restore> {
    match a
    case Enqueue(r) =>
      if r.sessionId != session || session == "" || r.id == "" || Queued(q, r.id) then q else q + [Filled(r)]
    case Dequeue(s, id) => if s == session then Filter(OtherRestore(id), q) else q
    case _ => q
  }

  function LedgerNext(ids: seq<string>, a: Action): seq<string> {
    match a
    case MarkApplied(id) => if id in ids then ids else ids + [id]
    case ForgetApplied(id) => Filter(Other(id), ids)
    case _ => ids
  }

  lemma {:induction false} FilterAll<T>(keep: T -> bool, q: seq<T>)
    requires forall x | x in q :: keep(x)
    ensures Filter(keep, q) == q
  {
    if q != [] {
      InitLast(q);
      FilterAll(keep, q[..|q| - 1]);
    }
  }

  lemma {:induction false} FilterFilled(id: string, q: seq<Restore>)
    ensures Map(Filled, Filter(OtherRestore(id), q)) == Filter(OtherRestore(id), Map(Filled, q))
    ensures Queued(Map(Filled, q), id) <==> Queued(q, id)
  {
    if q != [] {
      var init, last := q[..|q| - 1], q[|q| - 1];
      InitLast(q);
      FilterFilled(id, init);
      assert Map(Filled, q) == Map(Filled, init) + [Filled(last)];
      assert Map(Filled, q)[..|init|] == Map(Filled, init);
      assert Filled(last).id == last.id;
      InitLast(Map(Filled, q));
    }
  }

  lemma NothingToFilter(id: string, q: seq<Restore>)
    requires !Queued(q, id)
    ensures Filter(OtherRestore(id), q) == q
  {
    FilterAll(OtherRestore(id), q);
  }

  lemma FilledAt(queues: map<string, seq<Restore>>, session: string)
    ensures At(FilledQueues(queues), session) == Map(Filled, At(queues, session))
  {
  }

  function QueueIn(l: Local, session: string): seq<Restore> {
    Map(Filled, At(l.memory.restores, session))
  }

  lemma EnqueueLocally(l: Local, r: Restore, session: string)
    ensures QueueIn(Act(l, Enqueue(r)), session) == QueueNext(QueueIn(l, session), Enqueue(r), session)
  {
    var q := At(l.memory.restores, r.sessionId);
    FilterFilled(r.id, q);
    assert Map(Filled, q + [r]) == Map(Filled, q) + [Filled(r)];
  }

  lemma DequeueLocally(l: Local, s: string, id: string, session: string)
    ensures QueueIn(Act(l, Dequeue(s, id)), session) == QueueNext(QueueIn(l, session), Dequeue(s, id), session)
  {
    var q := At(l.memory.restores, s);
    FilterFilled(id, q);
    if !Queued(q, id) {
      NothingToFilter(id, Map(Filled, q));
    }
  }

  lemma LocalQueue(l: Local, a: Action, session: string)
    ensures QueueIn(Act(l, a), session) == QueueNext(QueueIn(l, session), a, session)
  {
    match a
    case Enqueue(r) => EnqueueLocally(l, r, session);
    case Dequeue(s, id) => DequeueLocally(l, s, id, session);
    case _ => assert Act(l, a).memory.restores == l.memory.restores;
  }

  lemma LocalLedger(l: Local, a: Action)
    ensures Act(l, a).memory.applied == LedgerNext(l.memory.applied, a)
  {
    if a.ForgetApplied? && a.restoreId !in l.memory.applied {
      FilterAll(Other(a.restoreId), l.memory.applied);
    }
  }

  lemma QueueInStep(l: Local, session: string)
    requires InStep(l)
    ensures At(Restores(l.shelf.restores), session) == QueueIn(l, session)
  {
    FilledAt(l.memory.restores, session);
  }

  // The guards of the queue actions: whether the whole map of queues is written.
  predicate WritesQueues(queues: map<string, seq<Restore>>, a: Action) {
    match a
    case Enqueue(r) => r.sessionId != "" && r.id != "" && !Queued(At(queues, r.sessionId), r.id)
    case Dequeue(s, id) => Queued(At(queues, s), id)
    case _ => false
  }

  function StoredQueue(s: Shelf, session: string): seq<Restore> {
    At(Restores(s.restores), session)
  }

  lemma QueueWritten(l: Local, a: Action, session: string)
    ensures StoredQueue(Act(l, a).shelf, session)
         == if WritesQueues(l.memory.restores, a) then QueueNext(QueueIn(l, session), a, session) else StoredQueue(l.shelf, session)
  {
    if WritesQueues(l.memory.restores, a) {
      var after := Act(l, a).memory.restores;
      assert Act(l, a).shelf.restores == RestoresBlob(after);
      RestoresStored(after);
      FilledAt(after, session);
      LocalQueue(l, a, session);
    } else {
      assert Act(l, a).shelf.restores == l.shelf.restores;
    }
  }

  // What must be stored for the action to do to the stored queue what it does to a plain one.
  predicate QueueReady(l: Local, a: Action, session: string) {
    var queue, stored, writes := QueueIn(l, session), StoredQueue(l.shelf, session), WritesQueues(l.memory.restores, a);
    match a
    case Enqueue(r) =>
      if writes then stored == if r.sessionId == session && Queued(stored, r.id) then queue + [Filled(r)] else queue
      else r.sessionId == session && session != "" && r.id != "" ==> Queued(stored, r.id)
    case Dequeue(s, id) =>
      if !writes then s == session ==> !Queued(stored, id)
      else if s == session then Filter(OtherRestore(id), queue) == Filter(OtherRestore(id), stored)
      else stored == queue
    case _ => true
  }

  lemma {:induction false} FilterDrops<T>(keep: T -> bool, q: seq<T>)
    ensures |Filter(keep, q)| <= |q|
    ensures forall x | x in Filter(keep, q) :: keep(x) && x in q
  {
    if q != [] {
      InitLast(q);
      FilterDrops(keep, q[..|q| - 1]);
    }
  }

  lemma DequeueIsIdleExactly(q: seq<Restore>, id: string)
    ensures Filter(OtherRestore(id), q) == q <==> !Queued(q, id)
  {
    FilterDrops(OtherRestore(id), q);
    if !Queued(q, id) {
      NothingToFilter(id, q);
    }
  }

  lemma AppendCancels<T>(p: seq<T>, q: seq<T>, x: T)
    ensures p + [x] == q + [x] <==> p == q
    ensures q + [x] != q
  {
    assert (p + [x])[..|p|] == p && (q + [x])[..|q|] == q;
    if p + [x] == q + [x] {
      assert |p + [x]| == |q + [x]|;
    }
  }

  lemma QueuedAlike(l: Local, session: string, id: string)
    ensures Queued(QueueIn(l, session), id) <==> Queued(At(l.memory.restores, session), id)
  {
    FilterFilled(id, At(l.memory.restores, session));
  }

  /** An action does to a stored queue what it does to a plain one exactly when memory and storage agree as far as it looks. */
  lemma QueueFollowsExactly(l: Local, a: Action, session: string)
    ensures StoredQueue(Act(l, a).shelf, session) == QueueNext(StoredQueue(l.shelf, session), a, session) <==> QueueReady(l, a, session)
  {
    var stored := StoredQueue(l.shelf, session);
    QueueWritten(l, a, session);
    match a
    case Enqueue(r) =>
      QueuedAlike(l, session, r.id);
      AppendCancels(QueueIn(l, session), stored, Filled(r));
    case Dequeue(s, id) => DequeueIsIdleExactly(stored, id);
    case _ =>
  }

  lemma InStepQueueReady(l: Local, a: Action, session: string)
    requires InStep(l)
    ensures QueueReady(l, a, session)
  {
    QueueInStep(l, session);
    if a.Enqueue? {
      QueuedAlike(l, session, a.restore.id);
    }
    if a.Dequeue? {
      QueuedAlike(l, session, a.restoreId);
    }
  }

  // The event is an action in this workspace.
  predicate ActsAt(w: World, e: Event, place: Option<string>) {
    e.Do? && Place(w.slug) == place
  }

  // The queue as it should be after the event.
  function QueueDue(w: World, e: Event, place: Option<string>, session: string): seq<Restore> {
    if ActsAt(w, e, place) then QueueNext(QueueAt(w, place, session), e.action, session) else QueueAt(w, place, session)
  }

  lemma ActedShelf(w: World, e: Event)
    requires e.Do?
    ensures ShelfAt(Next(w, e).disk, Place(w.slug)) == Act(Here(w), e.action).shelf
  {
    HereAfter(w, Act(Here(w), e.action));
  }

  // Everything but an action leaves queues and ledgers as they are stored.
  lemma OtherEventsKeep(w: World, e: Event, place: Option<string>)
    requires !ActsAt(w, e, place)
    ensures ShelfAt(Next(w, e).disk, place).restores == ShelfAt(w.disk, place).restores
    ensures ShelfAt(Next(w, e).disk, place).applied == ShelfAt(w.disk, place).applied
  {
    if e.Do? {
      StowLaws(w.disk, Place(w.slug), Act(Here(w), e.action).shelf, EMPTY_SHELF);
    } else if e.Rehydrate? {
      StowLaws(w.disk, Place(w.slug), Folded(Here(w).shelf), EMPTY_SHELF);
    } else if e.Restart? {
      StowLaws(w.disk, None, Folded(ShelfAt(w.disk, None)), EMPTY_SHELF);
    }
  }

  /**
   What is stored for a session is a first-in first-out queue: an event does to
   it what it does to the plain queue exactly when memory is ready for it, and
   memory always is unless a rehydration is pending.
   */
  lemma QueueRefines(w: World, e: Event, place: Option<string>, session: string)
    ensures QueueAt(Next(w, e), place, session) == QueueDue(w, e, place, session) <==>
            (ActsAt(w, e, place) ==> QueueReady(Here(w), e.action, session))
    ensures Sync(w) && !w.pending && ActsAt(w, e, place) ==> QueueReady(Here(w), e.action, session)
  {
    if ActsAt(w, e, place) {
      ActedShelf(w, e);
      QueueFollowsExactly(Here(w), e.action, session);
      if Sync(w) && !w.pending {
        InStepQueueReady(Here(w), e.action, session);
      }
    } else {
      OtherEventsKeep(w, e, place);
    }
  }

  // ---- The ledger ----

  function LedgerAt(w: World, place: Option<string>): seq<string> {
    Applied(ShelfAt(w.disk, place).applied)
  }

  // The ledger as it should be after the event.
  function LedgerDue(w: World, e: Event, place: Option<string>): seq<string> {
    if ActsAt(w, e, place) then LedgerNext(LedgerAt(w, place), e.action) else LedgerAt(w, place)
  }

  // The guards of the ledger actions: whether the ledger is written.
  predicate WritesLedger(ids: seq<string>, a: Action) {
    match a
    case MarkApplied(id) => id !in ids
    case ForgetApplied(id) => id in ids
    case _ => false
  }

  lemma LedgerWritten(l: Local, a: Action)
    ensures Applied(Act(l, a).shelf.applied)
         == if WritesLedger(l.memory.applied, a) then LedgerNext(l.memory.applied, a) else Applied(l.shelf.applied)
  {
    LocalLedger(l, a);
  }

  // What must be stored for the action to do to the stored ledger what it does to a plain one.
  predicate LedgerReady(ids: seq<string>, stored: seq<string>, a: Action) {
    match a
    case MarkApplied(id) => if id in ids then id in stored else stored == if id in stored then ids + [id] else ids
    case ForgetApplied(id) => if id in ids then Filter(Other(id), ids) == Filter(Other(id), stored) else id !in stored
    case _ => true
  }

  lemma ForgetIsIdleExactly(ids: seq<string>, id: string)
    ensures Filter(Other(id), ids) == ids <==> id !in ids
  {
    FilterDrops(Other(id), ids);
    if id !in ids {
      FilterAll(Other(id), ids);
    }
  }

  /** An action does to the stored ledger what it does to a plain one exactly when memory and storage agree as far as it looks. */
  lemma LedgerFollowsExactly(l: Local, a: Action)
    ensures Applied(Act(l, a).shelf.applied) == LedgerNext(Applied(l.shelf.applied), a) <==>
            LedgerReady(l.memory.applied, Applied(l.shelf.applied), a)
  {
    LedgerWritten(l, a);
    if a.MarkApplied? {
      AppendCancels(l.memory.applied, Applied(l.shelf.applied), a.restoreId);
    } else if a.ForgetApplied? {
      ForgetIsIdleExactly(Applied(l.shelf.applied), a.restoreId);
    }
  }

  /**
   The stored ledger changes by marking and forgetting exactly when memory is
   ready for it, and memory always is unless a rehydration is pending.
   */
  lemma LedgerRefines(w: World, e: Event, place: Option<string>)
    ensures LedgerAt(Next(w, e), place) == LedgerDue(w, e, place) <==>
            (ActsAt(w, e, place) ==> LedgerReady(w.memory.applied, LedgerAt(w, place), e.action))
    ensures Sync(w) && !w.pending && ActsAt(w, e, place) ==> LedgerReady(w.memory.applied, LedgerAt(w, place), e.action)
  {
    if ActsAt(w, e, place) {
      ActedShelf(w, e);
      LedgerFollowsExactly(Here(w), e.action);
    } else {
      OtherEventsKeep(w, e, place);
    }
  }

  // ---- Losses before rehydration ----

  lemma EnterAndAct(w: World, slug: string, a: Action)
    requires w.slug != Some(slug) && slug != ""
    ensures var after := Run(w, [Switch(Some(slug)), Do(a)]);
            after.pending
            && ShelfAt(after.disk, Some(slug)) == Act(Local(w.memory, ShelfAt(w.disk, Some(slug))), a).shelf
  {
    var entered := Next(w, Switch(Some(slug)));
    var events := [Switch(Some(slug)), Do(a)];
    assert events[..1][..0] == [] && events[..1] == [Switch(Some(slug))];
    assert Run(w, events[..1]) == Next(Run(w, events[..1][..0]), Switch(Some(slug)));
    assert Run(w, events) == Next(entered, Do(a));
    ActedShelf(entered, Do(a));
  }

  /** A mark before rehydration wipes out an id that only the entered workspace's ledger has. */
  lemma MarkLosesLedger(w: World, slug: string, x: string, y: string)
    requires w.slug != Some(slug) && slug != "" && x != y
    requires x in LedgerAt(w, Some(slug)) && x !in w.memory.applied && y !in w.memory.applied
    ensures x !in LedgerAt(Run(w, [Switch(Some(slug)), Do(MarkApplied(y))]), Some(slug))
  {
    EnterAndAct(w, slug, MarkApplied(y));
    LedgerWritten(Local(w.memory, ShelfAt(w.disk, Some(slug))), MarkApplied(y));
    assert LedgerNext(w.memory.applied, MarkApplied(y)) == w.memory.applied + [y];
  }

  /** A new restore before rehydration wipes out the entered workspace's queues of all sessions that memory does not know. */
  lemma EnqueueLosesQueues(w: World, slug: string, r: Restore, session: string)
    requires w.slug != Some(slug) && slug != "" && r.sessionId != "" && r.id != "" && session != r.sessionId
    requires !Queued(At(w.memory.restores, r.sessionId), r.id) && At(w.memory.restores, session) == []
    ensures QueueAt(Run(w, [Switch(Some(slug)), Do(Enqueue(r))]), Some(slug), session) == []
  {
    EnterAndAct(w, slug, Enqueue(r));
    QueueWritten(Local(w.memory, ShelfAt(w.disk, Some(slug))), Enqueue(r), session);
  }

  // ---- From enqueue to dequeue ----

  predicate Once<T(==)>(q: seq<T>, x: T) {
    multiset(q)[x] == 1
  }

  lemma {:induction false} FilterCount<T>(keep: T -> bool, q: seq<T>, x: T)
    ensures multiset(Filter(keep, q))[x] == if keep(x) then multiset(q)[x] else 0
  {
    if q != [] {
      InitLast(q);
      FilterCount(keep, q[..|q| - 1], x);
    }
  }

  // The restore is in the queue, and no other entry has its id.
  predicate QueuedOnce(q: seq<Restore>, r: Restore) {
    Once(q, r) && forall x | x in q && x.id == r.id :: x == r
  }

  /** A restore with a new id is then in its stored queue once, at the end, exactly when memory has that session's queue. */
  lemma EnqueuedOnce(w: World, r: Restore)
    requires r.sessionId != "" && r.id != "" && !Queued(QueueAt(w, Place(w.slug), r.sessionId), r.id)
    ensures var before, after := QueueAt(w, Place(w.slug), r.sessionId), QueueAt(Next(w, Do(Enqueue(r))), Place(w.slug), r.sessionId);
            after == before + [Filled(r)] && QueuedOnce(after, Filled(r)) <==> QueueIn(Here(w), r.sessionId) == before
  {
    QueueRefines(w, Do(Enqueue(r)), Place(w.slug), r.sessionId);
    QueuedAlike(Here(w), r.sessionId, r.id);
    NewIsOnce(QueueAt(w, Place(w.slug), r.sessionId), Filled(r));
  }

  lemma NewIsOnce(q: seq<Restore>, r: Restore)
    requires !Queued(q, r.id)
    ensures QueuedOnce(q + [r], r)
  {
    assert r !in q;
    assert multiset(q)[r] == 0;
  }

  // The action puts this restore into its queue.
  predicate Brings(a: Action, session: string, r: Restore) {
    a.Enqueue? && a.restore.sessionId == session && Filled(a.restore) == r
  }

  // The queues are written without the restore: it is dequeued, or memory does not have it.
  predicate LosesRestore(l: Local, a: Action, session: string, r: Restore) {
    WritesQueues(l.memory.restores, a)
    && (a == Dequeue(session, r.id) || !(Brings(a, session, r) || QueuedOnce(QueueIn(l, session), r)))
  }

  lemma KeptByFilter(q: seq<Restore>, id: string, r: Restore)
    ensures QueuedOnce(Filter(OtherRestore(id), q), r) <==> id != r.id && QueuedOnce(q, r)
  {
    var after := Filter(OtherRestore(id), q);
    forall x: Restore ensures multiset(after)[x] == if x.id != id then multiset(q)[x] else 0 {
      FilterCount(OtherRestore(id), q, x);
    }
    assert forall x :: x in after <==> x in multiset(after);
    assert forall x :: x in q <==> x in multiset(q);
  }

  lemma KeptByAppend(q: seq<Restore>, x: Restore, r: Restore)
    requires !Queued(q, x.id)
    ensures QueuedOnce(q + [x], r) <==> x == r || QueuedOnce(q, r)
  {
    assert forall y :: y in q + [x] <==> y in q || y == x;
    assert forall y :: y in q <==> y in multiset(q);
    assert multiset(q + [x]) == multiset(q) + multiset{x};
    if QueuedOnce(q, r) {
      assert r in q;
    }
    if x == r {
      assert x !in q;
    }
  }

  lemma KeptByWrite(l: Local, a: Action, session: string, r: Restore)
    requires WritesQueues(l.memory.restores, a)
    ensures QueuedOnce(QueueNext(QueueIn(l, session), a, session), r) <==> !LosesRestore(l, a, session, r)
  {
    var queue := QueueIn(l, session);
    match a
    case Enqueue(x) =>
      if x.sessionId == session {
        QueuedAlike(l, session, x.id);
        KeptByAppend(queue, Filled(x), r);
      }
    case Dequeue(s, id) =>
      if s == session {
        KeptByFilter(queue, id, r);
      }
  }

  /** A queued restore survives an event exactly when that is no action here that writes the queues without it. */
  lemma SurvivesExactly(w: World, e: Event, place: Option<string>, session: string, r: Restore)
    requires QueuedOnce(QueueAt(w, place, session), r)
    ensures QueuedOnce(QueueAt(Next(w, e), place, session), r) <==>
            !(ActsAt(w, e, place) && LosesRestore(Here(w), e.action, session, r))
  {
    if ActsAt(w, e, place) {
      ActedShelf(w, e);
      QueueWritten(Here(w), e.action, session);
      if WritesQueues(w.memory.restores, e.action) {
        KeptByWrite(Here(w), e.action, session, r);
      }
    } else {
      OtherEventsKeep(w, e, place);
    }
  }

  // After every event of the run the restore is in its stored queue, exactly once.
  predicate QueuedThroughout(w: World, events: seq<Event>, place: Option<string>, session: string, r: Restore) {
    QueuedOnce(QueueAt(Run(w, events), place, session), r)
    && (events == [] || QueuedThroughout(w, events[..|events| - 1], place, session, r))
  }

  predicate NeverLost(w: World, events: seq<Event>, place: Option<string>, session: string, r: Restore) {
    events == []
    || (NeverLost(w, events[..|events| - 1], place, session, r)
        && var now, e := Run(w, events[..|events| - 1]), events[|events| - 1];
           !(ActsAt(now, e, place) && LosesRestore(Here(now), e.action, session, r)))
  }

  /** Over every run, the restore stays in its stored queue exactly once precisely as long as no action here loses it. */
  lemma {:induction false} QueuedUntilLost(w: World, events: seq<Event>, place: Option<string>, session: string, r: Restore)
    requires QueuedOnce(QueueAt(w, place, session), r)
    ensures QueuedThroughout(w, events, place, session, r) <==> NeverLost(w, events, place, session, r)
  {
    if events != [] {
      var init, e := events[..|events| - 1], events[|events| - 1];
      QueuedUntilLost(w, init, place, session, r);
      if QueuedThroughout(w, init, place, session, r) {
        QueuedNow(w, init, place, session, r);
        SurvivesExactly(Run(w, init), e, place, session, r);
      }
    }
  }

  lemma QueuedNow(w: World, events: seq<Event>, place: Option<string>, session: string, r: Restore)
    requires QueuedThroughout(w, events, place, session, r)
    ensures QueuedOnce(QueueAt(Run(w, events), place, session), r)
  {
  }

  // The restore is not dequeued here, and no queue is written here before its rehydration.
  predicate Undisturbed(w: World, events: seq<Event>, place: Option<string>, session: string, id: string) {
    events == []
    || (Undisturbed(w, events[..|events| - 1], place, session, id)
        && var now, e := Run(w, events[..|events| - 1]), events[|events| - 1];
           ActsAt(now, e, place) && WritesQueues(now.memory.restores, e.action) ==> !now.pending && e.action != Dequeue(session, id))
  }

  /** So a queued restore stays, exactly once, until it is dequeued, as long as no effective enqueue or dequeue runs early. */
  lemma {:induction false} QueuedUntilDequeued(w: World, events: seq<Event>, place: Option<string>, session: string, r: Restore)
    requires Sync(w) && QueuedOnce(QueueAt(w, place, session), r) && Undisturbed(w, events, place, session, r.id)
    ensures QueuedThroughout(w, events, place, session, r) && NeverLost(w, events, place, session, r)
  {
    if events != [] {
      var init, e := events[..|events| - 1], events[|events| - 1];
      QueuedUntilDequeued(w, init, place, session, r);
      RunKeepsSync(w, init);
      var now := Run(w, init);
      QueuedNow(w, init, place, session, r);
      if ActsAt(now, e, place) && !now.pending {
        QueueInStep(Here(now), session);
      }
    }
    QueuedUntilLost(w, events, place, session, r);
  }

  // ---- From mark to forget ----

  // The ledger is written without the id: it is forgotten, or memory does not have it.
  predicate LosesMark(ids: seq<string>, a: Action, id: string) {
    WritesLedger(ids, a) && (a == ForgetApplied(id) || !(a == MarkApplied(id) || Once(ids, id)))
  }

  lemma MarkKeptByWrite(ids: seq<string>, a: Action, id: string)
    requires WritesLedger(ids, a)
    ensures Once(LedgerNext(ids, a), id) <==> !LosesMark(ids, a, id)
  {
    assert forall x :: x in ids <==> x in multiset(ids);
    match a
    case MarkApplied(y) => assert multiset(ids + [y]) == multiset(ids) + multiset{y};
    case ForgetApplied(y) => FilterCount(Other(y), ids, id);
  }

  predicate MarkedThroughout(w: World, events: seq<Event>, place: Option<string>, id: string) {
    Once(LedgerAt(Run(w, events), place), id) && (events == [] || MarkedThroughout(w, events[..|events| - 1], place, id))
  }

  predicate NeverUnmarked(w: World, events: seq<Event>, place: Option<string>, id: string) {
    events == []
    || (NeverUnmarked(w, events[..|events| - 1], place, id)
        && var now, e := Run(w, events[..|events| - 1]), events[|events| - 1];
           !(ActsAt(now, e, place) && LosesMark(now.memory.applied, e.action, id)))
  }

  lemma MarkSurvivesExactly(w: World, e: Event, place: Option<string>, id: string)
    requires Once(LedgerAt(w, place), id)
    ensures Once(LedgerAt(Next(w, e), place), id) <==> !(ActsAt(w, e, place) && LosesMark(w.memory.applied, e.action, id))
  {
    if ActsAt(w, e, place) {
      ActedShelf(w, e);
      LedgerWritten(Here(w), e.action);
      if WritesLedger(w.memory.applied, e.action) {
        MarkKeptByWrite(w.memory.applied, e.action, id);
      }
    } else {
      OtherEventsKeep(w, e, place);
    }
  }

  lemma MarkedNow(w: World, events: seq<Event>, place: Option<string>, id: string)
    requires MarkedThroughout(w, events, place, id)
    ensures Once(LedgerAt(Run(w, events), place), id)
  {
  }

  /** Over every run, a marked id stays in the stored ledger, once, precisely as long as no action here loses it. */
  lemma {:induction false} MarkedUntilLost(w: World, events: seq<Event>, place: Option<string>, id: string)
    requires Once(LedgerAt(w, place), id)
    ensures MarkedThroughout(w, events, place, id) <==> NeverUnmarked(w, events, place, id)
  {
    if events != [] {
      var init, e := events[..|events| - 1], events[|events| - 1];
      MarkedUntilLost(w, init, place, id);
      if MarkedThroughout(w, init, place, id) {
        MarkedNow(w, init, place, id);
        MarkSurvivesExactly(Run(w, init), e, place, id);
      }
    }
  }

  // The id is not forgotten here, and the ledger is not written here before its rehydration.
  predicate Unforgotten(w: World, events: seq<Event>, place: Option<string>, id: string) {
    events == []
    || (Unforgotten(w, events[..|events| - 1], place, id)
        && var now, e := Run(w, events[..|events| - 1]), events[|events| - 1];
           ActsAt(now, e, place) && WritesLedger(now.memory.applied, e.action) ==> !now.pending && e.action != ForgetApplied(id))
  }

  /** So a marked id stays, once, until it is forgotten, as long as no effective mark or forget runs early. */
  lemma {:induction false} MarkedUntilForgotten(w: World, events: seq<Event>, place: Option<string>, id: string)
    requires Sync(w) && Once(LedgerAt(w, place), id) && Unforgotten(w, events, place, id)
    ensures MarkedThroughout(w, events, place, id) && NeverUnmarked(w, events, place, id)
  {
    if events != [] {
      var init, e := events[..|events| - 1], events[|events| - 1];
      MarkedUntilForgotten(w, init, place, id);
      RunKeepsSync(w, init);
      MarkedNow(w, init, place, id);
    }
    MarkedUntilLost(w, events, place, id);
  }
}
