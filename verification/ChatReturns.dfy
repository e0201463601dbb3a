/** What events do to the store as a whole, and that a restore comes back as it was put in. */
module ChatReturns {
  import opened Wrappers
  import opened Sequences
  import opened DraftUploads
  import opened ChatState
  import opened ChatRuns
  import opened ChatQueues
  import opened ChatEffects

  // ---- Events ----

  // Where the store reads and writes: the bare keys without a slug, or with an empty one.
  ghost predicate At(w: World, place: Option<string>) {
    if w.slug == None || w.slug == Some("") then place == None else place == w.slug
  }

  ghost function Kept(w: World, place: Option<string>): Shelf {
    if place in w.disk then w.disk[place] else Shelf(None, None, None, Missing, Missing, Missing, Missing)
  }

  ghost predicate OthersKept(w: World, r: World, place: Option<string>) {
    forall p | p != place :: Kept(r, p) == Kept(w, p)
  }

  /** An action changes memory and the current workspace's storage together, and nothing else. */
  lemma ActionsLeave(w: World, a: Action, place: Option<string>)
    requires At(w, place)
    ensures var r := Next(w, Do(a));
            && r.slug == w.slug && r.pending == w.pending && OthersKept(w, r, place)
            && Local(r.memory, Kept(r, place)) == Act(Local(w.memory, Kept(w, place)), a)
  {
    StowLaws(w.disk, place, Act(Local(w.memory, Kept(w, place)), a).shelf, EMPTY_SHELF);
  }

  /** A change of workspace changes the slug at once and leaves memory to the rehydration. */
  lemma SwitchLeaves(w: World, slug: Option<string>)
    ensures Next(w, Switch(slug)) == if slug == w.slug then w else World(w.disk, slug, true, w.memory)
  {
  }

  // Storage after loading: folded maps are written back, everything else stays.
  ghost predicate LoadedFrom(s: Shelf, m: Memory, after: Shelf) {
    && m == Load(s) && after == s.(drafts := after.drafts, uploads := after.uploads)
    && (if s.drafts.Value? && exists k :: k in s.drafts.value && "__new__:" <= k then DraftsAreStored(m.drafts, after.drafts)
        else after.drafts == s.drafts)
    && (after.uploads == s.uploads || ListsAreStored(m.uploads, after.uploads, StoredUpload))
  }

  lemma FoldedIsLoaded(s: Shelf)
    ensures LoadedFrom(s, Load(s), Folded(s))
  {
    DraftsBlobStores(Load(s).drafts);
    UploadsBlobStores(Load(s).uploads);
    assert forall k: string :: Legacy(k) <==> "__new__:" <= k;
  }

  lemma ReloadLeaves(w: World, place: Option<string>)
    requires At(w, place)
    ensures var r := With(w, Reloaded(Here(w)));
            && r.slug == w.slug && r.pending == w.pending && OthersKept(w, r, place)
            && LoadedFrom(Kept(w, place), r.memory, Kept(r, place))
  {
    StowLaws(w.disk, place, Folded(Kept(w, place)), EMPTY_SHELF);
    FoldedIsLoaded(Kept(w, place));
  }

  /** Rehydration, when one is due, loads memory from the current workspace's storage. */
  lemma RehydrationLeaves(w: World, place: Option<string>)
    requires At(w, place)
    ensures !w.pending ==> Next(w, Rehydrate) == w
    ensures var r := Next(w, Rehydrate);
            w.pending ==> !r.pending && r.slug == w.slug && OthersKept(w, r, place) && LoadedFrom(Kept(w, place), r.memory, Kept(r, place))
  {
    ReloadLeaves(w.(pending := false), place);
  }

  /** A restart forgets the slug and loads the bare keys. */
  lemma RestartLeaves(w: World)
    ensures var r := Next(w, Restart);
            !r.pending && r.slug == None && OthersKept(w, r, None) && LoadedFrom(Kept(w, None), r.memory, Kept(r, None))
  {
    ReloadLeaves(w.(slug := None, pending := false), None);
  }

  // ---- A restore comes back ----

  // The restore itself, where a missing list of attachments counts as an empty one.
  ghost predicate IsRestore(x: Restore, r: Restore) {
    && x.id == r.id && x.content == r.content && x.sessionId == r.sessionId
    && x.attachments.GetOr([]) == r.attachments.GetOr([])
  }

  lemma OnePosition<T>(q: seq<T>, x: T) returns (i: nat)
    requires multiset(q)[x] == 1
    ensures i < |q| && q[i] == x && forall j :: 0 <= j < |q| && j != i ==> q[j] != x
  {
    assert x in multiset(q);
    i :| i < |q| && q[i] == x;
    forall j | 0 <= j < |q| && j != i ensures q[j] != x {
      WithoutBag(q, i);
      var rest := Without(q, i);
      assert multiset(rest)[x] == 0;
      assert rest[if j < i then j else j - 1] == q[j];
      assert q[j] in rest;
    }
  }

  lemma QueuedInMemory(w: World, place: Option<string>, session: string, r: Restore) returns (i: nat)
    requires InStep(Here(w)) && Place(w.slug) == place && QueuedOnce(QueueAt(w, place, session), Filled(r))
    ensures var q := SlotAt(w.memory.restores, session);
            i < |q| && IsRestore(q[i], r) && forall j :: 0 <= j < |q| && j != i ==> q[j].id != r.id
  {
    QueueInStep(Here(w), session);
    var q := SlotAt(w.memory.restores, session);
    var filled := QueueIn(Here(w), session);
    assert filled == Map(Filled, q);
    i := OnePosition(filled, Filled(r));
    forall j | 0 <= j < |q| && j != i ensures q[j].id != r.id {
      assert filled[j] in filled && filled[j].id == q[j].id;
    }
  }

  /**
   A restore that is put in while memory and storage are in step is there again
   whenever its workspace is open and rehydrated, once, with its own text and
   attachments, as long as it is not dequeued and no queue is written early.
   */
  lemma RestoreComesBack(w: World, r: Restore, events: seq<Event>) returns (i: nat)
    requires InStep(Here(w)) && !w.pending && r.sessionId != "" && r.id != ""
    requires forall x | x in SlotAt(w.memory.restores, r.sessionId) :: x.id != r.id
    requires Undisturbed(Next(w, Do(Enqueue(r))), events, Place(w.slug), r.sessionId, r.id)
    requires var later := Run(Next(w, Do(Enqueue(r))), events); !later.pending && Place(later.slug) == Place(w.slug)
    ensures var q := SlotAt(Run(Next(w, Do(Enqueue(r))), events).memory.restores, r.sessionId);
            i < |q| && IsRestore(q[i], r) && forall j :: 0 <= j < |q| && j != i ==> q[j].id != r.id
  {
    var place, w1 := Place(w.slug), Next(w, Do(Enqueue(r)));
    QueueInStep(Here(w), r.sessionId);
    QueuedAlike(Here(w), r.sessionId, r.id);
    EnqueuedOnce(w, r);
    NextInSync(w, Do(Enqueue(r)));
    QueuedUntilDequeued(w1, events, place, r.sessionId, Filled(r));
    QueuedNow(w1, events, place, r.sessionId, Filled(r));
    RunKeepsSync(w1, events);
    i := QueuedInMemory(Run(w1, events), place, r.sessionId, r);
  }
}
