/** Workspaces of the chat store: what one sees of a run, and what an action before rehydration does to it. */
module ChatWorkspaces {
  import opened Wrappers
  import opened Sequences
  import opened Text
  import opened DraftUploads
  import opened ChatState
  import opened ChatRuns

  // ---- Workspaces apart ----

  /** No event changes what is stored for a workspace other than the one it is written to. */
  lemma OthersUntouched(w: World, e: Event, place: Option<string>)
    requires place != Place(Next(w, e).slug)
    ensures ShelfAt(Next(w, e).disk, place) == ShelfAt(w.disk, place)
  {
    match e
    case Do(a) => StowLaws(w.disk, Place(w.slug), Act(Here(w), a).shelf, EMPTY_SHELF);
    case Switch(_) =>
    case Rehydrate => StowLaws(w.disk, Place(w.slug), Folded(Here(w).shelf), EMPTY_SHELF);
    case Restart => StowLaws(w.disk, None, Folded(ShelfAt(w.disk, None)), EMPTY_SHELF);
  }

  // What one workspace sees of a run.
  datatype Seen = Acted(action: Action) | Opened

  function LocalNext(l: Local, s: Seen): Local {
    match s
    case Acted(a) => Act(l, a)
    case Opened => Reloaded(l)
  }

  function LocalRun(l: Local, seen: seq<Seen>): Local {
    if seen == [] then l else LocalNext(LocalRun(l, seen[..|seen| - 1]), seen[|seen| - 1])
  }

  function SeenNow(w: World, e: Event, place: Option<string>): seq<Seen> {
    match e
    case Do(a) => if Place(w.slug) == place then [Acted(a)] else []
    case Switch(_) => []
    case Rehydrate => if w.pending && Place(w.slug) == place then [Opened] else []
    case Restart => if place == None then [Opened] else []
  }

  function SeenBy(w: World, events: seq<Event>, place: Option<string>): seq<Seen> {
    if events == [] then []
    else SeenBy(w, events[..|events| - 1], place) + SeenNow(Run(w, events[..|events| - 1]), events[|events| - 1], place)
  }

  // ---- Actions before rehydration ----

  // What the action writes to storage does not depend on memory: a selection, or an action its own arguments stop.
  predicate Blind(a: Action) {
    match a
    case SetActiveSession(_) => true
    case SetSelectedAgent(_) => true
    case SetSelectedProject(_) => true
    case Enqueue(r) => r.sessionId == "" || r.id == ""
    case AddAttachment(_, attachment) => attachment.id == ""
    case _ => false
  }

  ghost predicate IgnoresMemory(a: Action) {
    forall s: Shelf, m: Memory, n: Memory :: Act(Local(m, s), a).shelf == Act(Local(n, s), a).shelf
  }

  const BLANK := Memory(None, None, None, map[], map[], [], map[])

  function Placeholder(id: string): Upload {
    Pending(id, "", 0, None, Failed, None)
  }

  // A memory that makes the action write what it would not write from a blank one.
  function Revealing(a: Action): Memory {
    match a
    case MarkApplied(id) => BLANK.(applied := [id])
    case ForgetApplied(id) => BLANK.(applied := [id, id + "+"])
    case Enqueue(r) => BLANK.(restores := map[r.sessionId := [r]])
    case Dequeue(s, id) => BLANK.(restores := map[s := [Restore(id, "", None, s), Restore(id + "+", "", None, s)]])
    case SetDraft(s, _) => BLANK.(drafts := map[s + "+" := "+"])
    case AppendDraft(s, _) => BLANK.(drafts := map[s + "+" := "+"])
    case SetUploads(s, _) => BLANK.(uploads := map[s + "+" := [Placeholder("")]])
    case AddAttachment(s, _) => BLANK.(uploads := map[s + "+" := [Placeholder("")]])
    case AddUpload(s, u) => BLANK.(uploads := map[s := [u]])
    case SettleUpload(s, id, _) => BLANK.(uploads := map[s := [Placeholder(id)]])
    case FailUpload(s, id, _) => BLANK.(uploads := map[s := [Placeholder(id)]])
    case RemoveUpload(s, id) => BLANK.(uploads := map[s := [Placeholder(id), Placeholder(id + "+")]])
    case ClearDraft(s) => BLANK.(drafts := map[s := "+", s + "+" := "+"])
    case _ => BLANK
  }

  function Written(m: Memory, a: Action): Shelf {
    Act(Local(m, EMPTY_SHELF), a).shelf
  }

  lemma TwoKept<T>(keep: T -> bool, x: T, y: T)
    requires !keep(x) && keep(y)
    ensures Filter(keep, [x, y]) == [y]
  {
    assert [x, y][..1] == [x] && [x][..0] == [];
    assert Filter(keep, [x]) == [];
  }

  lemma LedgerReveals(a: Action)
    requires a.MarkApplied? || a.ForgetApplied?
    ensures Written(BLANK, a) != Written(Revealing(a), a)
  {
    if a.ForgetApplied? {
      TwoKept(Other(a.restoreId), a.restoreId, a.restoreId + "+");
      assert a.restoreId in [a.restoreId, a.restoreId + "+"];
    }
  }

  lemma QueueReveals(a: Action)
    requires !Blind(a) && (a.Enqueue? || a.Dequeue?)
    ensures Written(BLANK, a).restores != Written(Revealing(a), a).restores
  {
    match a
    case Enqueue(r) =>
      assert Queued([r], r.id) by {
        assert r in [r];
      }
      assert r.sessionId in PruneQueues(BLANK.restores[r.sessionId := [r]]);
    case Dequeue(s, id) =>
      var x, y := Restore(id, "", None, s), Restore(id + "+", "", None, s);
      assert Queued([x, y], id) by {
        assert x in [x, y];
      }
      TwoKept(OtherRestore(id), x, y);
      assert s in PruneQueues(Put(Revealing(a).restores, s, [y]));
  }

  lemma DraftReveals(a: Action)
    requires a.SetDraft? || a.AppendDraft? || a.ClearDraft?
    ensures Written(BLANK, a).drafts != Written(Revealing(a), a).drafts
  {
    var other := a.session + "+";
    assert other != a.session && other in Revealing(a).drafts;
    assert other in PruneDrafts(Act(Local(Revealing(a), EMPTY_SHELF), a).memory.drafts);
    assert other !in Drafts(Written(BLANK, a).drafts);
    assert other in Drafts(Written(Revealing(a), a).drafts);
  }

  lemma SlotReveals(a: Action)
    requires a.SetUploads? || (a.AddAttachment? && !Blind(a))
    ensures Written(BLANK, a).uploads != Written(Revealing(a), a).uploads
  {
    var other := a.session + "+";
    var after := Act(Local(Revealing(a), EMPTY_SHELF), a).memory.uploads;
    assert other != a.session && other in after && after[other] == [Placeholder("")];
    assert other in Stored(after);
    assert other !in Stored(Act(Local(BLANK, EMPTY_SHELF), a).memory.uploads);
  }

  lemma UploadReveals(a: Action)
    requires a.AddUpload? || a.SettleUpload? || a.FailUpload? || a.RemoveUpload?
    ensures Written(BLANK, a).uploads != Written(Revealing(a), a).uploads
  {
    var s := a.session;
    var before, after := Revealing(a).uploads, Act(Local(Revealing(a), EMPTY_SHELF), a).memory.uploads;
    assert before[s][0] in before[s];
    match a
    case AddUpload(_, u) =>
      assert Holds([u], u.clientUploadId);
      assert s in Stored(BLANK.uploads[s := [u]]);
    case SettleUpload(_, id, att) =>
      assert Holds(before[s], id) && s in Stored(after);
    case FailUpload(_, id, error) =>
      assert s in Stored(after);
    case RemoveUpload(_, id) =>
      assert Holds(before[s], id);
      TwoKept(OtherUpload(id), Placeholder(id), Placeholder(id + "+"));
      assert s in Stored(after);
  }

  /**
   What an action writes is independent of the memory it finds exactly when it
   is a selection or is stopped by its own arguments. All others carry memory
   of the workspace just left into the one just entered.
   */
  lemma BlindExactly(a: Action)
    ensures IgnoresMemory(a) <==> Blind(a)
  {
    if !Blind(a) {
      if a.MarkApplied? || a.ForgetApplied? {
        LedgerReveals(a);
      } else if a.Enqueue? || a.Dequeue? {
        QueueReveals(a);
      } else if a.SetDraft? || a.AppendDraft? || a.ClearDraft? {
        DraftReveals(a);
      } else if a.SetUploads? || a.AddAttachment? {
        SlotReveals(a);
      } else {
        UploadReveals(a);
      }
      assert Act(Local(BLANK, EMPTY_SHELF), a).shelf != Act(Local(Revealing(a), EMPTY_SHELF), a).shelf;
    }
  }

  // Between a change of workspace and the rehydration it schedules, only actions run that ignore memory.
  ghost predicate Calm(w: World, events: seq<Event>) {
    events == []
    || (Calm(w, events[..|events| - 1])
        && (events[|events| - 1].Do? ==> !Run(w, events[..|events| - 1]).pending || IgnoresMemory(events[|events| - 1].action)))
  }

  lemma LocalRunAppend(l: Local, seen: seq<Seen>, s: Seen)
    ensures LocalRun(l, seen + [s]) == LocalNext(LocalRun(l, seen), s)
  {
    assert (seen + [s])[..|seen|] == seen;
  }

  // The workspace alone shows what is stored for it and, while it is open, what is in memory.
  predicate Shows(l: Local, w: World, place: Option<string>) {
    l.shelf == ShelfAt(w.disk, place) && (!w.pending && Place(w.slug) == place ==> l.memory == w.memory)
  }

  lemma SeesNothing(l: Local)
    ensures LocalRun(l, []) == l
  {
  }

  lemma SeesOne(l: Local, s: Seen)
    ensures LocalRun(l, [s]) == LocalNext(l, s)
  {
    LocalRunAppend(l, [], s);
    assert [] + [s] == [s];
  }

  lemma SeesAction(w: World, a: Action, place: Option<string>, l: Local)
    requires (!w.pending || IgnoresMemory(a)) && Shows(l, w, place)
    ensures Shows(LocalRun(l, SeenNow(w, Do(a), place)), Next(w, Do(a)), place)
  {
    StowLaws(w.disk, Place(w.slug), Act(Here(w), a).shelf, EMPTY_SHELF);
    if Place(w.slug) == place {
      SeesOne(l, Acted(a));
      if !w.pending {
        assert l == Here(w);
      } else {
        assert Act(Local(l.memory, l.shelf), a).shelf == Act(Local(w.memory, l.shelf), a).shelf;
      }
    }
  }

  lemma SeesRehydration(w: World, place: Option<string>, l: Local)
    requires Shows(l, w, place)
    ensures Shows(LocalRun(l, SeenNow(w, Rehydrate, place)), Next(w, Rehydrate), place)
  {
    StowLaws(w.disk, Place(w.slug), Folded(Here(w).shelf), EMPTY_SHELF);
    SeesOne(l, Opened);
  }

  lemma SeesRestart(w: World, place: Option<string>, l: Local)
    requires Shows(l, w, place)
    ensures Shows(LocalRun(l, SeenNow(w, Restart, place)), Next(w, Restart), place)
  {
    StowLaws(w.disk, None, Folded(ShelfAt(w.disk, None)), EMPTY_SHELF);
    SeesOne(l, Opened);
  }

  lemma SeesOneStep(w: World, e: Event, place: Option<string>, l: Local)
    requires (e.Do? ==> !w.pending || IgnoresMemory(e.action)) && Shows(l, w, place)
    ensures Shows(LocalRun(l, SeenNow(w, e, place)), Next(w, e), place)
  {
    match e
    case Do(a) => SeesAction(w, a, place, l);
    case Switch(_) => SeesNothing(l);
    case Rehydrate => SeesRehydration(w, place, l);
    case Restart => SeesRestart(w, place, l);
  }

  lemma {:induction false} LocalRunConcat(l: Local, a: seq<Seen>, b: seq<Seen>)
    ensures LocalRun(l, a + b) == LocalRun(LocalRun(l, a), b)
  {
    if b == [] {
      assert a + b == a;
    } else {
      LocalRunConcat(l, a, b[..|b| - 1]);
      assert (a + b)[..|a + b| - 1] == a + b[..|b| - 1];
    }
  }

  /**
   When only actions that ignore memory run before a rehydration, each workspace
   is as if it were alone: its storage, and memory while it is open, depend only
   on what happened in it.
   */
  lemma {:induction false} WorkspacesIndependent(disk: Disk, events: seq<Event>, place: Option<string>, l: Local)
    requires Calm(Boot(disk), events) && Shows(l, Boot(disk), place)
    ensures Shows(LocalRun(l, SeenBy(Boot(disk), events, place)), Run(Boot(disk), events), place)
  {
    if events != [] {
      var init, e := events[..|events| - 1], events[|events| - 1];
      WorkspacesIndependent(disk, init, place, l);
      var w, alone := Run(Boot(disk), init), LocalRun(l, SeenBy(Boot(disk), init, place));
      SeesOneStep(w, e, place, alone);
      LocalRunConcat(l, SeenBy(Boot(disk), init, place), SeenNow(w, e, place));
    }
  }

  lemma RunAppend(w: World, events: seq<Event>, e: Event)
    ensures Run(w, events + [e]) == Next(Run(w, events), e)
  {
    assert (events + [e])[..|events|] == events;
  }

  /** An action in between writes the drafts of the workspace just left over those of the one just entered. */
  lemma DraftsLeakBeforeRehydration(w: World, slug: string, session: string, text: string, other: string)
    requires w.slug != Some(slug) && slug != "" && other != session
    requires other in w.memory.drafts && w.memory.drafts[other] != ""
    requires other !in Drafts(ShelfAt(w.disk, Some(slug)).drafts)
    ensures var after := Run(w, [Switch(Some(slug)), Do(SetDraft(session, text))]);
            other in Drafts(ShelfAt(after.disk, Some(slug)).drafts)
            && Drafts(ShelfAt(after.disk, Some(slug)).drafts)[other] == w.memory.drafts[other]
  {
    var entered := Next(w, Switch(Some(slug)));
    RunAppend(w, [], Switch(Some(slug)));
    RunAppend(w, [Switch(Some(slug))], Do(SetDraft(session, text)));
    assert [] + [Switch(Some(slug))] == [Switch(Some(slug))];
    assert [Switch(Some(slug))] + [Do(SetDraft(session, text))] == [Switch(Some(slug)), Do(SetDraft(session, text))];
    var l := Act(Here(entered), SetDraft(session, text));
    assert other in PruneDrafts(l.memory.drafts);
    StowLaws(entered.disk, Some(slug), l.shelf, EMPTY_SHELF);
  }

  // ---- Drafts and uploads of an action, wherever memory comes from ----

  // The text of a draft; an absent draft is an empty one.
  function TextIn(drafts: map<string, string>, session: string): string {
    if session in drafts then drafts[session] else ""
  }

  function StoredText(s: Shelf, session: string): string {
    TextIn(Drafts(s.drafts), session)
  }

  // What an action means for the text of one draft.
  function TextNext(text: string, a: Action, session: string): string {
    match a
    case SetDraft(s, t) => if s == session then t else text
    case AppendDraft(s, t) => if s == session then Appended(text, t) else text
    case ClearDraft(s) => if s == session then "" else text
    case _ => text
  }

  // The guards of the draft actions: whether the whole map is written.
  predicate WritesDrafts(m: Memory, a: Action) {
    match a
    case SetDraft(_, _) => true
    case AppendDraft(_, _) => true
    case ClearDraft(s) => s in m.drafts || s in m.uploads
    case _ => false
  }

  // What must be stored for the action to do to the stored draft what it means.
  predicate TextReady(m: Memory, stored: string, a: Action, session: string) {
    var text := TextIn(m.drafts, session);
    match a
    case SetDraft(s, _) => s == session || text == stored
    case AppendDraft(s, _) => if s == session then TrimEnd(text) == TrimEnd(stored) else text == stored
    case ClearDraft(s) => if s == session then WritesDrafts(m, a) || stored == "" else WritesDrafts(m, a) ==> text == stored
    case _ => true
  }

  lemma TextWritten(l: Local, a: Action, session: string)
    ensures StoredText(Act(l, a).shelf, session)
         == if WritesDrafts(l.memory, a) then TextNext(TextIn(l.memory.drafts, session), a, session) else StoredText(l.shelf, session)
  {
    var drafts := Act(l, a).memory.drafts;
    assert session in PruneDrafts(drafts) <==> session in drafts && drafts[session] != "";
    assert TextIn(Drafts(DraftsBlob(drafts)), session) == TextIn(drafts, session);
  }

  lemma AppendedExactly(a: string, b: string, more: string)
    ensures Appended(a, more) == Appended(b, more) <==> TrimEnd(a) == TrimEnd(b)
  {
    var x, y := TrimEnd(a), TrimEnd(b);
    if x != "" && y != "" && x + "\n\n" + more == y + "\n\n" + more {
      assert |x| == |y|;
      assert x == (x + "\n\n" + more)[..|x|] == (y + "\n\n" + more)[..|y|] == y;
    }
    if x == "" && y != "" {
      assert |Appended(a, more)| < |Appended(b, more)|;
    }
    if y == "" && x != "" {
      assert |Appended(b, more)| < |Appended(a, more)|;
    }
  }

  /** An action does to a stored draft what it means exactly when memory and storage agree as far as it looks. */
  lemma DraftRefinesExactly(l: Local, a: Action, session: string)
    ensures StoredText(Act(l, a).shelf, session) == TextNext(StoredText(l.shelf, session), a, session) <==>
            TextReady(l.memory, StoredText(l.shelf, session), a, session)
  {
    TextWritten(l, a, session);
    if a.AppendDraft? {
      AppendedExactly(TextIn(l.memory.drafts, session), StoredText(l.shelf, session), a.text);
    }
  }

  // The guards of the upload actions: whether the whole map is written.
  predicate WritesUploads(m: Memory, a: Action) {
    match a
    case SetUploads(_, _) => true
    case AddAttachment(_, attachment) => attachment.id != ""
    case AddUpload(s, u) => !Holds(At(m.uploads, s), u.clientUploadId)
    case SettleUpload(s, id, _) => Holds(At(m.uploads, s), id)
    case FailUpload(s, id, _) => Target(At(m.uploads, s), id).Some?
    case RemoveUpload(s, id) => Holds(At(m.uploads, s), id)
    case ClearDraft(s) => s in m.drafts || s in m.uploads
    case _ => false
  }

  function StoredUploads(s: Shelf, session: string): seq<Upload> {
    At(Uploads(s.uploads), session)
  }

  lemma SettledAt(uploads: map<string, seq<Upload>>, session: string)
    ensures At(SettledUploads(uploads), session) == Settled(At(uploads, session))
  {
  }

  lemma UploadsBlobAfter(l: Local, a: Action)
    ensures Act(l, a).shelf.uploads
         == if WritesUploads(l.memory, a) then UploadsBlob(Act(l, a).memory.uploads) else l.shelf.uploads
  {
  }

  lemma UploadsWritten(l: Local, a: Action, session: string)
    ensures StoredUploads(Act(l, a).shelf, session)
         == if WritesUploads(l.memory, a) then Settled(At(Act(l, a).memory.uploads, session)) else StoredUploads(l.shelf, session)
  {
    var after := Act(l, a).memory.uploads;
    UploadsBlobAfter(l, a);
    UploadsStored(after);
    SettledAt(after, session);
  }

  lemma UploadsUnwritten(l: Local, a: Action)
    requires !WritesUploads(l.memory, a)
    ensures Act(l, a).memory.uploads == l.memory.uploads
  {
  }

  /**
   The stored uploads of a session the action is not about stay as they are
   exactly when nothing is written or memory holds the same ones.
   */
  lemma OtherUploadsStayExactly(l: Local, a: Action, session: string)
    requires About(a) != Some(session)
    ensures StoredUploads(Act(l, a).shelf, session) == StoredUploads(l.shelf, session) <==>
            !WritesUploads(l.memory, a) || Settled(At(l.memory.uploads, session)) == StoredUploads(l.shelf, session)
  {
    UploadsWritten(l, a, session);
    UploadsApart(l, a, session);
  }

  /** After an action a session's stored uploads are those in memory exactly when it wrote them or they were before. */
  lemma UploadsShownExactly(l: Local, a: Action, session: string)
    ensures StoredUploads(Act(l, a).shelf, session) == Settled(At(Act(l, a).memory.uploads, session)) <==>
            WritesUploads(l.memory, a) || StoredUploads(l.shelf, session) == Settled(At(l.memory.uploads, session))
  {
    UploadsWritten(l, a, session);
    if !WritesUploads(l.memory, a) {
      UploadsUnwritten(l, a);
    }
  }

  /** In step, every draft is ready and no other session's uploads change: then the actions mean what they say. */
  lemma InStepIsReady(l: Local, a: Action, session: string)
    requires InStep(l)
    ensures TextReady(l.memory, StoredText(l.shelf, session), a, session)
    ensures Settled(At(l.memory.uploads, session)) == StoredUploads(l.shelf, session)
  {
    SettledAt(l.memory.uploads, session);
    TextPruned(l.memory.drafts, session);
    TextPruned(Drafts(l.shelf.drafts), session);
  }

  lemma TextPruned(drafts: map<string, string>, session: string)
    ensures TextIn(PruneDrafts(drafts), session) == TextIn(drafts, session)
  {
  }
}
