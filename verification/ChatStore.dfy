/** The chat store as the object that its actions update. */
module ChatStore {
  import opened Wrappers
  import opened Sequences
  import opened DraftUploads
  import opened ChatState

  class Store {
    // Storage and the current workspace.
    var disk: Disk
    var slug: Option<string>
    var rehydrationPending: bool
    // The slices that follow the workspace.
    var activeSessionId: Option<string>
    var selectedAgentId: Option<string>
    var selectedProjectId: Option<string>
    var inputDrafts: map<string, string>
    var inputDraftAttachments: map<string, seq<Upload>>
    var appliedDraftRestoreIds: seq<string>
    var pendingSendRestores: map<string, seq<Restore>>

    ghost function State(): World
      reads this
    {
      World(disk, slug, rehydrationPending,
            Memory(activeSessionId, selectedAgentId, selectedProjectId, inputDrafts, inputDraftAttachments,
                   appliedDraftRestoreIds, pendingSendRestores))
    }

    // What is stored for the current workspace.
    function Current(): Shelf
      reads this
    {
      ShelfAt(disk, Place(slug))
    }

    method Write(shelf: Shelf)
      modifies this`disk
      ensures disk == Stow(old(disk), Place(slug), shelf) && Current() == shelf
    {
      StowLaws(disk, Place(slug), shelf, shelf);
      disk := Stow(disk, Place(slug), shelf);
    }

    constructor (storage: Disk)
      ensures State() == Next(World(storage, None, false, Load(EMPTY_SHELF)), Restart)
    {
      var shelf := ShelfAt(storage, None);
      slug, rehydrationPending := None, false;
      activeSessionId, selectedAgentId, selectedProjectId := shelf.session, shelf.agent, shelf.project;
      inputDrafts := Migrated(Drafts(shelf.drafts), shelf.agent);
      inputDraftAttachments := Migrated(Uploads(shelf.uploads), shelf.agent);
      appliedDraftRestoreIds, pendingSendRestores := Applied(shelf.applied), Restores(shelf.restores);
      disk := Stow(storage, None, Folded(shelf));
    }

    // Reads both draft maps, folds their legacy slots for the same agent, and writes back what changed.
    method LoadDraftSlots(agent: Option<string>) returns (drafts: map<string, string>, uploads: map<string, seq<Upload>>)
      requires Current().agent == agent
      modifies this`disk
      ensures disk == Stow(old(disk), Place(slug), Folded(old(Current())))
      ensures drafts == Migrated(Drafts(old(Current().drafts)), agent)
      ensures uploads == Migrated(Uploads(old(Current().uploads)), agent)
    {
      var shelf := Current();
      var storedDrafts, storedUploads := Drafts(shelf.drafts), Uploads(shelf.uploads);
      drafts, uploads := Migrated(storedDrafts, agent), Migrated(storedUploads, agent);
      if exists k :: k in storedDrafts && Legacy(k) {
        shelf := shelf.(drafts := DraftsBlob(drafts));
      }
      if exists k :: k in storedUploads && Legacy(k) {
        shelf := shelf.(uploads := UploadsBlob(uploads));
      }
      Write(shelf);
    }

    method SetCurrentWorkspace(next: Option<string>)
      modifies this`slug, this`rehydrationPending
      ensures State() == Next(old(State()), Switch(next))
    {
      if slug == next {
        return;
      }
      slug := next;
      rehydrationPending := true;
    }

    method SetSlices(m: Memory)
      modifies this
      ensures State() == old(State()).(memory := m)
    {
      activeSessionId, selectedAgentId, selectedProjectId := m.session, m.agent, m.project;
      inputDrafts, inputDraftAttachments := m.drafts, m.uploads;
      appliedDraftRestoreIds, pendingSendRestores := m.applied, m.restores;
    }

    // The deferred task that a workspace change schedules.
    method RunRehydration()
      modifies this
      ensures State() == Next(old(State()), Rehydrate)
    {
      if !rehydrationPending {
        return;
      }
      rehydrationPending := false;
      var shelf := Current();
      var drafts, uploads := LoadDraftSlots(shelf.agent);
      SetSlices(Memory(shelf.session, shelf.agent, shelf.project, drafts, uploads, Applied(shelf.applied), Restores(shelf.restores)));
    }

    method ApplySession(id: Option<string>)
      modifies this
      ensures State() == Next(old(State()), Do(SetActiveSession(id)))
    {
      Write(Current().(session := if id.Some? && id.value != "" then id else None));
      activeSessionId := id;
    }

    method ApplyAgent(id: string)
      modifies this
      ensures State() == Next(old(State()), Do(SetSelectedAgent(id)))
    {
      Write(Current().(agent := Some(id)));
      selectedAgentId := Some(id);
    }

    method ApplyProject(id: Option<string>)
      modifies this
      ensures State() == Next(old(State()), Do(SetSelectedProject(id)))
    {
      Write(Current().(project := if id.Some? && id.value != "" then id else None));
      selectedProjectId := id;
    }

    // Leaving everything as it is, as an action without effect does.
    lemma Unchanged()
      ensures With(State(), Here(State())) == State()
    {
      StowLaws(disk, Place(slug), Current(), Current());
    }

    // ---- The ledger of applied restores ----

    method SetApplied(ids: seq<string>)
      modifies this
      ensures State() == With(old(State()), WithApplied(old(Here(State())), ids))
    {
      Write(Current().(applied := if ids == [] then Missing else Value(ids)));
      appliedDraftRestoreIds := ids;
    }

    method MarkDraftRestoreApplied(id: string)
      modifies this
      ensures State() == Next(old(State()), Do(MarkApplied(id)))
    {
      Unchanged();
      if id in appliedDraftRestoreIds {
        return;
      }
      SetApplied(appliedDraftRestoreIds + [id]);
    }

    method ForgetDraftRestoreApplied(id: string)
      modifies this
      ensures State() == Next(old(State()), Do(ForgetApplied(id)))
    {
      Unchanged();
      if id !in appliedDraftRestoreIds {
        return;
      }
      SetApplied(Filter(Other(id), appliedDraftRestoreIds));
    }

    // ---- The queues of pending restores ----

    method SetRestores(queues: map<string, seq<Restore>>)
      modifies this
      ensures State() == With(old(State()), WithRestores(old(Here(State())), queues))
    {
      var pruned := map k | k in queues && queues[k] != [] :: queues[k];
      Write(Current().(restores := if pruned == map[] then Missing else Value(pruned)));
      pendingSendRestores := queues;
    }

    method EnqueuePendingSendRestore(restore: Restore)
      modifies this
      ensures State() == Next(old(State()), Do(Enqueue(restore)))
    {
      Unchanged();
      if restore.sessionId == "" || restore.id == "" {
        return;
      }
      var existing := At(pendingSendRestores, restore.sessionId);
      if Queued(existing, restore.id) {
        return;
      }
      SetRestores(pendingSendRestores[restore.sessionId := existing + [restore]]);
    }

    method DequeuePendingSendRestore(session: string, id: string)
      modifies this
      ensures State() == Next(old(State()), Do(Dequeue(session, id)))
    {
      Unchanged();
      if session !in pendingSendRestores || !Queued(pendingSendRestores[session], id) {
        return;
      }
      var remaining := Filter(OtherRestore(id), pendingSendRestores[session]);
      var next := pendingSendRestores;
      if |remaining| > 0 {
        next := next[session := remaining];
      } else {
        next := next - {session};
      }
      SetRestores(next);
    }

    // ---- Drafts ----

    method SetDrafts(drafts: map<string, string>)
      modifies this
      ensures State() == With(old(State()), WithDrafts(old(Here(State())), drafts))
    {
      var pruned := map k | k in drafts && drafts[k] != "" :: drafts[k];
      Write(Current().(drafts := if pruned == map[] then Missing else Value(pruned)));
      inputDrafts := drafts;
    }

    method SetInputDraft(session: string, draft: string)
      modifies this
      ensures State() == Next(old(State()), Do(SetDraft(session, draft)))
    {
      SetDrafts(inputDrafts[session := draft]);
    }

    method AppendToInputDraft(session: string, markdown: string)
      modifies this
      ensures State() == Next(old(State()), Do(AppendDraft(session, markdown)))
    {
      var existing := if session in inputDrafts then inputDrafts[session] else "";
      SetDrafts(inputDrafts[session := Appended(existing, markdown)]);
    }

    // ---- Uploads ----

    method SetUploadMap(uploads: map<string, seq<Upload>>)
      modifies this
      ensures State() == With(old(State()), WithUploads(old(Here(State())), uploads))
    {
      var pruned := map k | k in uploads && uploads[k] != [] :: Map(AsStored, uploads[k]);
      Write(Current().(uploads := if pruned == map[] then Missing else Value(pruned)));
      inputDraftAttachments := uploads;
    }

    method SetInputDraftAttachments(session: string, uploads: seq<Upload>)
      modifies this
      ensures State() == Next(old(State()), Do(Action.SetUploads(session, uploads)))
    {
      var next := inputDraftAttachments;
      if |uploads| > 0 {
        next := next[session := uploads];
      } else {
        next := next - {session};
      }
      SetUploadMap(next);
    }

    method AddInputDraftAttachment(session: string, attachment: Attachment)
      modifies this
      ensures State() == Next(old(State()), Do(AddAttachment(session, attachment)))
    {
      Unchanged();
      if attachment.id == "" {
        return;
      }
      var existing := At(inputDraftAttachments, session);
      var next := if HoldsAttachment(existing, attachment.id) then Replace(existing, attachment) else existing + [ToUpload(attachment)];
      SetUploadMap(inputDraftAttachments[session := next]);
    }

    method AddInputDraftUpload(session: string, upload: Upload)
      modifies this
      ensures State() == Next(old(State()), Do(AddUpload(session, upload)))
    {
      Unchanged();
      var existing := At(inputDraftAttachments, session);
      if Holds(existing, upload.clientUploadId) {
        return;
      }
      SetUploadMap(inputDraftAttachments[session := existing + [upload]]);
    }

    method SettleInputDraftUpload(session: string, uploadId: string, attachment: Attachment)
      modifies this
      ensures State() == Next(old(State()), Do(SettleUpload(session, uploadId, attachment)))
    {
      Unchanged();
      var existing := At(inputDraftAttachments, session);
      if !Holds(existing, uploadId) {
        return;
      }
      SetUploadMap(inputDraftAttachments[session := Settle(existing, uploadId, attachment)]);
    }

    method FailInputDraftUpload(session: string, uploadId: string, error: Option<string>)
      modifies this
      ensures State() == Next(old(State()), Do(FailUpload(session, uploadId, error)))
    {
      Unchanged();
      var existing := At(inputDraftAttachments, session);
      var target := Target(existing, uploadId);
      if target.None? {
        return;
      }
      SetUploadMap(inputDraftAttachments[session := Fail(existing, uploadId, target.value, error)]);
    }

    method RemoveInputDraftUpload(session: string, uploadId: string)
      modifies this
      ensures State() == Next(old(State()), Do(RemoveUpload(session, uploadId)))
    {
      Unchanged();
      var existing := At(inputDraftAttachments, session);
      if !Holds(existing, uploadId) {
        return;
      }
      var remaining := Filter(OtherUpload(uploadId), existing);
      var next := inputDraftAttachments;
      if |remaining| > 0 {
        next := next[session := remaining];
      } else {
        next := next - {session};
      }
      SetUploadMap(next);
    }

    method ClearInputDraft(session: string)
      modifies this
      ensures State() == Next(old(State()), Do(ClearDraft(session)))
    {
      Unchanged();
      if session !in inputDrafts && session !in inputDraftAttachments {
        return;
      }
      ghost var before := Current();
      SetDrafts(inputDrafts - {session});
      StowLaws(old(disk), Place(slug), Current(), before);
      StowLaws(old(disk), Place(slug), Current(), Current().(uploads := UploadsBlob(inputDraftAttachments - {session})));
      SetUploadMap(inputDraftAttachments - {session});
    }
  }
}
