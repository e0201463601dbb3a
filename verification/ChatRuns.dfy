/** What every run of the chat store keeps: memory and storage in step, workspaces apart, queues and ledger intact. */
module ChatRuns {
  import opened Wrappers
  import opened Sequences
  import opened DraftUploads
  import opened ChatState

  // ---- Memory and storage in step ----

  // The slices, as a reload would see them, are what is stored.
  ghost predicate InStep(l: Local) {
    && NonEmpty(l.memory.session) == NonEmpty(l.shelf.session)
    && l.memory.agent == l.shelf.agent
    && NonEmpty(l.memory.project) == NonEmpty(l.shelf.project)
    && PruneDrafts(l.memory.drafts) == PruneDrafts(Drafts(l.shelf.drafts))
    && SettledUploads(l.memory.uploads) == Uploads(l.shelf.uploads)
    && l.memory.applied == Applied(l.shelf.applied)
    && FilledQueues(l.memory.restores) == Restores(l.shelf.restores)
  }

  lemma DraftsStored(drafts: map<string, string>)
    ensures PruneDrafts(Drafts(DraftsBlob(drafts))) == PruneDrafts(drafts)
  {
    if PruneDrafts(drafts) == map[] {
      assert PruneDrafts(map[]) == map[];
    }
  }

  lemma UploadsStored(uploads: map<string, seq<Upload>>)
    ensures Uploads(UploadsBlob(uploads)) == SettledUploads(uploads)
  {
    var stored := Stored(uploads);
    assert LoadUploads(stored) == SettledUploads(uploads) by {
      forall k | k in uploads && uploads[k] == [] ensures Settled(uploads[k]) == [] {
      }
    }
    if stored == map[] {
      assert LoadUploads(map[]) == map[];
    }
  }

  lemma RestoresStored(queues: map<string, seq<Restore>>)
    ensures Restores(RestoresBlob(queues)) == FilledQueues(queues)
  {
    assert FilledQueues(PruneQueues(queues)) == FilledQueues(queues);
    if PruneQueues(queues) == map[] {
      assert FilledQueues(map[]) == map[];
    }
  }

  lemma UploadsLoaded(raw: map<string, seq<Raw>>)
    ensures SettledUploads(LoadUploads(raw)) == LoadUploads(raw)
  {
    forall k | k in LoadUploads(raw) ensures Settled(LoadUploads(raw)[k]) == LoadUploads(raw)[k] {
      NormalizationIsStable(raw[k]);
    }
  }

  lemma RestoresLoaded(b: Blob<map<string, seq<Restore>>>)
    ensures FilledQueues(Restores(b)) == Restores(b)
  {
    var loaded := Restores(b);
    forall k | k in loaded ensures Map(Filled, loaded[k]) == loaded[k] {
      forall i | 0 <= i < |loaded[k]| ensures Filled(loaded[k][i]) == loaded[k][i] {
        assert b.value[k][i].(attachments := Some(b.value[k][i].attachments.GetOr([]))) == loaded[k][i];
      }
    }
  }

  lemma MigratedSettled(uploads: map<string, seq<Upload>>, agent: Option<string>)
    requires SettledUploads(uploads) == uploads
    ensures SettledUploads(Migrated(uploads, agent)) == Migrated(uploads, agent)
  {
    forall k | k in uploads ensures Settled(uploads[k]) == uploads[k] && uploads[k] != [] {
      assert k in SettledUploads(uploads);
    }
    assert Legacy(LegacySlot(agent));
  }

  /** After a load memory and storage are in step, whatever was stored. */
  lemma LoadInStep(l: Local)
    ensures InStep(Reloaded(l))
  {
    var drafts, uploads := Drafts(l.shelf.drafts), Uploads(l.shelf.uploads);
    DraftsStored(Migrated(drafts, l.shelf.agent));
    UploadsStored(Migrated(uploads, l.shelf.agent));
    if l.shelf.uploads.Value? {
      UploadsLoaded(l.shelf.uploads.value);
    } else {
      assert SettledUploads(map[]) == map[];
    }
    MigratedSettled(uploads, l.shelf.agent);
    RestoresLoaded(l.shelf.restores);
  }

  /** Every action keeps memory and storage in step. */
  lemma ActInStep(l: Local, a: Action)
    requires InStep(l)
    ensures InStep(Act(l, a))
  {
    var after := Act(l, a);
    DraftsStored(after.memory.drafts);
    UploadsStored(after.memory.uploads);
    RestoresStored(after.memory.restores);
  }

  ghost predicate Sync(w: World) {
    !w.pending ==> InStep(Here(w))
  }

  function Boot(disk: Disk): World {
    Next(World(disk, None, false, Load(EMPTY_SHELF)), Restart)
  }

  lemma HereAfter(w: World, l: Local)
    ensures Here(With(w, l)) == l
  {
    StowLaws(w.disk, Place(w.slug), l.shelf, l.shelf);
  }

  lemma NextInSync(w: World, e: Event)
    requires Sync(w)
    ensures Sync(Next(w, e))
  {
    match e
    case Do(a) =>
      HereAfter(w, Act(Here(w), a));
      if !w.pending {
        ActInStep(Here(w), a);
      }
    case Switch(_) =>
    case Rehydrate =>
      HereAfter(w.(pending := false), Reloaded(Here(w)));
      LoadInStep(Here(w));
    case Restart =>
      var bare := w.(slug := None, pending := false);
      HereAfter(bare, Reloaded(Here(bare)));
      LoadInStep(Here(bare));
  }

  /** Over every run of actions, reloads and switches: once no rehydration is pending, memory and storage are in step. */
  lemma {:induction false} RunInSync(disk: Disk, events: seq<Event>)
    ensures Sync(Run(Boot(disk), events))
  {
    if events == [] {
      NextInSync(World(disk, None, true, Load(EMPTY_SHELF)), Restart);
    } else {
      RunInSync(disk, events[..|events| - 1]);
      NextInSync(Run(Boot(disk), events[..|events| - 1]), events[|events| - 1]);
    }
  }

  lemma {:induction false} RunKeepsSync(w: World, events: seq<Event>)
    requires Sync(w)
    ensures Sync(Run(w, events))
  {
    if events != [] {
      RunKeepsSync(w, events[..|events| - 1]);
      NextInSync(Run(w, events[..|events| - 1]), events[|events| - 1]);
    }
  }

  lemma MigratedPrunes(drafts: map<string, string>, agent: Option<string>)
    ensures PruneDrafts(Migrated(drafts, agent)) == PruneDrafts(drafts) <==> !HasLegacy(PruneDrafts(drafts))
  {
    var pruned, after := PruneDrafts(drafts), PruneDrafts(Migrated(drafts, agent));
    assert Legacy(LegacySlot(agent)) && !Legacy(NEW_SESSION);
    if HasLegacy(pruned) {
      var k :| k in pruned && Legacy(k);
      assert k !in after;
    } else {
      assert forall k | k in drafts && Legacy(k) :: k !in pruned;
    }
  }

  lemma MigratedKeeps(uploads: map<string, seq<Upload>>, agent: Option<string>)
    ensures Migrated(uploads, agent) == uploads <==> !HasLegacy(uploads)
  {
    if HasLegacy(uploads) {
      var k :| k in uploads && Legacy(k);
      assert k !in Migrated(uploads, agent);
    }
  }

  /**
   Re-reading storage gives back memory, up to empty drafts, uploads in flight
   and missing attachment lists, exactly when memory holds no draft or uploads
   under a name of the legacy form.
   */
  lemma ReloadGivesMemory(l: Local)
    requires InStep(l)
    ensures NonEmpty(Load(l.shelf).session) == NonEmpty(l.memory.session) && Load(l.shelf).agent == l.memory.agent
    ensures NonEmpty(Load(l.shelf).project) == NonEmpty(l.memory.project)
    ensures Load(l.shelf).applied == l.memory.applied && Load(l.shelf).restores == FilledQueues(l.memory.restores)
    ensures PruneDrafts(Load(l.shelf).drafts) == PruneDrafts(l.memory.drafts) <==> !HasLegacy(PruneDrafts(l.memory.drafts))
    ensures Load(l.shelf).uploads == SettledUploads(l.memory.uploads) <==> !HasLegacy(SettledUploads(l.memory.uploads))
  {
    MigratedPrunes(Drafts(l.shelf.drafts), l.shelf.agent);
    MigratedKeeps(Uploads(l.shelf.uploads), l.shelf.agent);
  }

  // ---- Sessions apart, uploads in place ----

  // The session whose slots the action is about.
  function About(a: Action): Option<string> {
    match a
    case Enqueue(r) => Some(r.sessionId)
    case Dequeue(session, _) => Some(session)
    case SetDraft(session, _) => Some(session)
    case AppendDraft(session, _) => Some(session)
    case SetUploads(session, _) => Some(session)
    case AddAttachment(session, _) => Some(session)
    case AddUpload(session, _) => Some(session)
    case SettleUpload(session, _, _) => Some(session)
    case FailUpload(session, _, _) => Some(session)
    case RemoveUpload(session, _) => Some(session)
    case ClearDraft(session) => Some(session)
    case _ => None
  }

  lemma DraftsApart(l: Local, a: Action, session: string)
    requires About(a) != Some(session)
    ensures session in Act(l, a).memory.drafts <==> session in l.memory.drafts
    ensures session in l.memory.drafts ==> Act(l, a).memory.drafts[session] == l.memory.drafts[session]
  {
  }

  lemma UploadsApart(l: Local, a: Action, session: string)
    requires About(a) != Some(session)
    ensures At(Act(l, a).memory.uploads, session) == At(l.memory.uploads, session)
  {
  }

  lemma QueuesApart(l: Local, a: Action, session: string)
    requires About(a) != Some(session)
    ensures At(Act(l, a).memory.restores, session) == At(l.memory.restores, session)
  {
  }

  /** An action about one session leaves the draft, the uploads and the queue of every other session alone. */
  lemma SessionsApart(l: Local, a: Action, session: string)
    requires About(a) != Some(session)
    ensures session in Act(l, a).memory.drafts <==> session in l.memory.drafts
    ensures session in l.memory.drafts ==> Act(l, a).memory.drafts[session] == l.memory.drafts[session]
    ensures At(Act(l, a).memory.uploads, session) == At(l.memory.uploads, session)
    ensures At(Act(l, a).memory.restores, session) == At(l.memory.restores, session)
  {
    DraftsApart(l, a, session);
    UploadsApart(l, a, session);
    QueuesApart(l, a, session);
  }

  /** Settling gives the placeholders with this id the completed attachment, in place; all other uploads stay. */
  lemma SettlesInPlace(l: Local, session: string, id: string, att: Attachment, i: nat)
    requires i < |At(l.memory.uploads, session)|
    ensures var before, after := At(l.memory.uploads, session), At(Act(l, SettleUpload(session, id, att)).memory.uploads, session);
            && |after| == |before| && after[i].clientUploadId == before[i].clientUploadId
            && if before[i].clientUploadId == id then after[i].Uploaded? && after[i].attachment.id == att.id else after[i] == before[i]
  {
    if !Holds(At(l.memory.uploads, session), id) {
      assert At(l.memory.uploads, session)[i] in At(l.memory.uploads, session);
    }
  }

  predicate DistinctUploads(us: seq<Upload>) {
    NoDup(Map(UploadId, us))
  }

  function UploadId(u: Upload): string {
    u.clientUploadId
  }

  lemma IdsAppend(us: seq<Upload>, u: Upload)
    ensures Map(UploadId, us + [u]) == Map(UploadId, us) + [u.clientUploadId]
    ensures DistinctUploads(us + [u]) <==> DistinctUploads(us) && u.clientUploadId !in Map(UploadId, us)
  {
    assert Map(UploadId, us + [u]) == Map(UploadId, us) + [u.clientUploadId];
    NoDupOne(Map(UploadId, us), u.clientUploadId);
  }

  lemma FilterAppend(us: seq<Upload>, u: Upload, id: string)
    ensures Filter(OtherUpload(id), us + [u])
         == if u.clientUploadId == id then Filter(OtherUpload(id), us) else Filter(OtherUpload(id), us) + [u]
  {
    assert (us + [u])[..|us|] == us;
  }

  lemma {:induction false} FilterKeepsDistinct(us: seq<Upload>, id: string)
    requires DistinctUploads(us)
    ensures DistinctUploads(Filter(OtherUpload(id), us))
    ensures forall x | x in Map(UploadId, Filter(OtherUpload(id), us)) :: x in Map(UploadId, us)
  {
    if us != [] {
      var init, last := us[..|us| - 1], us[|us| - 1];
      assert us == init + [last];
      IdsAppend(init, last);
      FilterKeepsDistinct(init, id);
      FilterAppend(init, last, id);
      IdsAppend(Filter(OtherUpload(id), init), last);
    }
  }

  lemma HoldsById(us: seq<Upload>, id: string)
    ensures Holds(us, id) <==> id in Map(UploadId, us)
  {
    if Holds(us, id) {
      var u :| u in us && u.clientUploadId == id;
      var i :| 0 <= i < |us| && us[i] == u;
      assert Map(UploadId, us)[i] == id;
    }
    if id in Map(UploadId, us) {
      var i :| 0 <= i < |us| && Map(UploadId, us)[i] == id;
      assert us[i] in us;
    }
  }

  lemma AppendKeepsDistinct(us: seq<Upload>, u: Upload)
    requires DistinctUploads(us) && !Holds(us, u.clientUploadId)
    ensures DistinctUploads(us + [u])
  {
    IdsAppend(us, u);
    HoldsById(us, u.clientUploadId);
  }

  lemma ReplacingKeepsIds(us: seq<Upload>, id: string, att: Attachment, target: Upload, error: Option<string>)
    ensures Map(UploadId, Settle(us, id, att)) == Map(UploadId, us)
    ensures Map(UploadId, Fail(us, id, target, error)) == Map(UploadId, us)
  {
  }

  function SlotOf(l: Local, session: string): seq<Upload> {
    At(l.memory.uploads, session)
  }

  lemma AddedStayDistinct(l: Local, s: string, u: Upload)
    requires DistinctUploads(SlotOf(l, s))
    ensures DistinctUploads(SlotOf(Act(l, AddUpload(s, u)), s))
  {
    if !Holds(SlotOf(l, s), u.clientUploadId) {
      AppendKeepsDistinct(SlotOf(l, s), u);
    }
  }

  lemma SettledStayDistinct(l: Local, s: string, id: string, att: Attachment)
    requires DistinctUploads(SlotOf(l, s))
    ensures DistinctUploads(SlotOf(Act(l, SettleUpload(s, id, att)), s))
  {
    ReplacingKeepsIds(SlotOf(l, s), id, att, ToUpload(att), None);
  }

  lemma FailedStayDistinct(l: Local, s: string, id: string, error: Option<string>)
    requires DistinctUploads(SlotOf(l, s))
    ensures DistinctUploads(SlotOf(Act(l, FailUpload(s, id, error)), s))
  {
    var target := Target(SlotOf(l, s), id);
    if target.Some? {
      ReplacingKeepsIds(SlotOf(l, s), id, Attachment("", "", "", "", 0, ""), target.value, error);
    }
  }

  lemma RemovedStayDistinct(l: Local, s: string, id: string)
    requires DistinctUploads(SlotOf(l, s))
    ensures DistinctUploads(SlotOf(Act(l, RemoveUpload(s, id)), s))
  {
    FilterKeepsDistinct(SlotOf(l, s), id);
  }

  /** Adding, settling, failing and removing placeholders never gives a slot two uploads with one client id. */
  lemma PlaceholdersStayDistinct(l: Local, a: Action, session: string)
    requires a.AddUpload? || a.SettleUpload? || a.FailUpload? || a.RemoveUpload?
    requires DistinctUploads(SlotOf(l, session))
    ensures DistinctUploads(SlotOf(Act(l, a), session))
  {
    if About(a) != Some(session) {
      SessionsApart(l, a, session);
    } else {
      match a
      case AddUpload(_, u) => AddedStayDistinct(l, session, u);
      case SettleUpload(_, id, att) => SettledStayDistinct(l, session, id, att);
      case FailUpload(_, id, error) => FailedStayDistinct(l, session, id, error);
      case RemoveUpload(_, id) => RemovedStayDistinct(l, session, id);
    }
  }

  // ---- The legacy slots ----

  // Where the new-chat draft comes from after folding.
  datatype Origin = Nothing | Unified | Adopted

  function OriginOf<T>(slots: map<string, T>, agent: Option<string>): Origin {
    if NEW_SESSION in slots then Unified else if LegacySlot(agent) in slots then Adopted else Nothing
  }

  /** Folding keeps every other slot, drops the legacy ones, and fills the new-chat slot from where it should. */
  lemma FoldingIsExact<T>(slots: map<string, T>, agent: Option<string>, key: string)
    ensures key in Migrated(slots, agent) <==>
            !Legacy(key) && (key in slots || (key == NEW_SESSION && LegacySlot(agent) in slots))
    ensures key in Migrated(slots, agent) && key != NEW_SESSION ==> Migrated(slots, agent)[key] == slots[key]
    ensures NEW_SESSION in Migrated(slots, agent) <==> OriginOf(slots, agent) != Nothing
    ensures OriginOf(slots, agent) == Unified ==> Migrated(slots, agent)[NEW_SESSION] == slots[NEW_SESSION]
    ensures OriginOf(slots, agent) == Adopted ==> Migrated(slots, agent)[NEW_SESSION] == slots[LegacySlot(agent)]
    ensures Migrated(Migrated(slots, agent), agent) == Migrated(slots, agent)
  {
    assert Legacy(LegacySlot(agent)) && !Legacy(NEW_SESSION);
  }

  /**
   Text and files of the new chat come from different drafts exactly when one
   map already has the unified slot, the other does not, and the agent's legacy
   slot is in that other one.
   */
  lemma TextAndFilesMixedExactly(drafts: map<string, string>, uploads: map<string, seq<Upload>>, agent: Option<string>)
    ensures NEW_SESSION in Migrated(drafts, agent) && NEW_SESSION in Migrated(uploads, agent)
            && OriginOf(drafts, agent) != OriginOf(uploads, agent) <==>
            || (NEW_SESSION in drafts && NEW_SESSION !in uploads && LegacySlot(agent) in uploads)
            || (NEW_SESSION in uploads && NEW_SESSION !in drafts && LegacySlot(agent) in drafts)
  {
    FoldingIsExact(drafts, agent, NEW_SESSION);
    FoldingIsExact(uploads, agent, NEW_SESSION);
  }
}
