/** What each action and event of the chat store leaves, field by field, and what loading brings back. */
module ChatEffects {
  import opened Wrappers
  import opened Sequences
  import opened Text
  import opened DraftUploads
  import opened ChatState
  import opened ChatRuns
  import opened ChatQueues

  // ---- Loading ----

  // Everything of a stored restore comes back; a list of attachments that is not there as an empty one.
  ghost predicate SameRestore(stored: Restore, loaded: Restore) {
    && loaded.id == stored.id && loaded.content == stored.content && loaded.sessionId == stored.sessionId
    && loaded.attachments == (if stored.attachments.Some? then stored.attachments else Some([]))
  }

  ghost predicate SameRestores(stored: seq<Restore>, loaded: seq<Restore>) {
    |loaded| == |stored| && forall i :: 0 <= i < |stored| ==> SameRestore(stored[i], loaded[i])
  }

  /** Loading keeps each stored queue that is not empty, entry by entry, and nothing else. */
  lemma QueuesComeBack(s: Shelf, session: string)
    ensures var m := Load(s).restores;
            if s.restores.Value? && session in s.restores.value && s.restores.value[session] != [] then
              session in m && SameRestores(s.restores.value[session], m[session])
            else session !in m
  {
  }

  /** Loading takes over the ledger and the selections as they are stored. */
  lemma SelectionsComeBack(s: Shelf)
    ensures Load(s).applied == (if s.applied.Value? then s.applied.value else [])
    ensures Load(s).session == s.session && Load(s).agent == s.agent && Load(s).project == s.project
  {
  }

  // What loads of a stored list of uploads: everything but uploads in flight and junk.
  ghost predicate Loads(item: Raw) {
    item.Bare? || (item.Entry? && !(item.upload.Pending? && item.upload.status == Uploading))
  }

  // A completed upload of this attachment: under its id, or its address without one, and without its download address.
  ghost predicate Completes(a: Attachment, u: Upload) {
    && u.Uploaded? && u.clientUploadId == (if a.id != "" then a.id else a.url)
    && u.filename == a.filename && u.size == a.size_bytes
    && u.contentType == (if a.content_type == "" then None else Some(a.content_type))
    && u.attachment == Attachment(a.id, a.filename, a.url, "", a.size_bytes, a.content_type)
  }

  ghost predicate LoadsAs(item: Raw, u: Upload) {
    match item
    case Entry(stored) => u == stored
    case Bare(a) => Completes(a, u)
    case Junk => false
  }

  /** A stored list of uploads loads in order, without uploads in flight and junk; attachments by themselves become completed uploads. */
  lemma {:induction false} UploadsComeBack(raw: seq<Raw>) returns (at: seq<nat>)
    ensures Read(raw, Normalized(raw), at, Loads, LoadsAs)
  {
    at := [];
    if raw != [] {
      var n := |raw| - 1;
      at := UploadsComeBack(raw[..n]);
      LastApart(raw);
      var out, x := Normalized(raw[..n]), raw[n];
      if Loads(x) {
        var u := Loaded(x)[0];
        assert Loaded(x) == [u];
        ReadAppend(raw[..n], out, at, Loads, LoadsAs, x, u);
        at := at + [n];
      } else {
        assert Loaded(x) == [] && out + [] == out;
        ReadAppend(raw[..n], out, at, Loads, LoadsAs, x, Uploaded("", "", 0, None, Attachment("", "", "", "", 0, "")));
      }
    }
  }

  /** The uploads of a session load from its stored list; without any left the session has none. */
  lemma UploadSlotsComeBack(b: Blob<map<string, seq<Raw>>>, session: string) returns (out: seq<Upload>, at: seq<nat>)
    ensures Read(if b.Value? && session in b.value then b.value[session] else [], out, at, Loads, LoadsAs)
    ensures if out == [] then session !in Uploads(b) else session in Uploads(b) && Uploads(b)[session] == out
  {
    var raw := if b.Value? && session in b.value then b.value[session] else [];
    out := Normalized(raw);
    at := UploadsComeBack(raw);
  }

  /**
   Folding: a legacy slot is one whose name begins with __new__: and none of them
   stays. The new chat's slot stays or, when there is none, is taken over from
   the selected agent's legacy slot; all others stay.
   */
  lemma SlotsComeBack<T>(slots: map<string, T>, agent: Option<string>, key: string)
    ensures var m, legacy := Migrated(slots, agent), "__new__:" + (if agent.Some? then agent.value else "");
            && ("__new__:" <= key ==> key !in m)
            && (!("__new__:" <= key) && key in slots ==> key in m && m[key] == slots[key])
            && (!("__new__:" <= key) && key !in slots ==>
                  if key == "__new__" && legacy in slots then key in m && m[key] == slots[legacy] else key !in m)
  {
    FoldingIsExact(slots, agent, key);
    assert !("__new__:" <= "__new__");
  }

  // ---- Storing ----

  // Drafts are stored unless they are empty; without any the key is removed.
  ghost predicate DraftsAreStored(drafts: map<string, string>, b: Blob<map<string, string>>) {
    if forall k | k in drafts :: drafts[k] == "" then b == Missing
    else b.Value? && forall k :: if k in drafts && drafts[k] != "" then k in b.value && b.value[k] == drafts[k] else k !in b.value
  }

  ghost predicate ListsAreStored<T, U>(slots: map<string, seq<T>>, b: Blob<map<string, seq<U>>>, same: (T, U) -> bool) {
    if forall k | k in slots :: slots[k] == [] then b == Missing
    else b.Value?
         && forall k :: if k in slots && slots[k] != [] then k in b.value && SameLists(slots[k], b.value[k], same) else k !in b.value
  }

  ghost predicate SameLists<T, U>(a: seq<T>, b: seq<U>, same: (T, U) -> bool) {
    |a| == |b| && forall i :: 0 <= i < |a| ==> same(a[i], b[i])
  }

  ghost predicate StoredUpload(u: Upload, r: Raw) {
    r == Entry(u)
  }

  ghost predicate StoredRestore(a: Restore, b: Restore) {
    a == b
  }

  lemma DraftsBlobStores(drafts: map<string, string>)
    ensures DraftsAreStored(drafts, DraftsBlob(drafts))
  {
    if k :| k in drafts && drafts[k] != "" {
      assert k in PruneDrafts(drafts);
    } else {
      assert PruneDrafts(drafts) == map[];
    }
  }

  lemma UploadsBlobStores(uploads: map<string, seq<Upload>>)
    ensures ListsAreStored(uploads, UploadsBlob(uploads), StoredUpload)
  {
    if k :| k in uploads && uploads[k] != [] {
      assert k in Stored(uploads);
    } else {
      assert Stored(uploads) == map[];
    }
  }

  lemma RestoresBlobStores(queues: map<string, seq<Restore>>)
    ensures ListsAreStored(queues, RestoresBlob(queues), StoredRestore)
  {
    if k :| k in queues && queues[k] != [] {
      assert k in PruneQueues(queues);
    } else {
      assert PruneQueues(queues) == map[];
    }
  }

  // Only the drafts change, in memory and in storage; likewise below.
  ghost predicate LeavesDrafts(l: Local, r: Local, drafts: map<string, string>) {
    && r.memory == l.memory.(drafts := drafts) && r.shelf == l.shelf.(drafts := r.shelf.drafts)
    && DraftsAreStored(drafts, r.shelf.drafts)
  }

  ghost predicate LeavesUploads(l: Local, r: Local, uploads: map<string, seq<Upload>>) {
    && r.memory == l.memory.(uploads := uploads) && r.shelf == l.shelf.(uploads := r.shelf.uploads)
    && ListsAreStored(uploads, r.shelf.uploads, StoredUpload)
  }

  ghost predicate LeavesQueues(l: Local, r: Local, queues: map<string, seq<Restore>>) {
    && r.memory == l.memory.(restores := queues) && r.shelf == l.shelf.(restores := r.shelf.restores)
    && ListsAreStored(queues, r.shelf.restores, StoredRestore)
  }

  ghost predicate LeavesLedger(l: Local, r: Local, ids: seq<string>) {
    && r.memory == l.memory.(applied := ids)
    && r.shelf == l.shelf.(applied := if ids == [] then Missing else Value(ids))
  }

  // ---- Selections and the ledger ----

  // What is stored of a selection: nothing without one, and nothing for the empty one.
  ghost predicate SelectionStored(id: Option<string>, stored: Option<string>) {
    if id == None || id == Some("") then stored == None else stored == id
  }

  lemma SelectionsLeave(l: Local, id: Option<string>, agent: string)
    ensures var r := Act(l, SetActiveSession(id));
            r.memory == l.memory.(session := id) && r.shelf == l.shelf.(session := r.shelf.session) && SelectionStored(id, r.shelf.session)
    ensures var r := Act(l, SetSelectedProject(id));
            r.memory == l.memory.(project := id) && r.shelf == l.shelf.(project := r.shelf.project) && SelectionStored(id, r.shelf.project)
    ensures Act(l, SetSelectedAgent(agent)) == Local(l.memory.(agent := Some(agent)), l.shelf.(agent := Some(agent)))
  {
  }

  lemma {:induction false} FilterInOrder<T>(keep: T -> bool, q: seq<T>) returns (at: seq<nat>)
    ensures Thinned(q, Filter(keep, q), at)
    ensures forall j :: 0 <= j < |q| ==> (j in at <==> keep(q[j]))
  {
    at := [];
    if q != [] {
      var n := |q| - 1;
      at := FilterInOrder(keep, q[..n]);
      LastApart(q);
      ThinnedAppend(q[..n], Filter(keep, q[..n]), at, q[n]);
      RisingAppend(at, n);
      if keep(q[n]) {
        at := at + [n];
      }
    }
  }

  /** Marking puts a new id at the end of the ledger; forgetting takes out an id and keeps the order of the others. */
  lemma LedgerLeaves(l: Local, id: string) returns (rest: seq<string>, at: seq<nat>)
    ensures if id in l.memory.applied then Act(l, MarkApplied(id)) == l
            else LeavesLedger(l, Act(l, MarkApplied(id)), l.memory.applied + [id])
    ensures Thinned(l.memory.applied, rest, at) && forall j :: 0 <= j < |l.memory.applied| ==> (j in at <==> l.memory.applied[j] != id)
    ensures if id !in l.memory.applied then Act(l, ForgetApplied(id)) == l else LeavesLedger(l, Act(l, ForgetApplied(id)), rest)
  {
    rest := Filter(Other(id), l.memory.applied);
    at := FilterInOrder(Other(id), l.memory.applied);
  }

  // ---- Queues ----

  function SlotAt<T>(slots: map<string, seq<T>>, key: string): seq<T> {
    if key in slots then slots[key] else []
  }

  /** A restore with an address and a new id goes to the end of its session's queue. */
  lemma EnqueueLeaves(l: Local, r: Restore)
    ensures var q, after := SlotAt(l.memory.restores, r.sessionId), Act(l, Enqueue(r));
            if r.sessionId == "" || r.id == "" || exists x :: x in q && x.id == r.id then after == l
            else LeavesQueues(l, after, l.memory.restores[r.sessionId := q + [r]])
  {
    RestoresBlobStores(Act(l, Enqueue(r)).memory.restores);
  }

  /** Dequeueing takes the restores with the id out of the queue; an empty queue leaves no entry. */
  lemma DequeueLeaves(l: Local, session: string, id: string) returns (rest: seq<Restore>, at: seq<nat>)
    ensures var q := SlotAt(l.memory.restores, session);
            Thinned(q, rest, at) && forall j :: 0 <= j < |q| ==> (j in at <==> q[j].id != id)
    ensures var q, after := SlotAt(l.memory.restores, session), Act(l, Dequeue(session, id));
            if forall x | x in q :: x.id != id then after == l
            else LeavesQueues(l, after, if rest == [] then l.memory.restores - {session} else l.memory.restores[session := rest])
  {
    var q := SlotAt(l.memory.restores, session);
    rest := Filter(OtherRestore(id), q);
    at := FilterInOrder(OtherRestore(id), q);
    RestoresBlobStores(Act(l, Dequeue(session, id)).memory.restores);
  }

  // ---- Drafts ----

  lemma SetDraftLeaves(l: Local, session: string, text: string)
    ensures LeavesDrafts(l, Act(l, SetDraft(session, text)), l.memory.drafts[session := text])
  {
    DraftsBlobStores(l.memory.drafts[session := text]);
  }

  lemma {:induction false} TrimEndSplits(s: string) returns (blank: string)
    ensures s == TrimEnd(s) + blank && forall c | c in blank :: c in BLANKS
    ensures TrimEnd(s) == "" || TrimEnd(s)[|TrimEnd(s)| - 1] !in BLANKS
  {
    blank := "";
    if s != "" {
      var c := s[|s| - 1];
      BlanksAreWhitespace(c);
      if Whitespace(c) {
        blank := TrimEndSplits(s[..|s| - 1]);
        LastApart(s);
        ConcatAssoc(TrimEnd(s), blank, [c]);
        blank := blank + [c];
      }
    }
  }

  /** Appended text follows what is there without the blanks at its end, after an empty line; a blank draft is replaced. */
  lemma AppendDraftLeaves(l: Local, session: string, text: string) returns (kept: string, blank: string)
    ensures (if session in l.memory.drafts then l.memory.drafts[session] else "") == kept + blank
    ensures (forall c | c in blank :: c in BLANKS) && (kept == "" || kept[|kept| - 1] !in BLANKS)
    ensures LeavesDrafts(l, Act(l, AppendDraft(session, text)),
                         l.memory.drafts[session := if kept == "" then text else kept + "\n\n" + text])
  {
    var before := if session in l.memory.drafts then l.memory.drafts[session] else "";
    kept := TrimEnd(before);
    blank := TrimEndSplits(before);
    DraftsBlobStores(Act(l, AppendDraft(session, text)).memory.drafts);
  }

  /** Clearing removes the text and the uploads of a draft together. */
  lemma ClearDraftLeaves(l: Local, session: string)
    ensures var after := Act(l, ClearDraft(session));
            if session !in l.memory.drafts && session !in l.memory.uploads then after == l
            else exists middle :: LeavesDrafts(l, middle, l.memory.drafts - {session})
                                  && LeavesUploads(middle, after, l.memory.uploads - {session})
  {
    var drafts, uploads := l.memory.drafts - {session}, l.memory.uploads - {session};
    DraftsBlobStores(drafts);
    UploadsBlobStores(uploads);
    assert LeavesDrafts(l, WithDrafts(l, drafts), drafts);
    assert LeavesUploads(WithDrafts(l, drafts), WithUploads(WithDrafts(l, drafts), uploads), uploads);
  }

  // ---- Uploads ----

  /** Setting uploads sets exactly the given list; an empty one leaves no entry. */
  lemma SetUploadsLeaves(l: Local, session: string, us: seq<Upload>)
    ensures LeavesUploads(l, Act(l, Action.SetUploads(session, us)),
                          if us == [] then l.memory.uploads - {session} else l.memory.uploads[session := us])
  {
    UploadsBlobStores(Act(l, Action.SetUploads(session, us)).memory.uploads);
  }

  // One slot changes, to a list of the same length.
  ghost predicate LeavesSlot(l: Local, r: Local, session: string, before: seq<Upload>, after: seq<Upload>) {
    LeavesUploads(l, r, l.memory.uploads[session := after]) && |after| == |before|
  }

  ghost predicate ShowsAttachment(u: Upload, id: string) {
    u.Uploaded? && u.attachment.id == id
  }

  /** An attachment that is there already is renewed where it stands; a new one is added at the end. */
  lemma AddAttachmentLeaves(l: Local, session: string, a: Attachment) returns (us: seq<Upload>)
    ensures a.id == "" ==> Act(l, AddAttachment(session, a)) == l
    ensures var before, after := SlotAt(l.memory.uploads, session), Act(l, AddAttachment(session, a));
            a.id != "" ==>
              && LeavesUploads(l, after, l.memory.uploads[session := us])
              && if exists u :: u in before && ShowsAttachment(u, a.id) then
                   |us| == |before|
                   && forall i :: 0 <= i < |us| ==> if ShowsAttachment(before[i], a.id) then Completes(a, us[i]) else us[i] == before[i]
                 else |us| == |before| + 1 && us[..|before|] == before && Completes(a, us[|before|])
  {
    var before := SlotAt(l.memory.uploads, session);
    us := if HoldsAttachment(before, a.id) then Replace(before, a) else before + [ToUpload(a)];
    UploadsBlobStores(Act(l, AddAttachment(session, a)).memory.uploads);
  }

  /** A placeholder with a new client id is added at the end. */
  lemma AddUploadLeaves(l: Local, session: string, u: Upload)
    ensures var before, after := SlotAt(l.memory.uploads, session), Act(l, AddUpload(session, u));
            if exists x :: x in before && x.clientUploadId == u.clientUploadId then after == l
            else LeavesUploads(l, after, l.memory.uploads[session := before + [u]])
  {
    UploadsBlobStores(Act(l, AddUpload(session, u)).memory.uploads);
  }

  /** Settling turns every upload with the id into the completed attachment, under that id; the others stay. */
  lemma SettleLeaves(l: Local, session: string, id: string, a: Attachment) returns (us: seq<Upload>)
    ensures var before, after := SlotAt(l.memory.uploads, session), Act(l, SettleUpload(session, id, a));
            if forall x | x in before :: x.clientUploadId != id then after == l
            else
              && LeavesUploads(l, after, l.memory.uploads[session := us]) && |us| == |before|
              && forall i :: 0 <= i < |us| ==>
                   if before[i].clientUploadId == id then
                     us[i].clientUploadId == id && us[i].Uploaded?
                     && Completes(a, us[i].(clientUploadId := if a.id != "" then a.id else a.url))
                   else us[i] == before[i]
  {
    var before := SlotAt(l.memory.uploads, session);
    us := Settle(before, id, a);
    UploadsBlobStores(Act(l, SettleUpload(session, id, a)).memory.uploads);
  }

  lemma {:induction false} TargetIsFirst(us: seq<Upload>, id: string) returns (k: nat)
    ensures if Target(us, id).Some? then k < |us| && us[k].clientUploadId == id && Target(us, id).value == us[k] else k == |us|
    ensures forall j :: 0 <= j < k ==> us[j].clientUploadId != id
  {
    k := 0;
    if us != [] && us[0].clientUploadId != id {
      k := TargetIsFirst(us[1..], id);
      k := k + 1;
    }
  }

  /** Failing turns every upload with the id into a failed one with the file data of the first; the others stay. */
  lemma FailLeaves(l: Local, session: string, id: string, error: Option<string>) returns (us: seq<Upload>, k: nat)
    ensures var before, after := SlotAt(l.memory.uploads, session), Act(l, FailUpload(session, id, error));
            && (forall j :: 0 <= j < k && j < |before| ==> before[j].clientUploadId != id)
            && if k >= |before| then after == l
               else
                 && before[k].clientUploadId == id
                 && LeavesUploads(l, after, l.memory.uploads[session := us]) && |us| == |before|
                 && forall i :: 0 <= i < |us| ==>
                      us[i] == if before[i].clientUploadId == id
                               then Pending(id, before[k].filename, before[k].size, before[k].contentType, Failed, error)
                               else before[i]
  {
    var before := SlotAt(l.memory.uploads, session);
    k := TargetIsFirst(before, id);
    us := if k < |before| then Fail(before, id, before[k], error) else [];
    UploadsBlobStores(Act(l, FailUpload(session, id, error)).memory.uploads);
  }

  /** Removing takes the uploads with the id out of their slot; an empty slot leaves no entry. */
  lemma RemoveUploadLeaves(l: Local, session: string, id: string) returns (rest: seq<Upload>, at: seq<nat>)
    ensures var before := SlotAt(l.memory.uploads, session);
            Thinned(before, rest, at) && forall j :: 0 <= j < |before| ==> (j in at <==> before[j].clientUploadId != id)
    ensures var before, after := SlotAt(l.memory.uploads, session), Act(l, RemoveUpload(session, id));
            if forall x | x in before :: x.clientUploadId != id then after == l
            else LeavesUploads(l, after, if rest == [] then l.memory.uploads - {session} else l.memory.uploads[session := rest])
  {
    var before := SlotAt(l.memory.uploads, session);
    rest := Filter(OtherUpload(id), before);
    at := FilterInOrder(OtherUpload(id), before);
    UploadsBlobStores(Act(l, RemoveUpload(session, id)).memory.uploads);
  }
}
