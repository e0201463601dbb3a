/** The state of the persisted chat store, its storage per workspace, and what each event does to them. */
module ChatState {
  import opened Wrappers
  import opened Sequences
  import opened Text
  import opened DraftUploads

  const NEW_SESSION := "__new__"
  const LEGACY_PREFIX := "__new__:"

  datatype Restore = Restore(id: string, content: string, attachments: Option<seq<Attachment>>, sessionId: string)

  // One stored JSON value.
  datatype Blob<+T> = Missing | Corrupt | Value(value: T)

  // What storage holds for one workspace.
  datatype Shelf = Shelf(session: Option<string>, agent: Option<string>, project: Option<string>,
                         drafts: Blob<map<string, string>>, uploads: Blob<map<string, seq<Raw>>>,
                         applied: Blob<seq<string>>, restores: Blob<map<string, seq<Restore>>>)

  // The rehydrated slices in memory.
  datatype Memory = Memory(session: Option<string>, agent: Option<string>, project: Option<string>,
                           drafts: map<string, string>, uploads: map<string, seq<Upload>>,
                           applied: seq<string>, restores: map<string, seq<Restore>>)

  const EMPTY_SHELF := Shelf(None, None, None, Missing, Missing, Missing, Missing)

  // ---- Reading and writing ----

  function Drafts(b: Blob<map<string, string>>): map<string, string> {
    if b.Value? then b.value else map[]
  }

  function PruneDrafts(drafts: map<string, string>): map<string, string> {
    map k | k in drafts && drafts[k] != "" :: drafts[k]
  }

  function DraftsBlob(drafts: map<string, string>): Blob<map<string, string>> {
    if PruneDrafts(drafts) == map[] then Missing else Value(PruneDrafts(drafts))
  }

  function LoadUploads(raw: map<string, seq<Raw>>): map<string, seq<Upload>> {
    map k | k in raw && Normalized(raw[k]) != [] :: Normalized(raw[k])
  }

  function Uploads(b: Blob<map<string, seq<Raw>>>): map<string, seq<Upload>> {
    if b.Value? then LoadUploads(b.value) else map[]
  }

  function Stored(uploads: map<string, seq<Upload>>): map<string, seq<Raw>> {
    map k | k in uploads && uploads[k] != [] :: Map(AsStored, uploads[k])
  }

  function UploadsBlob(uploads: map<string, seq<Upload>>): Blob<map<string, seq<Raw>>> {
    if Stored(uploads) == map[] then Missing else Value(Stored(uploads))
  }

  // The uploads as they load once they have been stored.
  function SettledUploads(uploads: map<string, seq<Upload>>): map<string, seq<Upload>> {
    map k | k in uploads && Settled(uploads[k]) != [] :: Settled(uploads[k])
  }

  function Applied(b: Blob<seq<string>>): seq<string> {
    if b.Value? then b.value else []
  }

  function AppliedBlob(ids: seq<string>): Blob<seq<string>> {
    if ids == [] then Missing else Value(ids)
  }

  function Filled(r: Restore): Restore {
    r.(attachments := Some(r.attachments.GetOr([])))
  }

  function FilledQueues(queues: map<string, seq<Restore>>): map<string, seq<Restore>> {
    map k | k in queues && queues[k] != [] :: Map(Filled, queues[k])
  }

  function Restores(b: Blob<map<string, seq<Restore>>>): map<string, seq<Restore>> {
    if b.Value? then FilledQueues(b.value) else map[]
  }

  function PruneQueues(queues: map<string, seq<Restore>>): map<string, seq<Restore>> {
    map k | k in queues && queues[k] != [] :: queues[k]
  }

  function RestoresBlob(queues: map<string, seq<Restore>>): Blob<map<string, seq<Restore>>> {
    if PruneQueues(queues) == map[] then Missing else Value(PruneQueues(queues))
  }

  function NonEmpty(id: Option<string>): Option<string> {
    if id == Some("") then None else id
  }

  // ---- Folding legacy slots ----

  predicate Legacy(key: string) {
    LEGACY_PREFIX <= key
  }

  predicate HasLegacy<T>(slots: map<string, T>) {
    exists k :: k in slots && Legacy(k)
  }

  function LegacySlot(agent: Option<string>): string {
    LEGACY_PREFIX + agent.GetOr("")
  }

  function Migrated<T>(slots: map<string, T>, agent: Option<string>): map<string, T> {
    if !HasLegacy(slots) then slots
    else
      var next :=
        if NEW_SESSION !in slots && LegacySlot(agent) in slots then slots[NEW_SESSION := slots[LegacySlot(agent)]] else slots;
      map k | k in next && !Legacy(k) :: next[k]
  }

  // ---- Loading ----

  // What a workspace's storage becomes by being loaded.
  function Folded(s: Shelf): Shelf {
    var drafts, uploads := Drafts(s.drafts), Uploads(s.uploads);
    s.(drafts := if HasLegacy(drafts) then DraftsBlob(Migrated(drafts, s.agent)) else s.drafts,
       uploads := if HasLegacy(uploads) then UploadsBlob(Migrated(uploads, s.agent)) else s.uploads)
  }

  function Load(s: Shelf): Memory {
    Memory(s.session, s.agent, s.project, Migrated(Drafts(s.drafts), s.agent), Migrated(Uploads(s.uploads), s.agent),
           Applied(s.applied), Restores(s.restores))
  }

  // ---- Actions ----

  datatype Action =
    | SetActiveSession(id: Option<string>)
    | SetSelectedAgent(agent: string)
    | SetSelectedProject(project: Option<string>)
    | MarkApplied(restoreId: string)
    | ForgetApplied(restoreId: string)
    | Enqueue(restore: Restore)
    | Dequeue(session: string, restoreId: string)
    | SetDraft(session: string, text: string)
    | AppendDraft(session: string, text: string)
    | SetUploads(session: string, uploads: seq<Upload>)
    | AddAttachment(session: string, attachment: Attachment)
    | AddUpload(session: string, upload: Upload)
    | SettleUpload(session: string, uploadId: string, attachment: Attachment)
    | FailUpload(session: string, uploadId: string, error: Option<string>)
    | RemoveUpload(session: string, uploadId: string)
    | ClearDraft(session: string)

  // The memory together with the storage of the workspace it is written to.
  datatype Local = Local(memory: Memory, shelf: Shelf)

  function WithDrafts(l: Local, drafts: map<string, string>): Local {
    Local(l.memory.(drafts := drafts), l.shelf.(drafts := DraftsBlob(drafts)))
  }

  function WithUploads(l: Local, uploads: map<string, seq<Upload>>): Local {
    Local(l.memory.(uploads := uploads), l.shelf.(uploads := UploadsBlob(uploads)))
  }

  function WithApplied(l: Local, ids: seq<string>): Local {
    Local(l.memory.(applied := ids), l.shelf.(applied := AppliedBlob(ids)))
  }

  function WithRestores(l: Local, queues: map<string, seq<Restore>>): Local {
    Local(l.memory.(restores := queues), l.shelf.(restores := RestoresBlob(queues)))
  }

  function At<T>(slots: map<string, seq<T>>, key: string): seq<T> {
    if key in slots then slots[key] else []
  }

  // The slot holding this list, absent when the list is empty.
  function Put<T>(slots: map<string, seq<T>>, key: string, q: seq<T>): map<string, seq<T>> {
    if q == [] then slots - {key} else slots[key := q]
  }

  function Filter<T>(keep: T -> bool, q: seq<T>): seq<T> {
    if q == [] then [] else Filter(keep, q[..|q| - 1]) + if keep(q[|q| - 1]) then [q[|q| - 1]] else []
  }

  function Other(id: string): string -> bool {
    (x: string) => x != id
  }

  function OtherRestore(id: string): Restore -> bool {
    (r: Restore) => r.id != id
  }

  function OtherUpload(id: string): Upload -> bool {
    (u: Upload) => u.clientUploadId != id
  }

  predicate Queued(q: seq<Restore>, id: string) {
    exists r :: r in q && r.id == id
  }

  predicate Holds(us: seq<Upload>, id: string) {
    exists u :: u in us && u.clientUploadId == id
  }

  predicate HoldsAttachment(us: seq<Upload>, id: string) {
    exists u :: u in us && u.Uploaded? && u.attachment.id == id
  }

  function Replace(us: seq<Upload>, a: Attachment): seq<Upload> {
    Map((u: Upload) => if u.Uploaded? && u.attachment.id == a.id then ToUpload(a) else u, us)
  }

  function Settle(us: seq<Upload>, id: string, a: Attachment): seq<Upload> {
    Map((u: Upload) => if u.clientUploadId == id then ToUpload(a).(clientUploadId := id) else u, us)
  }

  // The first upload with this id.
  function Target(us: seq<Upload>, id: string): Option<Upload> {
    if us == [] then None else if us[0].clientUploadId == id then Some(us[0]) else Target(us[1..], id)
  }

  function Fail(us: seq<Upload>, id: string, target: Upload, error: Option<string>): seq<Upload> {
    var failed := Pending(id, target.filename, target.size, target.contentType, Failed, error);
    Map((u: Upload) => if u.clientUploadId == id then failed else u, us)
  }

  function Appended(text: string, more: string): string {
    if TrimEnd(text) == "" then more else TrimEnd(text) + "\n\n" + more
  }

  function Act(l: Local, a: Action): Local {
    var m := l.memory;
    match a
    case SetActiveSession(id) => Local(m.(session := id), l.shelf.(session := NonEmpty(id)))
    case SetSelectedAgent(agent) => Local(m.(agent := Some(agent)), l.shelf.(agent := Some(agent)))
    case SetSelectedProject(project) => Local(m.(project := project), l.shelf.(project := NonEmpty(project)))
    case MarkApplied(id) => if id in m.applied then l else WithApplied(l, m.applied + [id])
    case ForgetApplied(id) => if id !in m.applied then l else WithApplied(l, Filter(Other(id), m.applied))
    case Enqueue(r) =>
      if r.sessionId == "" || r.id == "" || Queued(At(m.restores, r.sessionId), r.id) then l
      else WithRestores(l, m.restores[r.sessionId := At(m.restores, r.sessionId) + [r]])
    case Dequeue(session, id) =>
      if !Queued(At(m.restores, session), id) then l
      else WithRestores(l, Put(m.restores, session, Filter(OtherRestore(id), At(m.restores, session))))
    case SetDraft(session, text) => WithDrafts(l, m.drafts[session := text])
    case AppendDraft(session, text) =>
      WithDrafts(l, m.drafts[session := Appended(if session in m.drafts then m.drafts[session] else "", text)])
    case SetUploads(session, us) => WithUploads(l, Put(m.uploads, session, us))
    case AddAttachment(session, att) =>
      var us := At(m.uploads, session);
      if att.id == "" then l
      else WithUploads(l, m.uploads[session := if HoldsAttachment(us, att.id) then Replace(us, att) else us + [ToUpload(att)]])
    case AddUpload(session, u) =>
      if Holds(At(m.uploads, session), u.clientUploadId) then l
      else WithUploads(l, m.uploads[session := At(m.uploads, session) + [u]])
    case SettleUpload(session, id, att) =>
      if !Holds(At(m.uploads, session), id) then l
      else WithUploads(l, m.uploads[session := Settle(At(m.uploads, session), id, att)])
    case FailUpload(session, id, error) =>
      var target := Target(At(m.uploads, session), id);
      if target == None then l else WithUploads(l, m.uploads[session := Fail(At(m.uploads, session), id, target.value, error)])
    case RemoveUpload(session, id) =>
      if !Holds(At(m.uploads, session), id) then l
      else WithUploads(l, Put(m.uploads, session, Filter(OtherUpload(id), At(m.uploads, session))))
    case ClearDraft(session) =>
      if session !in m.drafts && session !in m.uploads then l
      else WithUploads(WithDrafts(l, m.drafts - {session}), m.uploads - {session})
  }

  // ---- The store between workspaces ----

  // Storage keeps no entry for a workspace without keys.
  type Disk = d: map<Option<string>, Shelf> | forall p | p in d :: d[p] != EMPTY_SHELF witness map[]

  // Storage, the current slug, whether rehydration is still to come, and the memory.
  datatype World = World(disk: Disk, slug: Option<string>, pending: bool, memory: Memory)

  datatype Event = Do(action: Action) | Switch(slug: Option<string>) | Rehydrate | Restart

  // An empty slug addresses the same bare keys as no slug.
  function Place(slug: Option<string>): Option<string> {
    NonEmpty(slug)
  }

  function ShelfAt(disk: Disk, place: Option<string>): Shelf {
    if place in disk then disk[place] else EMPTY_SHELF
  }

  function Stow(disk: Disk, place: Option<string>, shelf: Shelf): Disk {
    if shelf == EMPTY_SHELF then disk - {place} else disk[place := shelf]
  }

  lemma StowLaws(disk: Disk, place: Option<string>, shelf: Shelf, later: Shelf)
    ensures Stow(disk, place, ShelfAt(disk, place)) == disk
    ensures Stow(Stow(disk, place, shelf), place, later) == Stow(disk, place, later)
    ensures forall p :: ShelfAt(Stow(disk, place, shelf), p) == if p == place then shelf else ShelfAt(disk, p)
  {
    assert place !in disk ==> disk - {place} == disk;
  }

  function Here(w: World): Local {
    Local(w.memory, ShelfAt(w.disk, Place(w.slug)))
  }

  function With(w: World, l: Local): World {
    w.(memory := l.memory, disk := Stow(w.disk, Place(w.slug), l.shelf))
  }

  function Reloaded(l: Local): Local {
    Local(Load(l.shelf), Folded(l.shelf))
  }

  // A restart forgets the slug and reads the bare keys, until the workspace is set again.
  function Next(w: World, e: Event): World {
    match e
    case Do(a) => With(w, Act(Here(w), a))
    case Switch(slug) => if slug == w.slug then w else w.(slug := slug, pending := true)
    case Rehydrate => if w.pending then With(w.(pending := false), Reloaded(Here(w))) else w
    case Restart => var bare := w.(slug := None, pending := false); With(bare, Reloaded(Here(bare)))
  }

  function Run(w: World, events: seq<Event>): World {
    if events == [] then w else Next(Run(w, events[..|events| - 1]), events[|events| - 1])
  }
}
