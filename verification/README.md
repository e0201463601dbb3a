# Verified models of the CHIMII client logic

This project models, in Dafny, the parts of the CHIMII repository whose short code has a demanding specification, and proves that specification for all inputs:

- the LDraw catalogue compiler (`tools/ldraw-catalog/main.go`) and the reader of its line data on mobile (`apps/mobile/scripts/ldraw-lines.js`);
- the chat client's replicated state: the pending-task queue, the merge of task messages by sequence number, the flat and the paged message cache, and the store of drafts and restores that is persisted per workspace;
- the mobile timeline and inbox: reply threads, run-length coalescing, deduplication;
- the acceptance checks of circuits and builds: module connections, build steps, behaviour tables, parts evidence, assembly references, and the conversion of placements to bricks;
- the session fuse for exceptions, and the mention serialiser of the mobile composer.

## How the models are built

Code that computes a value by expressions or recursion is a function. Code that works step by step is a method with the source's loops, proved equal to a function of its inputs (or of the old state), and the properties are lemmas about that function. Objects that are updated in place are classes: `LDrawFlatten.Archive` and `LDrawFlatten.Output`, `GlbContainer.Buffer`, `MessageCache.QueryCache`, `ChatStore.Store`, `ExceptionFuse.Session`.

| module | models |
|---|---|
| `LDrawGeometry`, `LDrawSource`, `LDrawScene`, `LDrawFlatten` | transforms, names and rows of LDraw files, what a reference tree draws, and the depth-first expansion that computes it |
| `LDrawFields`, `LDrawDrawing` | what a row says field by field, and what is drawn for it: points, colours, triangles |
| `GlbBytes`, `GlbContainer`, `GlbMesh`, `GlbFaces`, `GlbAsset` | vertex indexing, the faces it shows, accessors and buffer views, and the binary container |
| `LDrawLines` | the line groups of an asset and the code that reads them |
| `PendingQueue`, `PendingMoves` | the pending-task queue: its invariants, and where each event puts its task |
| `SeqMerge`, `MergeShows`, `MessageCache` | the other chat caches fed by network events |
| `DraftUploads`, `ChatState`, `ChatStore` | the persisted chat store: its state and events, and the object that carries them out |
| `ChatEffects`, `ChatReturns` | what each action leaves and each load brings back, field by field |
| `ChatRuns`, `ChatWorkspaces`, `ChatQueues` | what every run of the store keeps: memory and storage in step, workspaces and sessions apart, queues and ledgers over time |
| `TimelineThread`, `ThreadReplies`, `BreadthFirst`, `TimelineSearch` | reply threads, and when a breadth-first search without a visited set ends |
| `TimelineCoalesce`, `CoalescedRuns`, `InboxDedup`, `InboxRows` | coalescing and inbox deduplication, and what each of their rows shows |
| `CircuitModules`, `CircuitNets`, `CircuitDocument`, `AssemblyReference`, `CircuitTerms` | the acceptance checks of circuits and assemblies, and their terms |
| `Bricks`, `BrickVerdicts` | placements as bricks, and the verdict on each placement |
| `ExceptionFuse`, `Mentions`, `MentionText` | the exception fuse and the mention serialiser |
| `Wrappers`, `Sequences`, `Sorting`, `Stability`, `Text` | missing values and errors, lists and their parts, stable sorting by a comparator, strings |

The properties are of two kinds. Some relate functions of the model to each other over all inputs and runs. Others (`LDrawFields`, `LDrawDrawing`, `GlbFaces`, `PendingMoves`, `MergeShows`, `ChatEffects`, `ChatReturns`, `ThreadReplies`, `CoalescedRuns`, `InboxRows`, `BrickVerdicts`, `MentionText`, `CircuitTerms`) say what the operations leave in plain fields, numbers and texts, without using the functions that compute it.

## What the proofs found

In these places the code does not do what its comments or its callers expect. The code is modelled as it is; the named lemmas show the failing inputs and say when the expectation does hold.

- A stray removal, or a prioritisation, that arrives while the pending queue has no head drops every queued row (`PendingQueue.StrayRemovalDropsQueue`); all other events for unknown tasks change nothing (`PendingQueue.UnknownChangesNothing`).
- A queued send that arrives while there is no head replaces the queue, and can replace a row that carries its message by one that does not (`PendingQueue.SparseNoticeStripsRow`); no other event does that (`PendingQueue.RichRowStays`).
- The append fast path of the message merge agrees with sorting exactly when the cached list is in order (`SeqMerge.AppendAgreesExactly`).
- Merging a message into every page changes more than merging it into the flat list unless only the oldest copy has something to fill (`MessageCache.PageMergeExactly`), and one row on two pages shows it (`MessageCache.RepeatedRowFillsTwice`).
- A workspace switch changes the slug at once but rehydrates the chat store in a later microtask. An action in between writes memory of the workspace just left under the one just entered: setting a draft stores the old workspace's other drafts there (`ChatWorkspaces.DraftsLeakBeforeRehydration`), marking an id wipes out the entered ledger's own ids (`ChatQueues.MarkLosesLedger`), and enqueueing a restore empties the entered workspace's queues of other sessions (`ChatQueues.EnqueueLosesQueues`). Exactly selections, and actions that their own arguments stop, are harmless whatever memory holds (`ChatWorkspaces.BlindExactly`); for given contents `ChatWorkspaces.DraftRefinesExactly`, `ChatWorkspaces.OtherUploadsStayExactly`, `ChatQueues.QueueRefines` and `ChatQueues.LedgerRefines` say exactly when an action does what it means.
- `loadDraftSlots` says that text and attachments never come from different legacy drafts. They do exactly when one of the two maps already has the unified slot, the other has not, and the agent's legacy slot is in that other one (`ChatRuns.TextAndFilesMixedExactly`).
- The comments of `normalizeStoredUploads` and of its caller say that an upload in flight becomes `interrupted`; the code drops it. The model follows the code.
- `timeline-thread.ts` promises that all entries are shown. A cycle of parents, and everything below it, is not: nothing is lost exactly when no comment is its own ancestor (`TimelineThread.NothingLostWithoutCycles`). With a repeated comment id the search need not end (`TimelineSearch.RepeatedIdNeverEnds`), though it may (`TimelineSearch.RepeatedIdMayEnd`): it ends exactly when nothing that it reaches is a reply of itself at some distance (`TimelineSearch.EndsExactly`).
- Coalescing a second time can merge again when the input is not in ascending time (`TimelineCoalesce.DisorderIsNotStable`); it does exactly when some run of the input ends mergeable with the end of the run before (`TimelineCoalesce.StableExactly`).
- An inbox row whose newest item has the empty string as its comment keeps that and leads nowhere, although the group has a comment (`InboxDedup.EmptyCommentHides`); with a single newest item this is the only such case (`InboxDedup.CommentReachedExactly`).
- The connection check compares nets as joined text. It never refuses a right project. An accepted one is right exactly when the names of its expected nets are as long as the connected ones, net by net in the order of the text (`CircuitNets.AcceptedIsRightExactly`); with plain connection names that is when the expected names are plain too (`CircuitModules.CheckIsExact`). Every right project with one wire in order turns into a wrong one that is accepted still (`CircuitNets.WrongProjectAccepted`), and when a connected name holds a separator, the wrong net may even be a pair (`CircuitNets.ShiftedPairAccepted`).
- Two controllers of an assembly reference can be mistaken for each other exactly when one id continues the other after a colon (`AssemblyReference.ControllersConfusedExactly`).
- A mention name with whitespace in it is never linked and makes the whole text fall back (`Mentions.SpacedNameFallsBack`).
- The link of an issue mention has no at-sign, the stripped text has one. So a linked text read by its captions is the stripped text exactly when it mentions no issue (`Mentions.BothReadAlikeExactly`, `Mentions.IssueReadsDifferently`).
- Sizes of 4 GiB and more wrap in the container header; a reader recovers the chunks exactly when the total is below that (`GlbContainer.ContainerRoundTrip`).

## Model

| member | source | states |
|---|---|---|
| LDrawGeometry.Compose | tools/ldraw-catalog/main.go:356-367 | the triple loop computes the matrix product, and the child's origin moved by the parent |
| LDrawGeometry.ComposePoint | tools/ldraw-catalog/main.go:348-367 | a composed transform acts as the child followed by the parent, on every point |
| LDrawDrawing.PointByColumns | tools/ldraw-catalog/main.go:348-354 | a point goes along the columns of the matrix by its coordinates, from the translation |
| LDrawSource.ResolveReference | tools/ldraw-catalog/main.go:369-386 | a reference resolves exactly when one of its candidate paths is in the archive, and then to such a path in canonical form |
| LDrawFields.ReferenceOrder | tools/ldraw-catalog/main.go:369-386 | sub-parts are looked up among the parts only, names that begin with 48/ or 8/ among the primitives only, all others among the parts first |
| LDrawFields.NameIsFolded | tools/ldraw-catalog/main.go:241-243 | a name loses blanks at its ends, and its characters are folded one by one: backslashes to slashes, capitals to small letters |
| LDrawFields.ArchivePaths | tools/ldraw-catalog/main.go:234-239 | a leading dot directory and then the library's directory are taken off archive paths |
| LDrawSource.CandidatesAreCanonical | tools/ldraw-catalog/main.go:234-243 | every candidate path is already in the form in which the archive is looked up |
| LDrawSource.ParseSource | tools/ldraw-catalog/main.go:276-321 | a file parses exactly when each row does; otherwise the error names the first row that fails, by number and reason |
| LDrawFields.RowOutcome | tools/ldraw-catalog/main.go:281-319 | a row is skipped, or fails for its one reason, exactly by its type, its number of fields and its numbers; otherwise its line has colour, translation, matrix, name or points from the fields they stand in |
| LDrawFields.FileReads | tools/ldraw-catalog/main.go:276-321 | a parsed file has one line for each typed row, in order, saying what the row says |
| LDrawFields.JoinedByBlanks | tools/ldraw-catalog/main.go:307 | a name of several fields is joined by single blanks |
| LDrawSource.ParsedLinesAreWellFormed | tools/ldraw-catalog/main.go:286-317 | every parsed line has exactly the points its kind needs, so that expansion never indexes past them |
| LDrawScene.RenderIsByOccurrence | tools/ldraw-catalog/main.go:434-457 | expanding a reference tree draws, in file order, every primitive mapped through the transforms of its path and coloured by the innermost colour that is not inherited |
| LDrawDrawing.RenderShows | tools/ldraw-catalog/main.go:388-457 | what is drawn, one after another: each line or triangle at its placed points in order, a quad as corners 0 1 2 and 0 2 3; code 16 with the surface of the nearest reference that has a colour, 24 with its edge colour, any other code with its own, and a direct colour by its digits |
| LDrawDrawing.ColoursOfPart | tools/ldraw-catalog/main.go:396-404 | without any colour on the way, surfaces of a part are current and its edges edge-current |
| LDrawScene.RenderIsInstanced | tools/ldraw-catalog/main.go:388-404 | expanding under any matrix and context equals expanding at the identity with the two current colours and then moving points and substituting those colours |
| LDrawFlatten.ExpandsExactlyWhenSound | tools/ldraw-catalog/main.go:423-459 | expansion succeeds exactly when every reachable file is present, parses and resolves, none of them is on the stack, and no reference cycle is reachable |
| LDrawFlatten.DependenciesAreReachable | tools/ldraw-catalog/main.go:427-429 | the recorded dependencies of a successful expansion are exactly the files reachable from the root |
| LDrawFlatten.WholePart | tools/ldraw-catalog/main.go:423-459 | from an empty stack: success exactly on sound, acyclic parts, and then the part's drawing primitive by primitive and its reachable files |
| LDrawFlatten.ExpandMirrors | tools/ldraw-catalog/main.go:433-457 | the expanded tree holds the lines of the part's files one for one, with the files their references resolve to |
| LDrawFlatten.Archive.Source | tools/ldraw-catalog/main.go:245-274 | the cached lookup answers like an uncached one, and the cache stays right |
| LDrawFlatten.Output.Append | tools/ldraw-catalog/main.go:444-456 | one line appends what it shows, in its own points, colour code and kind |
| LDrawFlatten.Archive.Flatten | tools/ldraw-catalog/main.go:423-459 | the recursion ends on every library, restores the stack on success and on error, fails exactly when and how the expansion does, and on success appends exactly the reference tree's drawing and adds exactly its files |
| LDrawFlatten.Archive.FlattenPart | tools/ldraw-catalog/main.go:461-489 | a part compiles exactly when its root resolves, its reference graph is sound and acyclic, and it has a triangle; the result shows the lines of its files one after another, placed and painted as they say, and its reachable files |
| GlbBytes.DecodeEncode | tools/ldraw-catalog/main.go:733-735 | words written in little-endian order are read back unchanged |
| GlbContainer.Buffer.Align4 | tools/ldraw-catalog/main.go:761-765 | the buffer grows by fewer than four zero bytes to a multiple of four, and all views still read the same |
| GlbContainer.Buffer.AppendFloatAccessor | tools/ldraw-catalog/main.go:730-747 | the new accessor's view holds the written values; all views stay aligned, disjoint, in bounds and unchanged in content |
| GlbContainer.Buffer.AppendIndexAccessor | tools/ldraw-catalog/main.go:749-759 | the same for index accessors |
| GlbContainer.Pad | tools/ldraw-catalog/main.go:767-773 | padding keeps the value as a prefix and adds fewer than four fill bytes to reach a multiple of four |
| GlbContainer.Assemble | tools/ldraw-catalog/main.go:630-643 | the container is the header followed by both padded chunks |
| GlbContainer.HeaderFields | tools/ldraw-catalog/main.go:632-642 | byte by byte: the letters glTF, version 2 and the length, then both chunk lengths and the letters JSON and BIN, numbers modulo 2^32 |
| GlbContainer.ContainerRoundTrip | tools/ldraw-catalog/main.go:632-643 | parsing the container recovers both chunks exactly when its declared total did not wrap |
| GlbMesh.StoredIsFaithful | tools/ldraw-catalog/main.go:598-612 | stored vertices have pairwise different keys, come from the input, and cover every input key |
| GlbMesh.IndexVertices | tools/ldraw-catalog/main.go:590-615 | the loop over triangle corners builds the indexed mesh of those corners |
| GlbMesh.MeshIsLossless | tools/ldraw-catalog/main.go:590-615 | indices are in range and lead each corner to a stored vertex with its key, in order; minimum and maximum are attained bounds |
| GlbFaces.MeshShowsFaces | tools/ldraw-catalog/main.go:590-615 | indices 3t, 3t+1 and 3t+2 lead to vertices with the digits of corners a, b and c of the t-th triangle and of its normal |
| GlbAsset.GroupByMaterial | tools/ldraw-catalog/main.go:559-571 | triangles are grouped by material in order, and the bounds are tight |
| GlbAsset.AddPrimitive | tools/ldraw-catalog/main.go:616-622 | a primitive's three accessors hold its mesh, and earlier contents stay |
| GlbAsset.BuildGLB | tools/ldraw-catalog/main.go:558-644 | parsing the emitted bytes gives back the document text and a binary chunk in which every material shows exactly its own triangles in order: corners a, b, c and the normal up to the sixth digit, no vertex twice, exact bounds, and accessors in the numbers of the format |
| GlbAsset.ExtentOfTriangles | tools/ldraw-catalog/main.go:559-571 | the extent of the part takes in all corners of all triangles |
| LDrawLines.GroupKeyInjective | tools/ldraw-catalog/main.go:664 | different colours or kinds never share a group |
| LDrawLines.GroupRenderLines | tools/ldraw-catalog/main.go:657-684 | one group for each colour and kind that occurs, holding exactly the coordinates of its lines in order |
| LDrawLines.RenderedLinesWellFormed | tools/ldraw-catalog/main.go:444-449 | every appended line has its two endpoints, and two controls exactly if conditional |
| LDrawLines.WholeIsDivisible | apps/mobile/scripts/ldraw-lines.js:15-17 | being a sequence of whole records is what the remainder test decides |
| LDrawLines.PrepareTemplate | apps/mobile/scripts/ldraw-lines.js:14-36 | the reader rejects exactly the data with a group of partial records, and otherwise produces the records of each group that is not empty, in order |
| LDrawLines.RecordsAreSegments | apps/mobile/scripts/ldraw-lines.js:20-29 | a group's numbers read as its lines: endpoints, and controls and direction repeated for both endpoints |
| LDrawLines.EmittedReadsBack | apps/mobile/scripts/ldraw-lines.js:14-29 | every emitted group passes the reader's stride test, and reading it gives exactly the lines of its colour and kind, in order, at six numbers each |
| PendingQueue.UniqueQueue | packages/core/chat/pending.ts:14-22 | the loop over a map computes the list of first observations, replaced by later rich ones in place |
| PendingQueue.UniqueIsSound | packages/core/chat/pending.ts:14-22 | one row for each id observed, and each row an observed one |
| PendingQueue.UniqueKeepsRich | packages/core/chat/pending.ts:16-20 | in whatever order observations come, a row carries its message once any of them does |
| PendingMoves.UniqueRows | packages/core/chat/pending.ts:14-22 | rows stand in the order of first observations; each is the latest observation with a message, or the first when none has one |
| PendingQueue.NormalizeMembers | packages/core/chat/pending.ts:24-26 | normalising keeps the unique rows and nothing else, whatever the comparator does |
| PendingQueue.NormalizeIsFifo | packages/core/chat/pending.ts:5-26 | when all timestamps parse, the queue is oldest first with ties by id |
| PendingQueue.NextKeepsInv | packages/core/chat/pending.ts:37-172 | each event keeps the invariant and changes the known ids only as its branch allows |
| PendingMoves.PrioritizeMovesToFront | packages/core/chat/pending.ts:161-172 | a prioritised row comes first, all others keep their order, all else stays |
| PendingMoves.RemoveClosesGap | packages/core/chat/pending.ts:143-148 | a removed row leaves its gap, all else stays |
| PendingMoves.RemoveHeadAdvances | packages/core/chat/pending.ts:150-157 | the first queued row becomes the head and the rest keeps its order; without one nothing is left |
| PendingMoves.PromoteSwapsHead | packages/core/chat/pending.ts:123-136 | a promoted row becomes the head with the event's status; a waiting head goes to the front of the queue; the exact wait reason and creation time |
| PendingMoves.PromoteHeadUpdates | packages/core/chat/pending.ts:111-118 | promoting the head changes its status and wait reason only |
| PendingMoves.EnqueueWithoutHead | packages/core/chat/pending.ts:42-60 | a queued task replaces what was queued, any other becomes the head before the rest in order |
| PendingMoves.EnqueueOfHead | packages/core/chat/pending.ts:61-75 | a late notice of the head fills what it lacks and keeps its status and creation time |
| PendingMoves.EnqueueReplacesHead | packages/core/chat/pending.ts:76-82 | an unqueued task replaces another head and its queue |
| PendingMoves.EnqueueJoins | packages/core/chat/pending.ts:83-86 | a new task joins the queue, which is then oldest first with ties by id |
| PendingMoves.EnqueueAgain | packages/core/chat/pending.ts:83-86 | a further notice takes over the row if it carries a message, and changes no row otherwise |
| PendingMoves.StrayEventsLeave | packages/core/chat/pending.ts:120-172 | what removing, prioritising and promoting an unknown task leave, with and without a head |
| PendingQueue.RunKeepsInv | packages/core/chat/pending.ts:37-172 | over every run queued ids are distinct, the head is not queued as well, and a wait reason shows only while waiting for the local directory |
| PendingQueue.StartedHeadSurvives | packages/core/chat/pending.ts:61-75 | a started head stays the head, and started, through exactly the runs that neither remove it, report it as queued, promote a queued task nor bring another task unqueued |
| PendingQueue.UnknownChangesNothing | packages/core/chat/pending.ts:120-172 | a lifecycle event for an unknown task changes nothing, exactly except removal and prioritisation without a head |
| PendingQueue.StrayRemovalDropsQueue | packages/core/chat/pending.ts:138-142 | that exception loses a queued row |
| PendingQueue.RichRowStays | packages/core/chat/pending.ts:42-50 | a queued row keeps its message over any event, exactly except when a bare queued send arrives without a head |
| PendingQueue.SparseNoticeStripsRow | packages/core/chat/pending.ts:42-50 | that exception is reached from the empty queue in two events |
| PendingQueue.HiddenMessagesAreQueued | packages/core/chat/pending.ts:174-185 | only messages that a queued task owns are hidden, and nothing is added |
| PendingMoves.HiddenExactly | packages/core/chat/pending.ts:174-185 | hidden are exactly the messages whose own task has the last row that names them; the rest keep their order |
| PendingQueue.PromotionRevealsMessage | packages/core/chat/pending.ts:123-136 | promoting a task makes its message visible |
| SeqMerge.Merge | packages/core/chat/queries.ts:199-226 | what each path returns; on a list in order every path, fast or slow, returns the sorted union |
| SeqMerge.AppendAgreesExactly | packages/core/chat/queries.ts:207 | appending at once equals sorting exactly when the cached list is in order |
| SeqMerge.ExtendAgrees | packages/core/chat/queries.ts:210-213 | adopting the batch that extends the cached list by one equals sorting |
| SeqMerge.MergeIsUnion | packages/core/chat/queries.ts:214-225 | the merge of a list in order is the map union the batch calls for, listed in order |
| MergeShows.MergeShowsExactly | packages/core/chat/queries.ts:199-226 | which messages a merge shows: plain, the cached ones and the first of each new number; authoritative, the last of each number of the batch and the other cached ones |
| SeqMerge.RunIsDelivered | packages/core/chat/queries.ts:199-226 | from an empty cache, any interleaving, repetition and batching of one log, through the fast paths or past them, gives exactly the delivered messages, once each and strictly increasing |
| MergeShows.RunShowsSent | packages/core/chat/queries.ts:199-226 | a run shows, strictly increasing, exactly the messages that some batch brought |
| SeqMerge.RunsConverge | packages/core/chat/queries.ts:199-226 | two such runs with the same deliveries end in the same list |
| SeqMerge.PlainMergesCompose | packages/core/chat/queries.ts:218 | plain merges are associative and idempotent |
| SeqMerge.AuthoritativeCorrects | packages/core/chat/queries.ts:218 | after an authoritative batch its own versions are in the list, and all others stay |
| MessageCache.MergeChatMessage | packages/core/chat/message-cache.ts:5-15 | the loop fills exactly the missing fields and keeps those that are set |
| MessageCache.UpsertIntoPages | packages/core/chat/message-cache.ts:31-56 | a known message is merged where it is, a new one goes to the end of the newest page |
| MessageCache.FlatUpsertLeaves | packages/core/chat/message-cache.ts:17-29 | the flat cache row by row: the first row of the message is filled, a new one appended, an absent cache seeded only if it may be |
| MessageCache.PagesUpsertLeave | packages/core/chat/message-cache.ts:31-86 | the pages row by row; limits, flags and cursors stay, and a seeded page has limit 50 and nothing more to load |
| MessageCache.PageMergeExactly | packages/core/chat/message-cache.ts:36-46 | merging page by page is merging the flat list exactly when only the oldest copy changes |
| MessageCache.RepeatedRowFillsTwice | packages/core/chat/message-cache.ts:36-46 | one row on two pages is filled on both, in the flat list only once |
| MessageCache.UpsertRefines | packages/core/chat/message-cache.ts:25-56 | with unique ids, upserting into the pages and reading them oldest first is upserting into the flat list |
| MessageCache.UpsertGrows | packages/core/chat/message-cache.ts:17-29 | an upsert keeps order, ids and every set field, and makes the message's fields known |
| MessageCache.UpsertIdempotent | packages/core/chat/message-cache.ts:25-29 | upserting the same message twice equals once |
| MessageCache.ArrivalOrderIrrelevant | packages/core/chat/message-cache.ts:5-29 | two versions of a message may arrive in either order exactly when they agree on all fields that are still open |
| MessageCache.QueryCache.UpsertChatMessage | packages/core/chat/message-cache.ts:69-86 | updates both caches, and keeps them in agreement |
| MessageCache.RunKeepsAgreement | packages/core/chat/message-cache.ts:69-86 | caches that agree keep agreeing over every run, and no shown row or set field is lost |
| DraftUploads.NormalizeStoredUploads | packages/core/drafts/draft-upload.ts:117-143 | the loop keeps what the load rules keep, in order |
| DraftUploads.NormalizationIsStable | packages/core/drafts/draft-upload.ts:117-143 | what was loaded once loads unchanged |
| ChatEffects.UploadsComeBack | packages/core/drafts/draft-upload.ts:71-143 | which stored items load, in order, and as what: uploads unchanged, attachments as completed uploads without their download address |
| ChatStore.Store.constructor | packages/core/chat/store.ts:363-402 | a new store holds what loading the bare keys gives, and storage is what folding leaves |
| ChatStore.Store.LoadDraftSlots | packages/core/chat/store.ts:253-267 | both maps are folded for the same agent and written back where that changed them |
| ChatStore.Store.SetCurrentWorkspace | packages/core/platform/workspace-storage.ts:34-64 | a different slug takes effect at once and leaves rehydration pending; the same slug is ignored |
| ChatStore.Store.RunRehydration | packages/core/chat/store.ts:649-681 | the pending task replaces the slices by what is stored for the slug of that moment |
| ChatReturns.RehydrationLeaves | packages/core/chat/store.ts:649-681 | only the current workspace is read, memory is what loads from it, and only folded maps are written back |
| ChatReturns.RestartLeaves | packages/core/chat/store.ts:363-402 | a restart forgets the slug and loads the bare keys |
| ChatReturns.ActionsLeave | packages/core/chat/store.ts:366-369 | an action changes memory and the current workspace's storage and nothing else |
| ChatEffects.QueuesComeBack | packages/core/chat/store.ts:158-180 | loading keeps each stored queue entry by entry: id, content, session, and attachments with a missing list as an empty one |
| ChatEffects.SlotsComeBack | packages/core/chat/store.ts:225-245 | folding by the names of the slots: none beginning with __new__: stays, and __new__ is kept or taken over from the agent's |
| ChatEffects.DraftsBlobStores | packages/core/chat/store.ts:89-100 | drafts are stored exactly if they are not empty, and the key is removed without any |
| ChatEffects.UploadsBlobStores | packages/core/chat/store.ts:195-211 | uploads are stored exactly by the slots that are not empty |
| ChatStore.Store.ApplySession | packages/core/chat/store.ts:422-430 | the session in memory and in storage; an empty one is removed from storage |
| ChatStore.Store.MarkDraftRestoreApplied | packages/core/chat/store.ts:449-455 | a new id joins the ledger in memory and in storage; a known one changes nothing |
| ChatStore.Store.ForgetDraftRestoreApplied | packages/core/chat/store.ts:457-463 | a known id leaves the ledger in both |
| ChatStore.Store.EnqueuePendingSendRestore | packages/core/chat/store.ts:469-481 | a restore with a new id joins the end of its session's queue, in both |
| ChatStore.Store.DequeuePendingSendRestore | packages/core/chat/store.ts:483-494 | the restore leaves its queue, and an emptied queue its map |
| ChatStore.Store.SetInputDraft | packages/core/chat/store.ts:495-501 | the draft in memory; storage holds the non-empty drafts |
| ChatStore.Store.AppendToInputDraft | packages/core/chat/store.ts:502-511 | the fragment follows the trimmed text after a blank line, or replaces a blank draft |
| ChatStore.Store.AddInputDraftAttachment | packages/core/chat/store.ts:520-535 | an attachment that is there is replaced in place, a new one appended |
| ChatStore.Store.SettleInputDraftUpload | packages/core/chat/store.ts:544-556 | a placeholder becomes its completed attachment under the same client id |
| ChatStore.Store.FailInputDraftUpload | packages/core/chat/store.ts:557-574 | a placeholder becomes a failed one with the first match's file data |
| ChatStore.Store.RemoveInputDraftUpload | packages/core/chat/store.ts:575-585 | the upload leaves its slot, and an emptied slot its map |
| ChatStore.Store.ClearInputDraft | packages/core/chat/store.ts:586-601 | text and uploads of the slot go together, in memory and storage |
| ChatEffects.SelectionsLeave | packages/core/chat/store.ts:422-441 | selections are stored unless they are absent or empty |
| ChatEffects.LedgerLeaves | packages/core/chat/store.ts:449-463 | the ledger after marking and forgetting, in memory and storage |
| ChatEffects.EnqueueLeaves | packages/core/chat/store.ts:469-481 | a restore with an address and a new id stands last in its queue, as it was given |
| ChatEffects.DequeueLeaves | packages/core/chat/store.ts:483-494 | the others keep their order, and an emptied queue leaves no entry |
| ChatEffects.AppendDraftLeaves | packages/core/chat/store.ts:502-511 | the text without the blanks at its end, an empty line, and the new text; or the new text alone |
| ChatEffects.SetUploadsLeaves | packages/core/chat/store.ts:512-519 | exactly the given list, and no entry for an empty one |
| ChatEffects.AddAttachmentLeaves | packages/core/chat/store.ts:520-535 | the attachment is renewed where it stands or added at the end, as a completed upload in all its fields |
| ChatEffects.SettleLeaves | packages/core/chat/store.ts:544-556 | uploads with the id become the completed attachment in all its fields under that id |
| ChatEffects.FailLeaves | packages/core/chat/store.ts:557-574 | uploads with the id become failed with the name, size and type of the first of them |
| ChatEffects.RemoveUploadLeaves | packages/core/chat/store.ts:575-585 | the others keep their order, and an emptied slot leaves no entry |
| ChatEffects.ClearDraftLeaves | packages/core/chat/store.ts:586-601 | text and uploads of the draft are gone from memory and storage |
| ChatRuns.ActInStep | packages/core/chat/store.ts:422-601 | every action keeps each slice of memory in step with what is stored |
| ChatRuns.LoadInStep | packages/core/chat/store.ts:78-267 | after a load memory and storage are in step, whatever was stored |
| ChatRuns.RunInSync | packages/core/chat/store.ts:422-681 | over every run of actions, restarts and switches, whenever no rehydration is pending, memory and storage are in step |
| ChatRuns.ReloadGivesMemory | packages/core/chat/store.ts:78-267 | re-reading storage gives back the slices, up to empty drafts and the load normaliser, exactly when memory holds nothing under a legacy name |
| ChatWorkspaces.OthersUntouched | packages/core/chat/store.ts:366-369 | no event changes what is stored for a workspace other than the one it is written to |
| ChatWorkspaces.WorkspacesIndependent | packages/core/platform/workspace-storage.ts:47-63 | when no action that depends on memory runs before its rehydration, a workspace's storage and memory depend only on what happened in it |
| ChatWorkspaces.BlindExactly | packages/core/chat/store.ts:422-601 | what an action writes is independent of memory exactly when it is a selection or stopped by its own arguments |
| ChatRuns.SessionsApart | packages/core/chat/store.ts:469-601 | an action about one session leaves draft, uploads and queue of every other session alone |
| ChatRuns.SettlesInPlace | packages/core/chat/store.ts:544-556 | settling completes exactly the placeholders with the id, in place, under the same client id |
| ChatRuns.PlaceholdersStayDistinct | packages/core/chat/store.ts:536-585 | adding, settling, failing and removing placeholders keeps client ids distinct within a slot |
| ChatWorkspaces.DraftsLeakBeforeRehydration | packages/core/platform/workspace-storage.ts:55-63 | setting a draft in that window writes the left workspace's drafts under the entered one |
| ChatWorkspaces.DraftRefinesExactly | packages/core/chat/store.ts:495-601 | with any memory, an action does to the stored draft what it means exactly when memory and storage agree on the text as far as the action looks |
| ChatWorkspaces.OtherUploadsStayExactly | packages/core/chat/store.ts:512-601 | with any memory, an action leaves another session's stored uploads alone exactly when it does not write the uploads or memory shows the same ones |
| ChatWorkspaces.UploadsShownExactly | packages/core/chat/store.ts:512-601 | after an action, storage shows memory's uploads for a session exactly when the action wrote them or they were shown before |
| ChatQueues.QueueRefines | packages/core/chat/store.ts:469-494 | an event does to a session's stored queue what it does to a plain first-in first-out queue exactly when it is no action here or memory is ready for it, as it is whenever memory and storage are in step and no rehydration is pending |
| ChatQueues.LedgerRefines | packages/core/chat/store.ts:449-463 | an event does to the stored ledger what marking and forgetting do to a plain one exactly when it is no action here or memory is ready for it, as it is whenever memory and storage are in step and no rehydration is pending |
| ChatQueues.MarkLosesLedger | packages/core/platform/workspace-storage.ts:55-63 | a mark before rehydration wipes out an id that only the entered workspace's ledger has |
| ChatQueues.EnqueueLosesQueues | packages/core/platform/workspace-storage.ts:55-63 | a new restore before rehydration wipes out the entered workspace's queues of the sessions that memory does not know |
| ChatQueues.EnqueuedOnce | packages/core/chat/store.ts:469-481 | a restore with a new id is then in its stored queue exactly once, behind what was stored, exactly when memory has that session's queue |
| ChatQueues.QueuedUntilLost | packages/core/chat/store.ts:464-494 | over every run it stays there exactly once precisely as long as no action here writes the queues without it |
| ChatQueues.QueuedUntilDequeued | packages/core/chat/store.ts:464-494 | in particular until it is dequeued, in runs where no effective enqueue or dequeue here comes before its rehydration |
| ChatReturns.RestoreComesBack | packages/core/chat/store.ts:464-494 | a restore enqueued in step is in memory, once, with its own text and attachments, whenever its workspace is open and rehydrated later, until it is dequeued |
| ChatQueues.MarkedUntilLost | packages/core/chat/store.ts:442-463 | over every run a marked id stays in the ledger, once, precisely as long as no action here writes the ledger without it |
| ChatQueues.MarkedUntilForgotten | packages/core/chat/store.ts:442-463 | in particular until it is forgotten, in runs where no effective mark or forget here comes before its rehydration |
| ChatRuns.FoldingIsExact | packages/core/chat/store.ts:225-245 | folding keeps other slots, drops legacy ones, fills the new-chat slot from the right place, and is idempotent |
| ChatRuns.TextAndFilesMixedExactly | packages/core/chat/store.ts:247-267 | when text and files of the new chat come from different drafts |
| TimelineThread.Partition | apps/mobile/lib/timeline-thread.ts:40-61 | the scan separates top-level entries, orphans among them, from the children lists, both in order |
| TimelineThread.CollectDescendants | apps/mobile/lib/timeline-thread.ts:63-80 | whenever the search ends, and with repeated ids too, the loop returns what it visits, level by level |
| TimelineSearch.EndsExactly | apps/mobile/lib/timeline-thread.ts:63-80 | for any list of entries the search from an id ends exactly when nothing it reaches is a reply of itself at some distance |
| TimelineThread.UniqueIdsEnd | apps/mobile/lib/timeline-thread.ts:63-80 | with distinct comment ids the search from a top-level comment ends, cyclic parents elsewhere included, and gives its whole thread |
| TimelineThread.ThreadIsDescendants | apps/mobile/lib/timeline-thread.ts:63-80 | a row's replies are exactly the descendants of its entry, once each |
| ThreadReplies.RepliesAreLines | apps/mobile/lib/timeline-thread.ts:63-80 | an entry is a reply of the row exactly when a line of comments, each answering the one before, leads to it from the row's entry; no id twice |
| ThreadReplies.ThreadOrder | apps/mobile/lib/timeline-thread.ts:63-80 | the replies are the answers to the entry, then those to each reply in turn, each list in the order of the entries |
| TimelineThread.BuildTimelineRows | apps/mobile/lib/timeline-thread.ts:37-87 | one row for each top-level entry with what its search finds, whenever these searches end |
| ThreadReplies.RowsAreTop | apps/mobile/lib/timeline-thread.ts:50-87 | rows are those of the entries that answer no loaded comment, in order; only comments have replies |
| TimelineThread.RowsAreThreads | apps/mobile/lib/timeline-thread.ts:37-87 | with distinct comment ids they do, and each row holds its entry's thread |
| TimelineThread.RootedWithoutCycles | apps/mobile/lib/timeline-thread.ts:50-60 | every entry hangs below a row exactly when no comment is its own ancestor |
| TimelineThread.EachShownOnce | apps/mobile/lib/timeline-thread.ts:24-26 | the rows show every entry once, except exactly those whose parent chain never ends |
| TimelineThread.NothingLostWithoutCycles | apps/mobile/lib/timeline-thread.ts:24-26 | what is shown is what was given exactly when no comment is its own ancestor |
| TimelineSearch.RepeatedIdNeverEnds | apps/mobile/lib/timeline-thread.ts:70-78 | a reply that repeats its parent's id makes the search of a top-level comment endless |
| TimelineSearch.RepeatedIdMayEnd | apps/mobile/lib/timeline-thread.ts:70-78 | two top-level comments with one id do no harm to the search |
| TimelineCoalesce.CoalesceTimeline | apps/mobile/lib/timeline-coalesce.ts:29-58 | the loop over the output's last entry is a left fold of merging |
| TimelineCoalesce.CoalescedIsSummaries | apps/mobile/lib/timeline-coalesce.ts:8-19 | for any division into maximal runs, the output is each run's last entry with the run's count |
| CoalescedRuns.CoalescedIsCut | apps/mobile/lib/timeline-coalesce.ts:24-58 | the list is cut exactly where neighbours differ in action or actor, are evaluations, or are over 120000 ms apart without being finished or failed tasks; each run shows its last entry with the count |
| TimelineCoalesce.RunsExist | apps/mobile/lib/timeline-coalesce.ts:29-58 | every input has such a division |
| TimelineCoalesce.CountsConserved | apps/mobile/lib/timeline-coalesce.ts:48-51 | the counts add up to the number of entries |
| TimelineCoalesce.SolitariesSurvive | apps/mobile/lib/timeline-coalesce.ts:16-19 | comments and squad leader evaluations come through unchanged, one for one and in order |
| TimelineCoalesce.UnchangedExactlyWhenSeparated | apps/mobile/lib/timeline-coalesce.ts:29-58 | coalescing leaves a list alone exactly when no two neighbours merge |
| TimelineCoalesce.StableExactly | apps/mobile/lib/timeline-coalesce.ts:29-58 | for any order of times, coalescing again changes nothing exactly when no run of the input ends mergeable with the end of the run before |
| TimelineCoalesce.CoalescedIsStable | apps/mobile/lib/timeline-coalesce.ts:29-58 | in ascending time that is so: no two outputs merge |
| TimelineCoalesce.DisorderIsNotStable | apps/mobile/lib/timeline-coalesce.ts:42-46 | out of order it can merge again |
| InboxDedup.DeduplicateInboxItems | apps/mobile/lib/inbox-display.ts:130-166 | grouping in a map, sorting each group and the result computes the rows of the groups in order |
| InboxDedup.RowsRepresentGroups | apps/mobile/lib/inbox-display.ts:140-161 | each row is a newest item of its group; without a comment of its own it takes the group's newest one |
| InboxRows.RowIsLatest | apps/mobile/lib/inbox-display.ts:130-161 | each row shows the latest unarchived item of its issue, the first of equally late ones, and without a word on comments the comment of the latest item with one |
| InboxRows.RowsCoverIssues | apps/mobile/lib/inbox-display.ts:130-166 | every unarchived item has the row of its issue, no two rows share an issue, later ones come first |
| InboxDedup.CommentReachedExactly | apps/mobile/lib/inbox-display.ts:150-157 | when the group has a comment and one newest item, the row leads to a comment exactly when the newest item's own is not the empty string |
| InboxDedup.EmptyCommentHides | apps/mobile/lib/inbox-display.ts:150-157 | an empty comment of the newer item hides the older one's |
| InboxDedup.OneRowPerIssue | apps/mobile/lib/inbox-display.ts:121-129 | one row for each key among the unarchived items, sorted newest first |
| InboxDedup.DeduplicationIsStable | apps/mobile/lib/inbox-display.ts:130-166 | deduplicating again changes nothing |
| InboxDedup.OrderIrrelevant | apps/mobile/lib/inbox-display.ts:130-166 | with distinct times among unarchived items the order of the input does not matter |
| CircuitModules.CollectPorts | packages/core/circuit/schemas.ts:337-350 | the ports of all modules are collected exactly when every part is known and no port is unusable or repeated |
| CircuitModules.CheckWires | packages/core/circuit/schemas.ts:351-388 | the loop accepts exactly the lists in which each wire fits and no two share a port, a cable or an id |
| CircuitModules.ValidModuleConnections | packages/core/circuit/schemas.ts:330-402 | accepts exactly perfect wirings (all ports paired, cables and cabled wires one to one) whose nets have the expected text |
| CircuitTerms.AcceptedWiring | packages/core/circuit/schemas.ts:330-398 | an accepted wiring: every wire joins two offered ports of one connector, output to input or source to sink, with a cable exactly for cabled connectors; every offered port has its wire; no two wires meet |
| CircuitTerms.PortsOffered | packages/core/circuit/schemas.ts:337-350 | the offered ports: those of placed parts that are no cables, as placement, colon and port |
| CircuitModules.CoveringByCount | packages/core/circuit/schemas.ts:394-398 | comparing sizes and looking up cables decides that nothing is left open or over |
| CircuitModules.CheckIsExact | packages/core/circuit/schemas.ts:389-401 | a right project is never refused; with plain connection names an accepted one is right exactly when its expected nets are plain too |
| CircuitNets.AcceptedIsRightExactly | packages/core/circuit/schemas.ts:389-393 | whatever the names hold, an accepted project is right exactly when expected and connected names are equally long, net by net in the order of their text |
| CircuitNets.ShapesDecide | packages/core/circuit/schemas.ts:389-393 | two lists of nets with one text are the same nets exactly when their names are equally long in that order |
| CircuitModules.SeparatorConfusesNets | packages/core/circuit/schemas.ts:389-393 | a name with a separator makes a net of one pass for a pair |
| CircuitNets.WrongProjectAccepted | packages/core/circuit/schemas.ts:389-401 | so each right project with one wire, its ends in order, turns into a wrong one that is accepted |
| CircuitNets.ShiftedPairAccepted | packages/core/circuit/schemas.ts:389-401 | a separator in a connected name lets even a wrong pair be accepted |
| CircuitDocument.StepsPartitionPlacements | packages/core/circuit/schemas.ts:86-97 | the comparison of sizes accepts exactly the steps that place every placement once and nothing else |
| CircuitDocument.CheckRows | packages/core/circuit/schemas.ts:207-228 | the loop over cases accepts exactly correct rows with distinct keys in the expected numbers |
| CircuitDocument.TableDecided | packages/core/circuit/schemas.ts:207-228 | for any number of distinct inputs this is: every powered assignment exactly once, one unpowered row, every output right |
| CircuitDocument.EveryAssignmentOnce | packages/core/circuit/schemas.ts:207-228 | each assignment has exactly one powered row, which shows the right output |
| CircuitTerms.OutputsAre | packages/core/circuit/schemas.ts:207-228 | the three operations in truth values |
| CircuitDocument.EvidenceDecided | packages/core/circuit/schemas.ts:265-275 | passed evidence names exactly the placed parts, as often as placed and no more often than owned |
| CircuitDocument.AcceptDocument | packages/core/circuit/schemas.ts:198-281 | a document is accepted exactly when steps, function, connections, parts and evidence are all true |
| CircuitTerms.CompositionSays | packages/core/circuit/schemas.ts:198-243 | one input, or two different ones for And; version 2 of the one kit; inputs, output, controller and supply are placed |
| AssemblyReference.SumSteps | packages/core/circuit/assembly-reference.ts:53-61 | the totals are formed exactly for steps numbered from one that introduce only known parts, and something each |
| AssemblyReference.AcceptReference | packages/core/circuit/assembly-reference.ts:50-74 | accepts exactly the consistent references: introduced quantities as pictured, wires between different electronics with distinct port texts, distinct gaps |
| AssemblyReference.PrefixNeverExceeds | packages/core/circuit/assembly-reference.ts:53-62 | no prefix of an accepted reference's steps introduces more of a part than is pictured |
| AssemblyReference.PiecesConserved | packages/core/circuit/assembly-reference.ts:53-62 | the steps introduce as many pieces as the pictures show |
| AssemblyReference.ControllersConfusedExactly | packages/core/circuit/assembly-reference.ts:65 | when two controllers' port texts can coincide |
| AssemblyReference.PortsUnique | packages/core/circuit/assembly-reference.ts:63-72 | otherwise distinct texts are distinct ports |
| CircuitTerms.ConsistentWires | packages/core/circuit/assembly-reference.ts:63-72 | wires join two different electronic parts, and no two have one text of controller, colon and port |
| Bricks.AsBricks | scripts/brickgpt-eval/bridge.py:62-97 | the loops compute the outcome, with the error of the first failing placement and test |
| Bricks.Occupy | scripts/brickgpt-eval/bridge.py:91-95 | the cell loops add a brick's cells exactly when none is taken |
| Bricks.AcceptedExactlyWhenBuildable | scripts/brickgpt-eval/bridge.py:62-97 | accepted are exactly the lists of supported parts with distinct ids whose boxes fit in the grid and do not overlap |
| BrickVerdicts.FirstVerdictDecides | scripts/brickgpt-eval/bridge.py:62-97 | in plain numbers: the first placement that fails a test gives that test's error; if none does, every placement has its brick, with the sides of its turn, seen from the least corner |
| BrickVerdicts.RefusedAtOnce | scripts/brickgpt-eval/bridge.py:64-68 | no placement, more than 200, or one that is not of whole numbers |
| Bricks.SharedCellsExactly | scripts/brickgpt-eval/bridge.py:91-95 | two bricks share a cell exactly when their boxes overlap |
| Bricks.OverlapIsGeometric | scripts/brickgpt-eval/bridge.py:83-88 | bricks overlap exactly when the placed parts do |
| Bricks.BricksKeepGeometry | scripts/brickgpt-eval/bridge.py:62-63 | the bricks keep order, true sizes and all relative positions |
| Bricks.OriginIsTouched | scripts/brickgpt-eval/bridge.py:69-70 | some brick touches each of the two near sides of the grid |
| ExceptionFuse.Session.ShouldDropException | packages/core/analytics/exception-dedupe.ts:40-78 | what a call answers and what it leaves in storage, for every way the storage behaves |
| ExceptionFuse.CallLeaves | packages/core/analytics/exception-dedupe.ts:40-78 | the same in numbers: dropped from the fourth on, counted unless new while fifty are counted |
| ExceptionFuse.DropsOnlyRepeats | packages/core/analytics/exception-dedupe.ts:13-17 | whatever fails, an exception is dropped only after three like it were kept |
| ExceptionFuse.RunBounded | packages/core/analytics/exception-dedupe.ts:24-29 | counts are one, two or three, and at most fifty fingerprints are tracked |
| ExceptionFuse.KeepsFirstThree | packages/core/analytics/exception-dedupe.ts:7-10 | with storage that works, the first fifty fingerprints keep exactly their first three occurrences and all others every one |
| ExceptionFuse.OthersNeverCauseDrops | packages/core/analytics/exception-dedupe.ts:10-11 | other fingerprints can turn a drop into a keep, never a keep into a drop |
| Mentions.TokenAtCursor | apps/mobile/lib/mention-serialize.ts:47-78 | returns the one at-sign that starts a word and has neither whitespace nor another at-sign up to the cursor, or nothing when there is none |
| Mentions.TokensReadText | apps/mobile/lib/mention-serialize.ts:134-168 | the reading of a text into characters, stray sentinels and marked words loses nothing |
| Mentions.SerializeMentions | apps/mobile/lib/mention-serialize.ts:122-175 | the loop computes the scan of those tokens, or the stripped text when it aborts or markers are left |
| Mentions.AllOrNothing | apps/mobile/lib/mention-serialize.ts:122-175 | every mention is linked in order exactly when the marked words are the markers' names; otherwise none is |
| MentionText.SerializedReads | apps/mobile/lib/mention-serialize.ts:108-175 | for any text and markers, in characters: the text is read in plain characters, stray marks and marked words up to the next blank; the links are written in their places, each with its type and id, if all words name their markers, and otherwise the text without its marks |
| Mentions.FastPathAgrees | apps/mobile/lib/mention-serialize.ts:126-127 | without sentinels the scan could only give the text back |
| Mentions.BothReadAlikeExactly | apps/mobile/lib/mention-serialize.ts:16-18 | a linked text, read by its captions, is the stripped text exactly when it mentions no issue |
| Mentions.IssueReadsDifferently | apps/mobile/lib/mention-serialize.ts:161-165 | one issue mention links to its bare name, while the stripped text has the at-name |
| Mentions.SpacedNameFallsBack | apps/mobile/lib/mention-serialize.ts:149-158 | a name with whitespace is never linked and takes all others with it |
| Mentions.InsertedMentionLinks | apps/mobile/lib/mention-serialize.ts:85-106 | a mention inserted at a token reads back as its name, so the text links if the mentions around it do |
| MentionText.InsertLeaves | apps/mobile/lib/mention-serialize.ts:85-106 | the at-sign and the query give way to the marked name and a blank, and the cursor stands behind it |
| Mentions.WellSpacedLinks | apps/mobile/lib/mention-serialize.ts:122-175 | texts of whitespace-free names, each followed by whitespace or the end, always link in full |

## Left out

- HTTP clients, schema shapes, React hooks and views, navigation and configuration: input, output and display only.
- Zip access, file sizes, reading errors and SHA-256 in the LDraw compiler: a file is present with its rows, or unreadable.
- Number syntax in LDraw rows, `%.6f` formatting, float32 encoding, vertex normals and JSON text: parameters of the model, with no assumption about them; coordinates are reals, so rounding is not modelled.
- Folding and trimming of LDraw names treat ASCII letters and blanks only.
- The order in which materials and line groups are listed: any listing without repetition; sorting names is not what the proofs need.
- Materials are values of a datatype instead of strings: their texts are read back only by the colour table, which is a parameter.
- `colors`, `renderTypeScript` and `main` of the LDraw compiler, and its hashes.
- The scene graph of the mobile line reader: one list of groups stands for the nodes of a template, and non-numeric values are not modelled.
- `localeCompare` and `Date.parse` are parameters; when timestamps do not parse, the order of the pending queue is unspecified, as the comparator is then no order.
- Identity of arrays and objects (so that observers do not render again): flags where the code decides by it, otherwise equality of values; absent and `undefined` fields are the same.
- Merge: the two tests by reference are flags, which may hold only when the compared values are equal; in a run each merge has its own.
- Uploads of the session that an action addresses: exact conditions are stated for all other sessions, and for the addressed one whether storage then shows memory's uploads; placeholders in flight exist only in memory.
- BuildTimelineRows: demands that the search of each top-level comment ends, because otherwise the source runs for ever; when that is so is `TimelineSearch.EndsExactly`, and distinct comment ids suffice (`TimelineThread.RowsAreThreads`).
- Flatten: demands a path in canonical form, which is what its only callers, reference resolution and part resolution, pass.
- BuildGLB: decoding is stated below 4 GiB and 2^32 corners, because beyond them header fields and indices wrap.
- The QueryClient, sorting and counting of chat sessions, and query options.
- Stored items that are neither uploads nor attachments, and stored uploads whose attachment is malformed, are one case: junk.
- Which issue a rejected circuit document reports, and the catalogue, inventory and saved-step refinements, which are single expressions.
- Panel size, open, floating and expanded preferences of the chat store, which do not follow the workspace; clearing storage on logout.
- JSON text in browser storage: a stored value is missing, corrupt or a typed value; storage that throws while the chat store writes is not modelled, because the store lets it throw.
- Whitespace in drafts and mentions is the set that `\s` matches in JavaScript; positions are characters, not UTF-16 units.
- NormalizeIsFifo: states the order only when every timestamp parses and the locale's comparison orders ids.
- OrderIrrelevant: demands distinct times among unarchived items, because with equal times the input order decides; times that do not parse are not modelled in the inbox.
- CoalescedIsStable: demands ascending time, which the source states as its input; the exact condition without it is `StableExactly`.
- CheckIsExact: speaks of connection names without separators; for all names see `CircuitNets.AcceptedIsRightExactly`.
- TableDecided: speaks of tables whose inputs are distinct, which the composition schema demands.
- Records with names of built-in object properties (`__proto__`, `constructor`) behave like any other key in the model.
- The fingerprint text and its hash in the exception fuse: a fingerprint is a parameter, and two errors with one hash are one fingerprint.
- Upstream verification, Gurobi, Parquet and subprocess code of the brick evaluation.
