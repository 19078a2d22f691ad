# Verification of the document platform's stateful core

A Dafny model of five parts of the backend that keep state over long runs, two smaller
protocols, and the pure text chunker, with proofs of the properties their documentation
promises. `dafny verify dfyconfig.toml` checks everything.

* **Storage accounting** (`Ledgers`, `Accounting`, `QuotaRuns`, `QuotaService`,
  `Reconciliation`): documents are charged to a personal or an organization counter that is
  recorded on them; counters move by deltas clamped at zero. The central theorem is a
  conservation law: after every transaction of every run each counter equals a recount.
* **Account erasure and trash purge** (`Databases`, `Erasure`, `ErasureService`,
  `ErasedRows`, `AccountErasure`, `TrashPurge`): the tables with their foreign-key actions; statements run
  in order against them; object storage may fail anywhere.
* **Collaboration** (`Collaboration`, `CollaborationRuns`, `CollaborationService`): sessions, element locks with
  expiry, and the socket handlers. Every manager call is one atomic step and runs interleave
  the steps freely.
* **Text chunking** (`Texts`, `Packing`, `TextChunking`, `ChunkStructure`): a text is compared with its chunks
  as lists of words.
* **Editing** (`SceneGraph`, `PageEditing`, `DocumentService`, `Elements`, `ElementService`,
  `History`, `HistoryRuns`, `HistoryScripts`, `HistoryService`, `Lru`, `SessionCache`,
  `SessionRuns`): the PDF in the engine and the scene graph, element edits, undo history,
  and the session cache in front of Redis.
* **Rate limiting, storage migration, folders** (`RateLimiting`, `Migration`, `Paths`,
  `Folders`).

Classes hold the fields the source updates in place; each method is proved equal to a
function of the state it finds, and the lemmas are about those functions and runs of them.
Clocks, generated ids, failures of calls into other systems, what other transactions leave
between two of ours, and the outcome of field validation are parameters or arbitrary choices.

Where the code does less than it says, the model follows the code and the exact condition is
proved:

* A socket that leaves a document and joins again leaves two rows with its id; leaving then
  raises and frees no lock, exactly while another row than the stale one carries the socket
  (`RejoiningFails`, `RejoinedCannotLeave`, `OneJoinLeaves`).
* A page added with a width or height that is not positive is already in the PDF when its
  size is refused (`EditKeepsLockstep`).
* A lock asked for through a session that ended after it was read outlives that session: only
  its expiry, its user's release or a leave on that socket ends it (`HeldThroughEndedIff`,
  `EndedHolderKept`, `LockOutlivesSession`).
* Undo writes back the affected pages of the target snapshot only (`PartialUndoMisses`). Number
  the pages' versions by running the lists, page counts and jumps alone: undo is exact in
  every run with these exactly when each page the target's list leaves out has the same version
  shown and recorded there (`UndoIsExactIffVersionsAgree`). All jumps of a script are exact
  exactly when each finds its target's list empty or holding every page listed on the way
  (`JumpsExactIffCovered`); after a jump that was not, that no longer suffices
  (`CoveredUndoMisses`). No jump brings back another page count (`PageCountStays`,
  `AddedPageStays`).
* The erasure's second check refuses after the objects are gone (`Erase`).
* The rate limiter calls itself a sliding window and is a fixed one (`SlidingOnlyUpToOne`).
* Creating an element under a given id does not check it (`EditKeepsIdsDistinct`), and moving
  or deleting one takes all of that id on its page (`MoveKeepsAll`, `DeleteDropsOne`).
* A session with empty PDF bytes is lost once it is evicted (`SaveAndReload`).

## Model

| member | source | states |
|---|---|---|
| `QuotaRuns.RunSound` | app/services/quota_service.py:323-523 | in every run of uploads, restores, trashings, resizes, deletions, folder cascades, purges, organization drops, erasures, reconciliations and administrative changes, every personal counter equals the recount over its owner's active unattributed documents and every organization counter the recount over the active documents attributed to it; attributions point at existing organizations and quota ids stay distinct |
| `QuotaRuns.StepSound` | app/services/quota_service.py:323-523 | one committed transaction of any kind keeps the books equal to a recount, whatever happened to memberships before it |
| `QuotaRuns.EmptySound` | app/services/quota_service.py:323-523 | runs can start: the empty books are sound |
| `QuotaRuns.ClampNeverBites` | app/services/quota_service.py:46-53 | on sound books a counter holds at least what the active documents about to be freed weigh, so the clamp at zero alters nothing |
| `QuotaRuns.AppliedSound` | app/services/quota_service.py:323-382 | a document write paired with its adjustment (upload, restore, trash, resize, delete) keeps the books |
| `QuotaRuns.FreedSound` | app/services/quota_service.py:384-400 | freeing a list of documents while trashing or deleting them keeps the books |
| `QuotaRuns.ForgotSound` | app/services/account_erasure_service.py:371-526 | erasing a user keeps the books of everybody left |
| `Accounting.PairedWrite` | app/services/quota_service.py:323-382 | on balanced books, writing a row and moving the counters by what the row's weight changed leaves them balanced, without the clamp biting |
| `Accounting.OffsetKept` | app/services/quota_service.py:46-53 | from any books, drifted or not, such a write leaves every other counter as far off its recount as it was, and the counter moved if and only if the clamp does not bite |
| `Accounting.AdjustedMeans` | app/services/quota_service.py:323-382 | column by column: an entering document gets the charged organization recorded and nothing else changed; the counter recorded on the document moves by the delta, stopping at zero, and no other row does; an organization that does not exist is a failure, and a missing personal row is opened |
| `Accounting.BulkEqualsOneByOne` | app/services/quota_service.py:384-400 | a bulk release leaves the same books as freeing the same documents one by one in any order, also from drifted counters where the clamp bites and from a missing quota row |
| `Accounting.DrainedLowers` | app/services/quota_service.py:444-523 | a sequence of clamped decrements lowers each counter by its sum, down to zero at most, and opens rows only for the personal counters it names |
| `Accounting.HandOverThenDrop` | app/services/quota_service.py:402-442 | handing the documents of organizations to personal quotas and then dropping the organizations leaves sound books; in between only the doomed organizations' counters are stale |
| `Accounting.HandedOverBalance` | app/services/quota_service.py:402-442 | between hand-over and drop exactly the doomed organizations' counters differ from a recount: they still hold the old one |
| `Accounting.HandedMeans` | app/services/quota_service.py:402-442 | a handed-over document loses its organization and no other column, and other documents stay as they are |
| `Accounting.PurgeKeepsBalance` | app/tasks/storage_tasks.py:32-133 | a trash purge needs no counter move |
| `QuotaService.CountingTenantId` | app/services/quota_service.py:464-476 | column by column: an organization is answered only with an active membership row of the owner's quota id in an active organization, and none only when there is no quota row or no such membership; of several, one on a tenant plan comes first, then owner before admin before manager before member before viewer |
| `QuotaService.ActiveMemberships` | app/services/quota_service.py:699-748 | exactly the organizations with an active membership row of the quota id and an active status, in that order of roles |
| `QuotaService.IncrementUserStorage` | app/services/quota_service.py:478-507 | the upsert of a personal counter, clamped at zero; a missing row is opened as a free-plan row, by a zero delta too |
| `QuotaService.IncrementTenantStorage` | app/services/quota_service.py:509-523 | an organization's counter moves clamped at zero; a missing row is an error that changes nothing |
| `QuotaService.MoveCounter` | app/services/quota_service.py:444-462 | only the counter recorded on the document moves, and a zero delta opens no row |
| `QuotaService.AdjustDocumentStorage` | app/services/quota_service.py:323-382 | an entering document is charged to the owner's current counter, which is recorded on it; afterwards the recorded counter moves |
| `QuotaService.GroupByCounter` | app/services/quota_service.py:384-400 | the accumulated groups sum, counter by counter, to the documents released |
| `QuotaService.ReleaseDocuments` | app/services/quota_service.py:384-400 | the books afterwards are those of freeing every document once |
| `QuotaService.HandOverTenantDocuments` | app/services/quota_service.py:402-442 | every document of the organizations becomes its owner's, active bytes and counts move to the owners' counters, and no other counter moves |
| `QuotaService.SumByCounter` | app/services/quota_reconciliation.py:84-153 | the recount of every counter from the active documents |
| `Reconciliation.PersonalDrifts` | app/services/quota_reconciliation.py:84-120 | reports exactly the personal counters that differ from a recount, rows missing included |
| `Reconciliation.TenantDrifts` | app/services/quota_reconciliation.py:123-153 | reports exactly the organization counters that differ from a recount |
| `Reconciliation.ReconcileStorageCounters` | app/services/quota_reconciliation.py:63-81 | reports exactly the drifted counters; with apply every counter then equals its recount, without it nothing changes |
| `Reconciliation.Correct` | app/services/quota_reconciliation.py:156-182 | one counter is set to its recount and nothing else; writing it again changes nothing |
| `Reconciliation.NothingToReport` | app/services/quota_reconciliation.py:63-81 | the report is empty exactly when the books are balanced |
| `Reconciliation.SecondRunFindsNothing` | app/services/quota_reconciliation.py:63-81 | after a run that applied its corrections, a second run reports nothing |
| `Erasure.PlanTenants` | app/services/account_erasure_service.py:275-305 | the organizations that block the erasure are those the user owns among others; those that go are exactly those the user is alone in |
| `Erasure.ErasedLeavesNoTrace` | app/services/account_erasure_service.py:371-526 | after the erasure no modelled row names the user: not by user id, not by a quota id loaded before or current, not by an e-mail address loaded before, in lower case; of the user's log rows that stay the e-mail, name, IP address and user agent are gone |
| `Erasure.ErasedStaysReferential` | app/services/account_erasure_service.py:588-681 | after the erasure every foreign key points at an existing row, also when the identity was loaded before others changed the tables |
| `Erasure.ErasedKeepsBooks` | app/services/account_erasure_service.py:371-526 | after the erasure every surviving counter equals its recount |
| `Erasure.TenancyReferential` | app/services/account_erasure_service.py:588-681 | links of the user are given to the organization's first owner or removed, and memberships, links and invitations left all point at existing rows |
| `ErasedRows.IdentityMeans` | app/services/account_erasure_service.py:254-273 | the identity holds exactly the addresses of the account and of its quota row, trimmed and in lower case, and the id of that row |
| `ErasedRows.DocumentsLeft` | app/services/account_erasure_service.py:485-489 | exactly the user's documents go; the others keep every column, but for an organization that goes |
| `ErasedRows.AccountsLeft` | app/services/account_erasure_service.py:611-625 | organizations go exactly when doomed, the user's quota row and identity go, and every other such row keeps all but its usage |
| `ErasedRows.VersionsLeft` | app/services/account_erasure_service.py:463-489 | versions go exactly with the user's documents; the others lose the user as creator and nothing else |
| `ErasedRows.ActivitiesLeft` | app/services/account_erasure_service.py:408-436 | activity rows go exactly when they are the user's or on the user's documents; the others stay as they were |
| `ErasedRows.LogsLeft` | app/services/account_erasure_service.py:485-518 | a log row goes exactly when it is on a document of the user's, or the user's and on no document and no organization; a row of the user's that stays has no e-mail, name, IP address or user agent any more and keeps its document and organization; every other row stays as it was |
| `ErasedRows.InvitationsLeft` | app/services/account_erasure_service.py:449-489 | share invitations go exactly when on the user's documents, or sent by or to the user, by id or by address in any case; the others stay as they were |
| `ErasedRows.SharesLeft` | app/services/account_erasure_service.py:444-489 | shares go exactly when with the user or on the user's documents; the others lose the user as creator and revoker, and references to invitations that went |
| `ErasedRows.NotificationsLeft` | app/services/account_erasure_service.py:440-489 | notifications go exactly when to the user or on the user's documents; the others lose references to invitations that went |
| `ErasedRows.MembersLeft` | app/services/account_erasure_service.py:611-682 | memberships go exactly when the user's or in a doomed organization, and organization invitations exactly when sent, accepted or received by the user or of a doomed organization; the others stay as they were |
| `ErasedRows.LinksLeft` | app/services/account_erasure_service.py:646-678 | a link goes with the user's document, with a doomed organization, or when the user added it and nobody else owns the organization; one the user added passes to the owner who joined first, any other stays as it was |
| `ErasedRows.GrantsRemoved` | app/services/account_erasure_service.py:440-462 | the counts of notifications, shares and invitations in the report are by how much the tables shrank |
| `ErasedRows.GrantsMasked` | app/services/account_erasure_service.py:463-484 | the counts of masked rows in the report are the rows whose creator or revoker changed |
| `ErasedRows.LogsCounted` | app/services/account_erasure_service.py:494-518 | the two counts of log rows are the rows gone and the rows whose user changed |
| `ErasedRows.ActivitiesCounted` | app/services/account_erasure_service.py:408-436 | kind by kind, the activity rows counted are those that went |
| `ErasureService.EraseRows` | app/services/account_erasure_service.py:371-526 | the statements, run in the source's order, reach exactly the erased state; only the deletion of the quota row can be refused, and not when the user's quota row is the one loaded; on a user without rows the report is all zeros |
| `ErasureService.EraseTenancy` | app/services/account_erasure_service.py:588-681 | memberships, links and invitations go or are reassigned, former members' documents are handed over first, and the organizations then drop without a refusal; each count of the report is by how much its table shrank |
| `ErasureService.ReleaseOwned` | app/services/account_erasure_service.py:382-406 | the user's active documents are freed from their recorded counters |
| `ErasureService.ReassignLinks` | app/services/account_erasure_service.py:646-678 | each link the user added goes to the longest-standing owner left in its organization, or away when there is none; the removed are by how many the links are fewer, the reassigned are the rest of those the user added |
| `ErasureService.EraseActivities` | app/services/account_erasure_service.py:408-436 | activity rows of the user or on the user's documents go, with an exact count of each kind |
| `ErasureService.EraseGrants` | app/services/account_erasure_service.py:440-483 | shares, invitations and notifications to or from the user go, and the rest is masked, with exact counts |
| `ErasureService.EraseLogs` | app/services/account_erasure_service.py:494-518 | purely personal log rows go, the others lose the actor, with exact counts |
| `ErasureService.DropTenants` | app/services/account_erasure_service.py:611-625 | after the hand-over no document points at the organizations, so their deletion is not refused |
| `ErasureService.FindFirstOwner` | app/services/account_erasure_service.py:655-666 | the longest-standing owner of the organization outside the user's own rows, if any |
| `ErasureService.QuotaUnnamed` | app/services/account_erasure_service.py:521-525 | when the quota row is deleted nothing references it any more, if it was among those loaded or opened on the way |
| `ErasureService.EraseQuota` | app/services/account_erasure_service.py:523-525 | deletes the quota row; refused exactly while a membership, link or invitation names it |
| `AccountErasure.Erase` | app/services/account_erasure_service.py:200-250 | with other transactions changing the tables while the objects go: an invalid target and a refusal by the first check leave rows and objects alone; after any other outcome the objects were deleted or begun to be, a refusal by the second check included; every failure leaves the rows as others left them; a success leaves no row, no dangling key, sound books and no object under the prefixes; a traceless user gives an all-zero report |
| `AccountErasure.PreCheck` | app/services/account_erasure_service.py:275-337 | refuses exactly for shared organizations the user owns, or a running subscription of the user or of an organization that would go |
| `AccountErasure.BlockedMeans` | app/services/account_erasure_service.py:275-337 | column by column: the erasure is refused if and only if the user owns an organization with another member, has a subscription that is active, trialing, past due, unpaid or incomplete and does not end with the period, or is alone in an organization with a subscription that is not cancelled |
| `AccountErasure.PlannedMeans` | app/services/account_erasure_service.py:275-305 | the organizations that go are exactly those with a membership of the user and of nobody else |
| `AccountErasure.RemainingMeans` | app/services/account_erasure_service.py:341-354 | the objects that go are exactly those under documents/<id>/ and thumbnails/<id>/, the files of all versions of the user's documents, and their thumbnails |
| `AccountErasure.DeleteObjects` | app/services/account_erasure_service.py:341-354 | on success all objects under both prefixes and all recorded keys are gone and nothing else; on failure only such objects are |
| `AccountErasure.PrefixesApart` | app/services/account_erasure_service.py:341-342 | no key lies under the prefixes of two different users |
| `AccountErasure.SlashedPrefixInside` | app/services/account_erasure_service.py:210-211 | why an id with a slash is refused: its prefix lies inside another user's |
| `AccountErasure.RetriesConverge` | app/services/account_erasure_service.py:200-250 | after any number of failed attempts, wherever they struck and whatever others wrote meanwhile, a retry erases the rows from the tables as others left them; of the objects none is left that is the user's, and none is gone that never was |
| `AccountErasure.UndisturbedRetries` | app/services/account_erasure_service.py:200-250 | when nobody else writes, the retries end in a state the undisturbed erasure reaches: same rows, same objects |
| `AccountErasure.ObjectsNeverOutliveRows` | app/services/account_erasure_service.py:200-250 | of a user with rows before and among those others left, the rows are gone if and only if the erasure succeeded, and then no object that was the user's is left; otherwise an object left whose row others left too still has it |
| `AccountErasure.ErasedAgainIsTraceless` | app/services/account_erasure_service.py:200-250 | an erased account is traceless for any later run |
| `TrashPurge.Purge` | app/tasks/storage_tasks.py:32-133 | all documents trashed before the cutoff go, batch by batch, as in one deletion, with an exact count; a database failure keeps the committed batches; only files recorded for purged documents are deleted, all but those whose deletion failed |
| `TrashPurge.DeleteBatch` | app/tasks/storage_tasks.py:66-108 | a batch of at most 200 goes with all rows that hang from it, and every file it recorded is noted before its row goes |
| `TrashPurge.DeleteTwice` | app/tasks/storage_tasks.py:66-108 | cascading deletes in two batches leave the tables of one delete of both |
| `TrashPurge.PurgeIsSafe` | app/tasks/storage_tasks.py:32-133 | a purge, complete or cut short, keeps foreign keys and books and, as it was, every document that is not trashed, has no time of deletion or was trashed at the cutoff or later; a complete one leaves only such documents |
| `TrashPurge.PurgeSpares` | app/tasks/storage_tasks.py:66-108 | with the documents go exactly their versions, links, logs and share invitations; every other row of these and all other tables stay as they were |
| `TrashPurge.PurgeSparesShares` | app/tasks/storage_tasks.py:66-108 | shares and notifications go exactly with their documents; the others lose only references to invitations that went |
| `TrashPurge.FilesMeans` | app/services/document_storage_cleanup.py:23-37 | the files that go are those of all versions of the purged documents and their thumbnails |
| `TrashPurge.RetriedPurge` | app/tasks/storage_tasks.py:125-127 | a purge cut short and run again reaches the state of one that was not |
| `CollaborationRuns.RunKeepsInv` | app/services/collaboration_service.py:58-484 | in every run of transactions in any interleaving there is at most one lock row per element, each held through a session of its user on its document, and at most one active session per user and document |
| `CollaborationRuns.LockIsExclusive` | app/services/collaboration_service.py:273-382 | once a lock is granted, another user is granted it only after the full term, or after a step that freed it: the holder's release, or the end of its session |
| `CollaborationRuns.HolderKept` | app/services/collaboration_service.py:273-345 | through any stretch of a run before the lock's expiry in which nothing frees it, the holder keeps it, for at least as long |
| `CollaborationRuns.StepKeepsHolder` | app/services/collaboration_service.py:347-484 | a step ends an unexpired lock if and only if it is one of the freeing ones |
| `CollaborationRuns.GrantMeans` | app/services/collaboration_service.py:273-345 | granted: exactly one row for the element, the asker's, for the full term; refused: nothing changes and another user's unexpired row is there |
| `CollaborationRuns.NeverSeveral` | app/services/collaboration_service.py:77-92 | fetching the session to reactivate, or the lock to judge, never finds several rows |
| `CollaborationRuns.LeaveFrees` | app/services/collaboration_service.py:128-171 | a leave ends the session and frees exactly its locks if and only if one row carries the socket; otherwise nothing changes |
| `CollaborationRuns.OneJoinLeaves` | app/services/collaboration_service.py:144-149 | a socket that joined at most once always finds at most one row to leave |
| `CollaborationRuns.RejoinedCannotLeave` | app/services/collaboration_service.py:144-149 | once a socket has left a session, at every later point of every run a leave or disconnect on it fails, and frees no lock, if and only if another row carries the socket, as its active session does after it joined again |
| `CollaborationRuns.RejoiningFails` | app/services/collaboration_service.py:128-171 | join, leave, join on one socket: the session is active and leaving changes nothing |
| `CollaborationRuns.FreedWereListed` | app/api/websocket.py:503-513 | the locks a leave frees were all listed before it, but those asked for through the session in between |
| `CollaborationRuns.RunContinues` | app/services/collaboration_service.py:58-484 | whatever transactions run, session rows stay, of the same user on the same document |
| `CollaborationRuns.StepKeepsActiveHolders` | app/services/collaboration_service.py:273-345 | a step keeps all locks held through live sessions unless it grants one to a session that ended after it was read |
| `CollaborationRuns.HeldThroughEndedIff` | app/api/websocket.py:591-608 | at any point of any run a lock is held through a session that has ended if and only if its row was inserted for a request through that session made after it ended, which the handler allows by reading the session first |
| `CollaborationRuns.EndedHolderKept` | app/services/collaboration_service.py:128-484 | until it expires, a lock held through an ended session stays if and only if there is no release by its user and no leave on the session's socket while that carries the session's row alone: joins, sweeps and other leaves do not free it |
| `CollaborationRuns.LockOutlivesSession` | app/services/collaboration_service.py:128-484 | a concrete run: join, leave, a late request, a sweep of sessions; nobody is on the document, and the element is refused to everybody else for the full term |
| `CollaborationRuns.ColorsStayApart` | app/services/collaboration_service.py:486-519 | as long as a document never has more than twelve active users their colours are pairwise distinct |
| `CollaborationRuns.ColorsApartIffTwelve` | app/services/collaboration_service.py:39-52 | up to any point of any run a document's users had pairwise distinct colours throughout if and only if there were never more than twelve at once |
| `CollaborationRuns.ColorIsFree` | app/services/collaboration_service.py:486-519 | a newcomer among fewer than twelve gets a colour nobody uses |
| `CollaborationService.CollaborationManager.CreateSession` | app/services/collaboration_service.py:58-126 | reactivates the user's active session with the new socket, or opens one with a free colour |
| `CollaborationService.CollaborationManager.RemoveSession` | app/services/collaboration_service.py:128-171 | the row with the socket ends and its locks go; with several rows it raises |
| `CollaborationService.CollaborationManager.LockedElements` | app/services/collaboration_service.py:173-210 | the elements locked through the socket's session |
| `CollaborationService.CollaborationManager.AcquireLock` | app/services/collaboration_service.py:273-345 | extends the asker's own lock, takes over an expired one by delete and insert, refuses another's |
| `CollaborationService.CollaborationManager.ReleaseLock` | app/services/collaboration_service.py:347-382 | only the user's own lock on the element goes, row by row; released exactly when a row went, and then the element has no lock row |
| `CollaborationRuns.ReleaseFreesElement` | app/services/collaboration_service.py:347-382 | releasing a held lock makes the element free for anybody at any time; releasing another's changes nothing |
| `CollaborationService.CollaborationManager.GetDocumentLocks` | app/services/collaboration_service.py:384-419 | deletes the document's expired locks and lists those left |
| `CollaborationService.CollaborationManager.CleanupExpiredLocks` | app/services/collaboration_service.py:421-442 | exactly the unexpired rows are left and the others counted; every later request is answered as it would have been |
| `CollaborationRuns.SweepIsInvisible` | app/services/collaboration_service.py:421-442 | sweeping expired locks changes no answer to a lock request from then on |
| `CollaborationService.CollaborationManager.CleanupInactiveSessions` | app/services/collaboration_service.py:444-484 | ends every idle session with its locks, and counts them |
| `CollaborationService.CollaborationManager.AssignUserColor` | app/services/collaboration_service.py:486-519 | the first colour no active user of the document has, or the first of all |
| `CollaborationService.CollaborationManager.UpdateCursor` | app/services/collaboration_service.py:212-248 | every row with the socket has the new cursor and was seen now, even when it then raises over several; every other row and every lock stays |
| `CollaborationRuns.CursorKeepsAlive` | app/services/collaboration_service.py:212-248 | a cursor move keeps the socket's sessions from every sweep for the whole timeout |
| `CollaborationRuns.JoinMeans` | app/services/collaboration_service.py:58-126 | a join leaves one active session of the user on the document, with this socket and seen now, so that no sweep within the timeout ends it: the session there was, its name, colour, cursor and start kept, or a new one; no other session and no lock changes |
| `CollaborationRuns.SessionSweepMeans` | app/services/collaboration_service.py:444-484 | a sweep ends exactly the active sessions last seen before the timeout and frees exactly the locks held through them; every other row stays as it was |
| `CollaborationService.Gateway.Join` | app/api/websocket.py:284-456 | refused without document, user or access; otherwise the user's one active session on the document carries this socket |
| `CollaborationService.Gateway.Connect` | app/api/websocket.py:186-216 | a socket is accepted exactly when its user is authenticated, and is on no document |
| `CollaborationService.Gateway.Disconnect` | app/api/websocket.py:219-281 | as a leave, and the connection is gone |
| `CollaborationService.Gateway.Leave` | app/api/websocket.py:470-543 | with other transactions between its two: announces the locks held when they were listed, frees those held when the session is removed; over several rows it fails after forgetting the document, and frees none |
| `CollaborationService.Gateway.CleanUp` | app/api/websocket.py:1024-1044 | expired locks, then sessions idle for sixty minutes with their locks |
| `CollaborationService.Gateway.ElementLock` | app/api/websocket.py:559-648 | asks with a session of this socket's user on its document, active when it was found; the answer is as of the tables others left by then |
| `CollaborationService.Gateway.ElementUnlock` | app/api/websocket.py:651-712 | releases only the user's own lock, and reports not owned exactly when nothing changed |
| `TextChunking.ChunkTextForEmbedding` | app/services/text_chunking.py:106-161 | errors exactly for limits not positive; every chunk is non-empty, stripped and within the limit; the chunks are the uncapped ones or their first max_chunks, and those hold every non-whitespace character in order |
| `TextChunking.ChunksHoldTheText` | app/services/text_chunking.py:81-150 | the words of the uncapped chunks are the words of the text in order, with exactly the over-long ones cut |
| `TextChunking.ChunksAreLossless` | app/services/text_chunking.py:106-150 | only whitespace is lost; and no word is cut if and only if every word fits |
| `TextChunking.ParagraphsStayWhole` | app/services/text_chunking.py:136-145 | a paragraph that fits lies whole within one chunk |
| `ChunkStructure.ParagraphStaysWhole` | app/services/text_chunking.py:136-145 | the stripped text between two consecutive blank lines lies whole within one chunk if it fits |
| `ChunkStructure.SentenceStaysWhole` | app/services/text_chunking.py:81-103 | within a paragraph, the stripped text between two consecutive sentence boundaries lies whole within one chunk if it fits |
| `ChunkStructure.StretchIsAPiece` | app/services/text_chunking.py:44-46 | every non-empty stretch between consecutive boundaries is one of the pieces of the split |
| `ChunkStructure.ChunksAreStructured` | app/services/text_chunking.py:81-150 | the chunks are related to the text level by level: a fitting paragraph is one piece, of another the sentences' pieces are packed with spaces, where a fitting sentence is one piece and of another the words are packed; the paragraphs' pieces are packed with blank lines |
| `TextChunking.ParagraphsHaveNoBlankLine` | app/services/text_chunking.py:136-137 | paragraphs are stripped, non-empty and contain no blank line |
| `TextChunking.ParagraphBoundary` | app/services/text_chunking.py:32-33 | a paragraph boundary starts exactly at a newline followed, after blanks only, by a newline, and takes all newlines after it |
| `TextChunking.SentenceBoundary` | app/services/text_chunking.py:35-38 | a sentence boundary starts exactly at whitespace after a terminator, or at a newline |
| `TextChunking.WordSplitIsWords` | app/services/text_chunking.py:40-41 | splitting on whitespace and dropping empty pieces gives the maximal non-whitespace runs |
| `TextChunking.HardSplitFits` | app/services/text_chunking.py:49-55 | windows of exactly max characters but the last, that concatenate to the token |
| `TextChunking.SentenceMeans` | app/services/text_chunking.py:90-101 | the pieces of a sentence fit, and hold its words |
| `TextChunking.ParagraphMeans` | app/services/text_chunking.py:81-103 | the pieces of a paragraph fit, and hold its words |
| `TextChunking.PackPieces` | app/services/text_chunking.py:58-78 | the loop computes the greedy packing |
| `TextChunking.ChunkParagraph` | app/services/text_chunking.py:81-103 | the loop computes the pieces of a paragraph |
| `TextChunking.NoWordsNoChunks` | app/services/text_chunking.py:133-134 | blank text gives no chunk |
| `Packing.PackIsOptimal` | app/services/text_chunking.py:58-78 | greedy packing uses the fewest windows of any order-preserving grouping that fits |
| `Packing.PackIsAGrouping` | app/services/text_chunking.py:58-78 | the windows are themselves such a grouping, joined, so the fewest is attained |
| `Packing.PackedIffPack` | app/services/text_chunking.py:58-78 | the windows are the one list that joins the pieces in order such that each window fits and none could take the next piece too |
| `Packing.StaysAhead` | app/services/text_chunking.py:58-78 | a shorter window in progress never costs a window more, and any costs at most one more than any other |
| `Packing.PackKeepsWhole` | app/services/text_chunking.py:58-78 | every piece lies whole within one window |
| `Packing.PackFromFits` | app/services/text_chunking.py:58-78 | windows of stripped fitting pieces are stripped and fit |
| `Texts.StripMeans` | app/services/text_chunking.py:44-46 | stripping loses no word, and gives the empty text exactly when there was none |
| `PageEditing.EditsKeepLockstep` | app/services/document_service.py:416-618 | in every run of page additions with a size, deletions, rotations and reorders, the engine's bytes, the session's two copies and the scene graph agree page by page; numbers are 1..n and the page count is n, at least 1 |
| `PageEditing.EditKeepsLockstep` | app/services/document_service.py:416-618 | an edit at a position in range breaks lockstep if and only if it adds a page whose width or height is not positive, since the size is validated after the bytes are written; any other refused edit changes nothing |
| `PageEditing.RefusedMeans` | app/services/document_service.py:416-618 | which outcome each edit has, in terms of its own arguments and the number of pages |
| `PageEditing.AddPlaces` | app/services/document_service.py:416-474 | the blank page stands at its position in both lists, and those behind it moved on by one |
| `PageEditing.DeletePlaces` | app/services/document_service.py:476-519 | in both lists the page is gone and those behind it moved up by one |
| `PageEditing.RotatePlaces` | app/services/document_service.py:521-568 | the new rotation is the old one plus the angle, up to a full turn, in both lists, and no other page changes |
| `PageEditing.ReorderPlaces` | app/services/document_service.py:570-618 | at each place stands the page the order names there, in both lists |
| `PageEditing.OrderIsDistinct` | app/services/document_service.py:592 | the service's check on the order holds exactly for lists of n different numbers from 1 to n |
| `PageEditing.ReorderKeepsPages` | app/services/document_service.py:570-618 | a reorder keeps every page with its elements, once |
| `PageEditing.DeleteUndoesAdd` | app/services/document_service.py:416-519 | deleting the page just added restores the whole editing state |
| `PageEditing.RotateUndoesRotate` | app/services/document_service.py:521-568 | turning back restores the whole editing state |
| `PageEditing.ReorderUndoesReorder` | app/services/document_service.py:570-618 | reordering by the inverse order restores the whole editing state |
| `DocumentService.DocumentService.AddPage` | app/services/document_service.py:416-474 | the new state of engine, handle, session and scene graph, the one after a bad size included; other documents are untouched |
| `DocumentService.DocumentService.DeletePage` | app/services/document_service.py:476-519 | refuses the last page and numbers out of range without a change; else both lists lose that page and are renumbered |
| `DocumentService.DocumentService.RotatePage` | app/services/document_service.py:521-568 | validates the angle, then sets the absolute rotation in both lists |
| `DocumentService.DocumentService.ReorderPages` | app/services/document_service.py:570-618 | refuses anything but a permutation; else both lists are rearranged alike |
| `DocumentService.DocumentService.UploadDocument` | app/services/document_service.py:115-207 | each refusal closes what it opened; an accepted upload is in lockstep exactly when it has a page |
| `DocumentService.PDFEngine.ReorderPages` | app/core/pdf_engine.py:204-234 | checks the indices as a set, so a repeated index passes |
| `DocumentService.PDFEngine.AddPage` | app/core/pdf_engine.py:236-276 | inserts a blank page into the stored bytes |
| `DocumentService.PDFEngine.DeletePage` | app/core/pdf_engine.py:278-304 | removes a page, or raises out of range without a change |
| `DocumentService.PDFEngine.RotatePage` | app/core/pdf_engine.py:306-340 | replaces the absolute rotation, or raises without a change |
| `DocumentService.LegacyDocumentProxy.Select` | app/core/pdf_engine.py:531-545 | delegates the reorder and takes over the engine's new bytes |
| `Elements.EditKeepsIdsDistinct` | app/services/element_service.py:105-385 | element ids stay distinct across all pages if and only if no successful edit brings in an id already there: a given id is not checked on creation |
| `Elements.EditsKeepIdsDistinct` | app/services/element_service.py:105-385 | over any sequence of edits with fresh ids, element ids stay distinct |
| `Elements.DeleteDropsOne` | app/services/element_service.py:248-281 | delete drops every element with the id from its page, hence exactly that element when the id occurs once there |
| `Elements.MoveKeepsAll` | app/services/element_service.py:283-349 | move keeps the collection of elements, but for new bounds, when the id occurs once on its page; otherwise the other elements of that id are lost |
| `Elements.MovePlaces` | app/services/element_service.py:283-349 | the moved element, with the new bounds if given, is the last of its target page; the others there and those of its source page are as before without that id, in their order; no other page changes |
| `Elements.DeletePlaces` | app/services/element_service.py:248-281 | the first page that has the id keeps its other elements in their order; no other page changes |
| `Elements.UpdatePlaces` | app/services/element_service.py:166-246 | the first element with the id, in page order, has the changed fields at its place; nothing else changes |
| `Elements.CreatePlaces` | app/services/element_service.py:105-164 | the new element, with the given id or the generated one, is the last of its page; nothing else changes |
| `Elements.DuplicatePlaces` | app/services/element_service.py:351-385 | the copy, shifted and under the generated id, is the last of the target page, or of its original's when none is given; nothing else changes |
| `Elements.OutcomeMeans` | app/services/element_service.py:105-385 | each edit fails for the first of its reasons that applies: a page number out of range, an id on no page, an unknown type, rejected fields |
| `Elements.LocateMeans` | app/services/element_service.py:78-103 | the element found is the first with the id in page order, and none is found exactly when no page has it |
| `Elements.UpdateReplacesOne` | app/services/element_service.py:166-246 | update replaces one element, keeping its id |
| `Elements.CreateAddsOne` | app/services/element_service.py:105-164 | create adds one element to the collection |
| `Elements.DuplicateAddsOne` | app/services/element_service.py:351-385 | duplicate adds one shifted copy under the generated id |
| `Elements.BatchIsItsSuccesses` | app/services/element_service.py:387-445 | a batch leaves the pages that its successful operations alone would, which all succeed alone |
| `ElementService.ElementService.BatchOperations` | app/services/element_service.py:387-445 | one result per operation, in order, failures caught; the pages are those of the operations applied one after the other |
| `ElementService.ElementService.GetElement` | app/services/element_service.py:78-103 | the first element with the id in page order, and its page's number |
| `ElementService.ElementService.UpdateElement` | app/services/element_service.py:166-246 | the new pages, or the reason nothing changed |
| `ElementService.ElementService.DeleteElement` | app/services/element_service.py:248-281 | the new pages, or the reason nothing changed |
| `ElementService.ElementService.MoveElement` | app/services/element_service.py:283-349 | the new pages, or the reason nothing changed |
| `ElementService.ElementService.CreateElement` | app/services/element_service.py:105-164 | the new pages, or the reason nothing changed |
| `ElementService.ElementService.DuplicateElement` | app/services/element_service.py:351-385 | the new pages, or the reason nothing changed |
| `HistoryScripts.UndoIsExactIffVersionsAgree` | app/services/history_service.py:127-167 | after any recordings and any undos, redos and jumps, exact or not: undo(k) brings back exactly the state recorded k entries before, in every run with these lists, page counts and jumps, if and only if the page counts agree and every page the target's list leaves out has the same version shown and recorded there, versions being those the same script gives when each listed page gets a new one: known before the call |
| `HistoryScripts.JumpIsExactIffVersionsAgree` | app/services/history_service.py:169-243 | the same for going to any position, by redo, undo or goto |
| `HistoryScripts.RunFollows` | app/services/history_service.py:81-243 | every run of a script shows and records, page by page, what the version run says was last written there |
| `HistoryScripts.JumpsExactIffCovered` | app/services/history_service.py:81-243 | on a document of a fixed number of pages: every undo, redo and goto of a script is exact in every run of it, if and only if at each of them the target's list is empty or has every page listed on the way |
| `HistoryScripts.CoveredUndoMisses` | app/services/history_service.py:295-351 | a concrete run in which an undo whose target covers the way leaves an edit standing, because an earlier undo was not covered |
| `HistoryRuns.UndoIsExactIffCovered` | app/services/history_service.py:127-167 | the special case of runs whose earlier jumps were all covered: undo(k) is exact in every such run that ends with these affected lists if and only if the target's list is empty or has every page listed by the entries after it |
| `HistoryRuns.JumpIsExactIffCovered` | app/services/history_service.py:295-348 | a jump between any two positions is exact in all histories in which each list names every page that differs from the entry before, if and only if the target covers the way |
| `HistoryRuns.RunStaysInSync` | app/services/history_service.py:81-243 | in every run of recordings that name the pages they changed and of undos, redos and jumps whose target covers the way, the pages shown are exactly those recorded at the current position, and 0 <= position < length <= max |
| `History.PageCountStays` | app/services/history_service.py:341-348 | no undo, redo or jump changes the number of pages, so a state of another number is never restored |
| `HistoryRuns.AddedPageStays` | app/services/history_service.py:341-348 | a concrete history in which undoing the addition of a page leaves it there |
| `History.UndoThenRedo` | app/services/history_service.py:127-208 | undo(k) then redo(k) comes back to the position for every k in range, and to the same pages if and only if no edit was left unrecorded |
| `History.PartialUndoMisses` | app/services/history_service.py:310-348 | a concrete history in which undo leaves an edit standing, because snapshots hold the affected pages only |
| `History.PushIsZipperPush` | app/services/history_service.py:81-125 | push drops the redo tail, then the oldest entry when the bound is passed |
| `History.UndoIsLeft` | app/services/history_service.py:127-167 | undo by k is k moves left in a zipper, stopping at its start |
| `History.RedoIsRight` | app/services/history_service.py:169-208 | redo by k is k moves right in a zipper, stopping at its end |
| `HistoryService.HistoryManager.PushState` | app/services/history_service.py:81-125 | one document's history becomes the pushed one, or is initialised; the others keep theirs |
| `HistoryService.HistoryManager.Undo` | app/services/history_service.py:127-167 | position, pages and the actions undone, latest first; steps not positive do nothing |
| `HistoryService.HistoryManager.Redo` | app/services/history_service.py:169-208 | position, pages and the actions redone, in order |
| `HistoryService.HistoryManager.GotoIndex` | app/services/history_service.py:210-243 | refused exactly outside the history; else position and pages move there |
| `HistoryService.HistoryManager.Clear` | app/services/history_service.py:281-293 | the document has no history any more; the others keep theirs |
| `HistoryService.HistoryManager.CreateSnapshot` | app/services/history_service.py:295-327 | stores the affected pages that exist, or all when no list is given |
| `HistoryService.HistoryManager.RestoreSnapshot` | app/services/history_service.py:329-351 | writes the stored pages back and leaves the others |
| `SessionRuns.RunIsMap` | app/repositories/redis_document_repo.py:165-561 | at every point of every run of creations, lookups, edits saved at once and deletions, with PDFs that have bytes: the cache is within its bound and in the order of last access, agrees with Redis, and both stand for the map the calls describe |
| `SessionRuns.LookupsAnswer` | app/repositories/redis_document_repo.py:278-406 | every lookup in every run answers as the map would |
| `SessionRuns.CachesTheMostRecent` | app/repositories/redis_document_repo.py:165-176 | in every run, creations, edits and deletions included, the cached documents are the most recently used ones, in the order of their last use |
| `Lru.HoldsTheMostRecent` | app/repositories/redis_document_repo.py:165-176 | after a trace of lookups alone they are as many as fit |
| `SessionCache.RedisDocumentSessionManager.GetSession` | app/repositories/redis_document_repo.py:278-406 | a hit or a reload gives the session the map stands for, moves it to the end and keeps bound, order and map |
| `SessionCache.RedisDocumentSessionManager.CreateSession` | app/repositories/redis_document_repo.py:182-276 | the map gains the session when its bytes are not empty; with empty bytes nothing is persisted |
| `SessionCache.RedisDocumentSessionManager.SaveSession` | app/repositories/redis_document_repo.py:506-561 | after a change to a live session, saving makes the map hold it |
| `SessionCache.RedisDocumentSessionManager.Edit` | app/repositories/redis_document_repo.py:506-561 | looking a session up, changing it and saving it changes the map exactly there |
| `SessionCache.RedisDocumentSessionManager.DeleteSession` | app/repositories/redis_document_repo.py:470-500 | the map loses the document |
| `SessionCache.RedisDocumentSessionManager.PushHistory` | app/repositories/redis_document_repo.py:605-653 | only the live session changes, and only when it is cached |
| `SessionCache.RedisDocumentSessionManager.AddToLocalCache` | app/repositories/redis_document_repo.py:165-176 | evicts the least recently used until there is room, then puts the session last |
| `SessionCache.SaveAndReload` | app/repositories/redis_document_repo.py:334-406 | a saved session comes back after eviction if and only if its bytes are not empty, and then with every field but the time of access |
| `SessionCache.HistoryRoundTrip` | app/repositories/redis_document_repo.py:126-163 | deserialising a serialised history gives it back |
| `SessionCache.PushMeans` | app/repositories/redis_document_repo.py:605-653 | after a push the new entry, with these columns, is last and current, its predecessor can be redone, before that are the entries as they were up to the old current one, and the bound is kept |
| `RateLimiting.NeverMoreThanTwice` | app/core/cache.py:271-313 | however late the EXPIRE commands arrive, no half-open window of window_seconds lets more than 2 * limit - 1 requests through |
| `RateLimiting.TwiceIsReached` | app/core/cache.py:271-313 | that bound is reached, for every limit and every window |
| `RateLimiting.SlidingOnlyUpToOne` | app/core/cache.py:258-263 | the documented sliding window, at most limit requests in any window, holds of every run if and only if the limit is at most one |
| `RateLimiting.RateLimiter.IsAllowed` | app/core/cache.py:271-313 | counts, sends EXPIRE when the key has none, allows up to the limit, and lets through when Redis fails |
| `Migration.CountersAddUp` | app/storage_backends/migration.py:66-105 | at every moment of every interleaving, scanned = copied + skipped + errors + handlers still open, and the bytes counted are those of the objects counted as copied |
| `Migration.ErrorFreeCopiesAll` | app/storage_backends/migration.py:31-105 | a finished run without errors leaves every listed key in the destination: without overwrite one that was there at the source's size as it was, any other with the source's data, metadata and content type, or application/octet-stream when that is missing or empty; no other key is touched |
| `Migration.SecondRunCopiesNothing` | app/storage_backends/migration.py:53-67 | without overwrite, a run over keys already there at the right size copies nothing and changes nothing, in any interleaving |
| `Migration.PresentIsNeverCopied` | app/storage_backends/migration.py:35-38 | without overwrite, a key that is there at the right size is never copied |
| `Migration.CopyOne` | app/storage_backends/migration.py:31-50 | skips only a key present at the listed size, or gone from the source by now; a copy has the source's data and metadata, and its content type or application/octet-stream when that is missing or empty |
| `Migration.MigrateObjects` | app/storage_backends/migration.py:53-105 | the batched loop scans each listed key once; a dry run changes nothing |
| `Migration.MigrationMeans` | app/storage_backends/migration.py:56-105 | what the loop has achieved when it returns: the counters add up, to the bytes; each listed key that did not fail was left alone where it was present at the right size and is not to be overwritten, and else has the source's data, metadata and content type; no other key changed |
| `Folders.PathTellsAncestry` | app/services/storage_service.py:120-166 | a folder g is a proper ancestor of f if and only if g's path followed by g's id and a slash begins f's path |
| `Folders.PathIsAbove` | app/services/storage_service.py:142-155 | a folder's path spells the ids above it, root first |
| `Folders.StorageService.CreateFolder` | app/services/storage_service.py:120-166 | refuses a parent that is missing or another owner's; else adds one folder and keeps paths and parents well formed |

## Left out

- Storage accounting: bytes are natural numbers of unbounded size and stored counters are never negative or null; plan limits, API-call metering and quota summaries are not modelled.
- Document routes: they appear only as the events that pair a document write with its adjustment.
- ErasureService.EraseRows: plans, API keys, folders, signatures, verification rows and the free-text scrubbing of mentions are not modelled; the report's counts are stated statement by statement.
- ErasureService.EraseTenancy: the deactivation of plans linked to the organizations.
- Erasure.ErasedLeavesNoTrace: lower case is that of ASCII letters.
- AccountErasure.Erase: objects change by the erasure only, so an upload racing with it is not modelled and the second sweep finds nothing.
- Erasure: collaboration sessions, element locks and jobs are one table of rows with a kind, being deleted alike.
- Reconciliation: the order of the report.
- Database rows: ids generated by uuid4 come from a counter or a parameter, only their distinctness is used.
- Collaboration: interleavings inside one manager call, so a race between extending a lock and its expiry is one step or the other; message broadcasts other than the replies.
- CollaborationService.Gateway.Join: the access check is a parameter.
- CollaborationRuns.LockIsExclusive: locks are asked for with the default duration of 300 seconds, as the socket handler does.
- Text chunking: the log line on truncation.
- DocumentService.PDFEngine.AddPage: positions outside the page list, where the behaviour is pikepdf's insert.
- DocumentService.DocumentService.AddPage: positions outside 1..n+1, where the behaviour is pikepdf's insert; the page object's own check that its number is at least 1 (app/models/page.py:61) comes after the bytes are written, so a position below 1 that pikepdf accepts breaks lockstep at any size.
- PageEditing.EditKeepsLockstep: positions outside 1..n+1, likewise.
- DocumentService.DocumentService.UploadDocument: decryption and parsing errors are one outcome, and file name sanitising is not modelled.
- Page edits: undo is not part of the lockstep claim, since it never touches the engine's bytes; nor are reads that clear elements of live pages.
- ElementService.ElementService.CreateElement: the validation of an element's fields is a flag of what is asked for.
- ElementService.ElementService.UpdateElement: how dotted keys are merged and validated; the merged fields, or their refusal, are a parameter.
- History snapshots: identifiers and time stamps, and the round trip of a page through its dictionary form.
- HistoryService.HistoryManager.CreateSnapshot: affected page numbers below 1, which Python would count from the end.
- HistoryService.HistoryManager.PushState: affected page numbers below 1, likewise.
- Session cache: TTL expiry, Redis failures, other workers' copies, embed mappings, and the JSON encoding of scene graphs and time stamps, taken to be lossless.
- Session cache: uniqueness of entry indices after the oldest entry is dropped, which the code does not keep.
- RateLimiting.RateLimiter.IsAllowed: reset of a key, and the rounding of TTL to seconds.
- Migration: the thread pool, modelled as arbitrary interleavings of atomic backend calls; a put that fails is taken to write nothing.
- Migration.MigrateObjects: handlers run when they are waited for, one after the other; interleavings are covered by the runs.
- Folders: renaming and moving folders.
- Foreign calls: payment, mail, JWKS, S3, pikepdf, embeddings and encryption.
