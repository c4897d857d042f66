# The note-sync protocol of author, modelled and proved

This project models how the notes application *author* keeps notes and notebooks in step between a server, any number
of devices and an optional second database, and proves what its README promises: explicit version conflicts instead of
silent remote overwrites. Beside the protocol it covers the self-contained algorithms that the same guarantees lean on:
the Markdown ZIP archive, base32, the queue of mirror runs, the per-database write queue and the numbered names.

`dafny verify dfyconfig.toml` checks everything.

## The parts

- **Server** (`SyncSpec`, `Tables`, `Push`, `Pull`, `Names`, `Retry`, `Conflicts`, `ServerRuns`, `Retention`,
  `Repository`). Live rows,
  tombstones and the append-only change log, as a value with two primitive writes. A push is a function of the tables: one
  verdict per change, then the writes, notebooks before notes. A page of the log is a function of the five table states its
  five queries saw. The class `Repository` holds the same tables as fields and runs the source's loops on them.
- **Devices** (`Client`, `LocalSafety`, `ClientStore`). One record per note or notebook with version, `lastSyncedVersion` and
  status, and the conflicts waiting for the user. The class `LocalStore` runs the source's loops.
- **Account** (`System`, `DeviceSteps`, `SystemRuns`, `EditInFlight`, `SameTime`, `Convergence`). A server and any number of
  devices. The network may delay, repeat, reorder or drop everything: a push is any selection of what its device ever
  prepared, processed at any later time; any row the server ever held may be merged at any time; and pages of a mirror, in
  either direction and against any other database, come in between. Beside the state runs a history of what every version
  was, under which device's name, and what each device has been shown and told. `Convergence` follows one device through
  its pulls.
- **Mirror** (`Mirror`, `MirrorRules`, `MirrorPage`, `MirrorRuns`, `MirrorSync`, `MirrorSafety`, `MirrorFates`, `MirrorWorker`,
  and the runs written out in `MirrorLoss` and `MirrorDrop` with `MirrorExamples`). One page as a function of both databases, one pass with its cursor and
  mirrored set, three passes, and the loops on two `Repository` objects.
- **Loops and algorithms** (`SyncLoop`, `FreshNames`, `Zip`, `ZipArchive`, `Frontmatter`, `MarkdownNote`, `Base32`,
  `SyncQueue`, `WriteQueue`).

A note and a notebook are two cases of one `Entity`, and both live in one table keyed by owner, kind and id, because the
source treats them alike except where this model branches on the case. Times are the milliseconds of a valid date.
Content means what `recordsDiffer` can see: hash before text, notebook ids as a set. Word for word means all that was written:
texts and hashes, the times of creation, trashing and deletion, and the favourite mark.

## Where a promise does not hold as stated

- An answer to a push is matched to its record by version and time alone. When the record has another text by then, it is
  marked as synced with a text the server does not hold: `SystemRuns.SyncedMeansSynced` and `SystemRuns.AnswerHonestIff` say
  that this is exactly when, and `SameTime.SameTimeHidesAnEdit` is a run in which it happens. No silent overwrite does not
  depend on it.
- Notebook names are unique when each pushed notebook has one duplicate key, which the sync route demands. With a hash and a
  plain name a notebook can slip past the check: exactly when is `Names.PushKeepsNamesUniqueIff`, and
  `Names.TwoKeysSlipThrough` is a mirror push in which it happens.
- A copied note agrees with its original exactly when its notebooks are live on the target (`MirrorPage.CopiedNoteAgreesIff`),
  and a reference lost in the third pass goes unnoticed until the next synchronisation (`MirrorDrop.DroppedReferenceIsUnseen`).
- A mirror pass trusts the entities it wrote itself: `MirrorSafety.LostIffWrittenBefore` says that exactly then a page can
  replace what the users of the target wrote, and `MirrorLoss.EditDuringPassIsLost` is a pass that does.
- A loop of the mirror queue that throws after it took a request, with no other request, timer or call, forgets it, and so
  does the only restart on its way when it throws before it queues (`SyncQueue.NextKeepsIff`, with runs in
  `SyncQueue.ThrowForgetsARequest`, `SyncQueue.FailedRestartForgetsASync` and `SyncQueue.FailedRestartForgetsARequest`). In
  the source only closing a connection can throw there.
- A row that changes while its record is in conflict on a device is passed over by the pull. When the user then takes the
  server's side of the conflict, the record is synced with the older row (`Convergence.ChosenRowIsCurrentIff`).
- A printed note loses a heading of its own that equals the title, and CR LF pairs of its body become LF
  (`MarkdownNote.BodyReadsBackIff`). An archive with 65536 files or more, or longer names, does not read back
  (`ZipArchive.ReadsBackIff`); `createZipBytes` does not check this.

## Model

| member | source | states |
|---|---|---|
| SystemRuns.NoSilentOverwrite | apps/web/src/lib/server/repository.ts:1518-1807 | after any run of edits, pushes (delayed, repeated, reordered, lost), answers, merges, remote deletes, resolutions, server maintenance and mirror pages from or to any other database, a push that changes a record at version v comes from a device that merged v, whose name v bears, that resolved a conflict showing v, or that received the answer that v holds what it had pushed; or it leaves the content as it was; tombstones included |
| SystemRuns.ToldMeansSame | apps/web/src/lib/client/sync-store.ts:252-273 | a version a device was told about is one the server answered to a push of this device, with the pushed text and no reference but the pushed ones; what the server holds under it is word for word what some device prepared, or what a mirror brought |
| SystemRuns.HistoryIsWritten | apps/web/src/lib/server/repository.ts:1683-1796 | after any run, every version the server ever held is word for word (texts, hashes, dates, marks), and under the same name and time, a change some device prepared, with live references among those that were sent, or was brought by a page of a mirror |
| SystemRuns.SyncedMeansSynced | apps/web/src/lib/client/sync-store.ts:235-295 | in every reachable state a synced record is the server's record of its lastSyncedVersion (text, favourite, trash, deletion) or its deletion, if and only if its last answer did not find another text under the version and time that were pushed |
| SystemRuns.RunsStayOk | apps/web/src/lib/client/sync-store.ts:235-540 | the invariant behind these, over every run: each base is a version the device knows, each conflict shows a version the server held, each acceptance names a version whose text is the one pushed, each synced record is honest exactly unless marked |
| SystemRuns.BasesAreKnown | apps/web/src/lib/client/sync.ts:278-285 | a device never pushes on a base it has not merged, written, been shown in a resolved conflict or been told |
| EditInFlight.EditInFlightSurvives | apps/web/src/lib/client/sync-store.ts:252-273 | after any run a sync begins with a pending record; then any steps of any device and the server, among them an edit of it, until the answer to it arrives: the record is pending with the words of its last edit on the accepted version, and if the server still holds that version it accepts the edit; excluded are only discarding the record, settling a conflict about it, another answer about it, and a new sync that finds it a deletion the server never saw |
| EditInFlight.ActionKeepsFlight | apps/web/src/lib/client/sync-store.ts:235-857 | no other action takes the record out of flight, lowers its version to the pushed one, or changes the text last written |
| EditInFlight.PendingOnCurrentBaseIsAccepted | apps/web/src/lib/server/repository.ts:1565-1796 | after any run, a pending note or notebook whose base is the server's version is accepted word for word; only a notebook can be refused, and only for a duplicate name |
| SameTime.SameTimeHidesAnEdit | apps/web/src/lib/client/sync-store.ts:257-261 | there is a run (two conflicts of one note settled for the local side, both texts of the same time) after which a note is synced under the version the server holds with a text it does not hold |
| SystemRuns.AnswerHonestIff | apps/web/src/lib/client/sync-store.ts:257-273 | after any run, an answer matched by version and time leaves a synced record that is honest if and only if the record still has the pushed text |
| SystemRuns.MaintenanceOnlyBuries | apps/web/src/lib/server/repository.ts:1809-1897 | id deletes, cleanups and compactions leave an entity alone or remove its row; they never write content |
| SystemRuns.MirrorKeeps | apps/web/src/lib/server/remote-sync.ts:907-1035 | a mirror page, as source or as target and however it ends, keeps the account invariant: what it brings is a version of its own under the name it carries |
| Convergence.DeviceEndsEqual | apps/web/src/lib/client/sync.ts:236-478 | a device ends equal to the server: through any run of edits, pushes, answers heard late or lost, conflicts, resolutions and pages, with others writing between any two steps and inside a page, whenever a pull has come to the end of the log, each entity whose record is neither edited, nor in conflict, nor exempt is on the device exactly if it is on the server and with the same content, references included; exempt are, until a page lists them again, the records the user discarded, those a settled conflict was about, and those an answer found with another text than was pushed |
| Convergence.ChosenRowIsCurrentIff | apps/web/src/lib/client/sync-store.ts:538-540 | why a settled conflict is exempt: pages pass over a record in conflict, so the server's side that the user chooses afterwards is the server's row if and only if that row still has the content the conflict shows, and nothing later in the log will bring it |
| Convergence.RunsKeep | apps/web/src/lib/client/sync.ts:360-478 | the invariant behind it: each record waits for the server or the user, is exempt, has news beyond the pull cursor, or has the content a replica that only pulls would have; and each answer on its way is such news or names that content |
| SystemRuns.PushedAt | apps/web/src/lib/server/repository.ts:1713-1796 | what a push leaves at an entity is what was there, or word for word a change its device prepared, under that device's name, with no reference but the pushed ones |
| Conflicts.ConflictsAreGenuine | apps/web/src/lib/server/repository.ts:1407-1431 | every conflict of a push carries what was sent and has its reason: a row of another version than the base with other content (deleted or not, as the reason says), a tombstone the base does not name, or an active notebook of another id under one of the keys |
| Conflicts.DeletedRemoteShows | apps/web/src/lib/server/repository.ts:1433-1461 | the remote side shown for a deleted record is what was sent, deleted at the time, by the device and under the version of the tombstone |
| Conflicts.LoopActive | apps/web/src/lib/server/repository.ts:846-853 | the accepted names of the notebook loop are keys of active notebooks accepted earlier in the request |
| MirrorSync.MirrorAgreement | apps/web/src/lib/server/remote-sync.ts:1095-1114 | three passes without an error, with no copied note losing a reference, leave both databases with the same live content of every note and notebook, from any state of the two-cursor invariant and for any page split |
| MirrorDrop.DroppedReferenceIsUnseen | apps/web/src/lib/server/remote-sync.ts:1095-1114 | that no reference is lost has to be asked: a synchronisation from a state of the invariant, over pages whose rows fill the byte budget, that ends without an error and leaves a note with its reference on one side only |
| MirrorSync.SyncKeepsPairOk | apps/web/src/lib/server/remote-sync.ts:1063-1117 | a finished synchronisation re-establishes the two-cursor invariant and lowers no version or tombstone version on either side |
| MirrorSync.NewPairOk | apps/web/src/lib/server/remote-sync.ts:913-931 | any two consistent databases that were never mirrored satisfy the invariant |
| MirrorSync.PassFinishes | apps/web/src/lib/server/remote-sync.ts:907-1035 | a pass that ends leaves every entity agreed, or with a change of the target still to be mirrored |
| MirrorSync.PassKeepsMirrorOk | apps/web/src/lib/server/remote-sync.ts:1031-1033 | the invariant holds at every cursor a pass stores, also when references were dropped |
| MirrorSync.PageProgress | apps/web/src/lib/server/remote-sync.ts:935-950 | each page removes source rows or leaves the source alone and moves the cursor, so a pass ends |
| MirrorRules.DecisionsAreTheRules | apps/web/src/lib/server/remote-sync.ts:261-345 | the mirror's rules in times and versions: which listed entity is copied, removed on the target, removed on the source, or in dispute; a record or a deletion goes over a live record only if it is not older and of a higher version, and comes back over a deletion only if it is later, or at the same time by version and device |
| MirrorFates.DivergesIffDisputed | apps/web/src/lib/server/remote-sync.ts:598-879 | a page is given up exactly when it lists a dispute by these rules, and then nothing is written |
| MirrorFates.PageFate | apps/web/src/lib/server/remote-sync.ts:881-1005 | what becomes of each listed entity on any other page, however it ends: it arrives on the target word for word under its own name, time and version (one above a tombstone it replaces) unless its push is refused, or it is removed on the one side the rules name, or both sides stay as they are |
| MirrorRuns.PageNeverLowers | apps/web/src/lib/server/remote-sync.ts:881-905 | a mirror page, however it ends (also in a divergence or a conflict after deleting and committing), lowers no version or tombstone version on either side, and raises it wherever it changes anything |
| MirrorRuns.MirrorOkEvolves | apps/web/src/lib/server/remote-sync.ts:310-323 | the invariant survives whatever either database does between runs |
| MirrorRuns.MirrorOkAtFirst | apps/web/src/lib/server/remote-sync.ts:913-931 | it holds of any two databases at cursors 0 |
| MirrorRuns.PageKeepsMirrorOk | apps/web/src/lib/server/remote-sync.ts:951-1033 | one page moves the cursor without breaking the invariant |
| MirrorRuns.RunsStayTidy | apps/web/src/lib/server/repository.ts:1496-1516 | every reachable database stores the first notebook of a note as its primary one |
| MirrorPage.PageOutcome | apps/web/src/lib/server/remote-sync.ts:951-1005 | a page makes the two sides of an entity agree, or leaves both alone when its latest entry is not the page's to carry |
| MirrorPage.CopiedNoteAgreesIff | apps/web/src/lib/server/repository.ts:1496-1516 | a copied note keeps its content if and only if every notebook it names is live on the target |
| MirrorPage.SyncableRefs | apps/web/src/lib/server/repository.ts:1496-1516 | a stored note keeps exactly the live references, in the order they were sent, with the first as primary |
| MirrorSafety.UnmirroredLiveIsNeverLost | apps/web/src/lib/server/remote-sync.ts:310-323 | for every page sequence, the last page ending in any error or none, whatever happens to the source and whatever the users of the target do between pages: a target entity changed since it was last mirrored outward and kept live is left as it is by every page, unless a page copied equal content over it |
| MirrorSafety.ThroughEvolves | apps/web/src/lib/server/remote-sync.ts:907-1035 | the target stays consistent through any pages with changes between them, the last of which may end in any error, and no page lowers a version |
| MirrorSafety.LostIffWrittenBefore | apps/web/src/lib/server/remote-sync.ts:310-323 | a page of a pass, however it ends, replaces or removes the content (references included) of such an entity if and only if it does not diverge and brings another content, where an earlier page of the pass wrote the entity and the source wins by time and version, or only dead references of the same content go |
| MirrorSafety.PageReplacesIff | apps/web/src/lib/server/remote-sync.ts:598-879 | the same for one page: over an entity the pass wrote before, what wins by time and version; over any other only the same content, of which the target may drop references; else the content stays, also when the page ends in an error |
| MirrorSafety.ConflictsAreNames | apps/web/src/lib/server/remote-sync.ts:881-905 | the only conflict that ends a page is a notebook whose name another notebook of the target has: the notes of the request and everything else are accepted and committed |
| MirrorSafety.MirroredIff | apps/web/src/lib/server/remote-sync.ts:953-1005 | the mirrored set holds exactly the entities some page of the pass copied or deleted on the target by the mirror's rules |
| MirrorLoss.EditDuringPassIsLost | apps/web/src/lib/server/remote-sync.ts:907-1035 | there is a pass of three pages, each served at the cursor the page before it stored and each but the last with more to come, whose first page copies a note and whose third replaces what the user of the target wrote in between |
| MirrorWorker.PlanPage | apps/web/src/lib/server/remote-sync.ts:598-879 | the four plan builders report a divergence exactly when some decision is one, and otherwise the records to push and the ids to delete on either side |
| MirrorWorker.PushMirrorChanges | apps/web/src/lib/server/remote-sync.ts:881-905 | pushes the plan and fails exactly when a change is refused; what was accepted stays |
| MirrorWorker.RunPage | apps/web/src/lib/server/remote-sync.ts:951-1015 | one page on two repositories is the page function; however it ends both are what the page leaves, no version falls on either side, and an unmirrored live entity of the target stays unless equal content is copied over it |
| MirrorWorker.SyncEntityOwnerOneWay | apps/web/src/lib/server/remote-sync.ts:907-1035 | the pass loop ends, refines the pass function, lowers no version on either side, and leaves a cursor at which the two-cursor invariant holds even when it fails half way |
| MirrorWorker.SyncBoth | apps/web/src/lib/server/remote-sync.ts:1095-1114 | the three passes on two repositories: agreement on success, the invariant and risen versions in any case |
| ServerRuns.PullerStaysComplete | apps/web/src/lib/server/repository.ts:918-1048 | with any operations between pages and between the queries of one page, a replica agrees with the tables on every entity whose latest revision is at most its cursor |
| ServerRuns.FreshPullerIsComplete | apps/web/src/lib/server/repository.ts:918-923 | an empty replica at cursor 0 starts that way |
| ServerRuns.RunsKeepInvariant | apps/web/src/lib/server/repository.ts:1158-1309 | over any run no entity has both a row and a tombstone, and its latest logged operation is upsert exactly when the row exists |
| ServerRuns.VersionsOnlyRise | apps/web/src/lib/server/repository.ts:590-686 | over client runs the effective version never drops and strictly rises at every change |
| Retention.RetentionRunsFromTheTrashing | apps/web/src/lib/server/repository.ts:1158-1194 | over any run of pushes, deletions, cleanups and compactions, a row in the trash carries the time of the push that put it there, however often it was written since; a row outside the trash carries none |
| Retention.CleanedIff | apps/web/src/lib/server/repository.ts:1809-1897 | over any run, the cleanup buries a row in scope if and only if the push that put it into the trash, where it has been since, is older than the cutoff |
| Pull.PageKeepsUpToDate | apps/web/src/lib/server/repository.ts:918-1036 | one page, with writes between its five queries, keeps the replica complete up to the new cursor |
| Pull.PageCovers | apps/web/src/lib/server/repository.ts:927-975 | a page lists every entity whose last entry lies between the old cursor and the new one |
| Pull.PageFillsItsLimit | apps/web/src/lib/server/repository.ts:927-953 | a page takes as many rows of the log as its limit allows, and says that there is more exactly when rows beyond its revision are left |
| Pull.QuiescentReplicaIsExact | apps/web/src/lib/server/repository.ts:937-940 | once hasMore is false and writes stop, the replica equals the owner's live rows |
| Pull.CursorAlwaysAdvances | packages/sync-spec/src/index.ts:120-144 | the cursor check accepts every page of a server that is not behind |
| Pull.PullPageIsSomePage | apps/web/src/lib/server/repository.ts:1037-1047 | halving ends in a page within limit and byte budget, none smaller than it must be, or in the error of a single row that does not fit |
| Pull.CompactionIsInvisible | apps/web/src/lib/server/repository.ts:1948-1983 | draining the compacted log from any cursor gives the replica that draining the original gives |
| Pull.CompactKeeps | apps/web/src/lib/server/repository.ts:1948-1983 | compaction keeps rows, tombstones, and the latest entry of every entity |
| Pull.CompactIsMinimal | apps/web/src/lib/server/repository.ts:1948-1983 | it leaves one entry per entity in scope and every entry outside it |
| Pull.CompactKeepsCurrent | apps/web/src/lib/server/repository.ts:256-274 | every owner's current revision survives |
| Pull.DrainLeaves | apps/web/src/lib/server/repository.ts:918-1036 | draining leaves the tables for what was logged after the cursor and the old replica for the rest |
| Names.PushKeepsNamesUnique | apps/web/src/lib/server/repository.ts:1560-1684 | when every pushed notebook has one key, hashed or plain in any mix, and the stored ones are any regular notebooks of unique names, no batch of accepts, rejects, deletions, renames and resurrections makes two active notebooks of an owner share a name |
| Names.PushKeepsNamesUniqueIff | apps/web/src/lib/server/repository.ts:1560-1684 | for any keys: a push keeps names unique if and only if none of its notebooks is written while its first stored candidate was deleted earlier in the request and another stored notebook with one of its keys is not written by it |
| Names.RemovalsKeepNamesUnique | apps/web/src/lib/server/repository.ts:635-686 | deletions and cleanups keep names unique |
| Names.LoopRemembers | apps/web/src/lib/server/repository.ts:1658-1681 | every key of an active notebook accepted so far is remembered, and the ids listed as deleted are exactly those of accepted deletions |
| Names.AcceptedNameIsFree | apps/web/src/lib/server/repository.ts:823-853 | an accepted active notebook shares no key with one accepted earlier in the request, and its first stored candidate, if any, was deleted earlier in the request |
| Names.FoundIffKey | apps/web/src/lib/server/repository.ts:774-819 | among regular notebooks the candidate query for a key finds exactly those that have it |
| Names.SameNameIff | apps/web/src/lib/server/repository.ts:180-182 | two plain names are the same if and only if they differ only in the case of letters and in white space at their ends |
| Names.KeysOf | apps/web/src/lib/server/repository.ts:166-178 | the keys of a notebook are its trimmed hash unless blank and then its folded name unless encrypted, and no others |
| Names.DeletedNameIsFree | apps/web/src/lib/server/repository.ts:823-853 | nothing is refused for a name whose stored holders were all deleted earlier in the request and that no accepted notebook of it has |
| Names.TwoKeysSlipThrough | apps/web/src/lib/server/repository.ts:1617-1630 | a mirror of legacy rows (hash and plain name) in which the exception happens: after the push two active notebooks share a name |
| Retry.RetryIsIdempotent | apps/web/src/lib/server/repository.ts:1565-1796 | re-sending a fully accepted push of notebooks with one key each and notes with syncable references, next to any regular notebooks, changes no row, tombstone or log entry and returns the same versions without conflicts |
| Retry.HeldNoteIsKept | apps/web/src/lib/server/repository.ts:1763-1784 | a note whose content is stored is answered with the stored row |
| Retry.HeldNotebookHasNoDuplicate | apps/web/src/lib/server/repository.ts:823-844 | a stored notebook with one key is no duplicate of any other row or of what was kept before it |
| Push.PushNeverOverwritesBlindly | apps/web/src/lib/server/repository.ts:1713-1796 | every entity a client push changes carries a change whose base is the version it replaces, the same content, or nothing to replace |
| Push.NoteAcceptedIff | apps/web/src/lib/server/repository.ts:1719-1762 | for client and mirror pushes: a note is accepted if and only if its base is the row's version or the stored content is the same, or its base is the tombstone's version (or, on the mirror, it outlives the tombstone in time, then version, then device), or there is neither |
| Push.NoteKeptIff | apps/web/src/lib/server/repository.ts:1763-1784 | the stored row is the answer if and only if it has the content that was sent, of which no reference had to be dropped, and on the mirror the same version |
| Push.NotebookAcceptedIff | apps/web/src/lib/server/repository.ts:1565-1656 | a notebook is accepted if and only if it knows what it replaces in the same way and, unless it is a deletion, its name is free; a stale base is told before a taken name; the stored row is the answer exactly when its content was sent |
| Push.RunPhases | apps/web/src/lib/server/repository.ts:1518-1807 | both phases of a request keep the tables consistent, write exactly their accepted changes, and (for clients) only raise versions |
| Push.AcceptedNoteIsStored | apps/web/src/lib/server/repository.ts:1376-1386 | every accepted note is stored word for word under the version answered |
| Push.AcceptedNotebookIsStored | apps/web/src/lib/server/repository.ts:1376-1386 | every accepted notebook is stored word for word under the version answered, also after the notes were written |
| Push.NoteVerdictLawful | apps/web/src/lib/server/repository.ts:1709-1796 | the law of one note: what is written has every word, the name and the time of what was sent, the live ones of its references, the next version, and a base that is the row's version or the tombstone's (or the same content, or on the mirror a later record) |
| Push.NotebookVerdictLawful | apps/web/src/lib/server/repository.ts:1565-1680 | the same law of one notebook |
| Push.ApplyEffect | apps/web/src/lib/server/repository.ts:1158-1309 | writing verdicts changes exactly the written entities and keeps the tables consistent |
| Push.FirstStoredDuplicate | apps/web/src/lib/server/repository.ts:823-833 | finds a stored namesake under some key if and only if the scan holds one |
| Push.FirstAccepted | apps/web/src/lib/server/repository.ts:835-844 | finds a namesake accepted earlier in the request if and only if there is one |
| Push.Syncable | apps/web/src/lib/server/repository.ts:1496-1516 | the stored references are exactly the normalized ones whose notebook is live |
| Push.AcceptedRefsWereSent | apps/web/src/lib/server/repository.ts:1496-1516 | an accepted note names no notebook that was not sent |
| Tables.LatestIsMax | apps/web/src/lib/server/repository.ts:373-408 | the latest entry of a growing log carries the entity's greatest revision |
| Tables.PutKeeps | apps/web/src/lib/server/repository.ts:1158-1309 | an upsert keeps the tables consistent and touches one entity |
| Tables.BuryKeeps | apps/web/src/lib/server/repository.ts:335-371 | so does replacing a row by a tombstone |
| Tables.DeleteOneKeeps | apps/web/src/lib/server/repository.ts:605-632 | deleting an id leaves a tombstone of the row's device one version up, or the server's first, and deleting it again changes nothing |
| Tables.DeleteAllKeeps | apps/web/src/lib/server/repository.ts:590-686 | a list of ids: exactly they are gone and buried so, versions rise |
| Tables.CleanupKeeps | apps/web/src/lib/server/repository.ts:1809-1897 | cleanup buries exactly the expired rows in scope, one version up under their device, and nothing else changes |
| RepositoryModule.Repository.PushChanges | apps/web/src/lib/server/repository.ts:1518-1807 | the imperative push: refuses repeated ids untouched, else refines the push function and keeps the tables consistent |
| RepositoryModule.Repository.JudgeNotebooks | apps/web/src/lib/server/repository.ts:1565-1681 | the notebook loop computes the verdicts of the specification |
| RepositoryModule.Repository.JudgeNotes | apps/web/src/lib/server/repository.ts:1708-1796 | the note loop likewise |
| RepositoryModule.Repository.CheckUnique | apps/web/src/lib/server/repository.ts:855-874 | the scan with a set finds repeated ids exactly |
| RepositoryModule.Repository.PutEntities | apps/web/src/lib/server/repository.ts:1158-1309 | writes the accepted records in order |
| RepositoryModule.Repository.DeleteByIds | apps/web/src/lib/server/repository.ts:590-686 | deletes in place, as the table function says |
| RepositoryModule.Repository.CleanupTrash | apps/web/src/lib/server/repository.ts:1809-1897 | cleans up in place and counts the notes and the notebooks that went |
| RepositoryModule.Repository.CompactEntityChanges | apps/web/src/lib/server/repository.ts:1948-1983 | compacts the log in place and counts what went |
| RepositoryModule.Repository.PullChanges | apps/web/src/lib/server/repository.ts:918-1048 | the halving loop ends and returns the page of the specification, with other tables before every attempt and every query |
| SyncSpec.RecordsDifferIffContentDiffers | packages/sync-spec/src/index.ts:22-71 | the comparison is inequality of a canonical content: hash before text, notebook ids as a set |
| SyncSpec.SameContentIsEquivalence | packages/sync-spec/src/index.ts:22-71 | "does not differ" is reflexive, symmetric and transitive |
| SyncSpec.SafeRevisionCursor | packages/sync-spec/src/index.ts:120-144 | an accepted cursor never moves back, and moves on when there is more |
| SyncSpec.NormalizedStay | packages/sync-spec/src/index.ts:69-71 | ids that are distinct, trimmed and non-empty are already normal |
| SyncSpec.NormalizedIdsGrow | packages/sync-spec/src/index.ts:69-71 | ids keep the order in which they first come up, trimmed; one that is blank or came before adds nothing |
| DeviceSteps.ActionKeeps | apps/web/src/lib/client/sync-store.ts:235-857 | every action of a device keeps the whole account's invariant |
| DeviceSteps.SyncedComesFrom | apps/web/src/lib/client/sync-store.ts:235-857 | an action makes a record synced only by a matching answer or by putting the pulled or shown row of the server in its place |
| DeviceSteps.AbsorbedLocalOk | apps/web/src/lib/client/sync-store.ts:416-448 | absorbing this device's own write moves the base to a version it wrote |
| DeviceSteps.MergeOk | apps/web/src/lib/client/sync-store.ts:493-540 | merging a pulled row keeps bases known and stores only conflicts with versions the server held |
| DeviceSteps.ResolveSound | apps/web/src/lib/client/sync-store.ts:682-857 | resolving by any choice, copies and reference remaps included, leaves every record on a base the device knows |
| DeviceSteps.PrepareOk | apps/web/src/lib/client/sync.ts:236-285 | the repair before a push sends a pending record word for word, with every notebook it is in and the first as primary, under this device's name and a version above a base the device knows |
| LocalSafety.MergeLosesNoEdit | apps/web/src/lib/client/sync-store.ts:491-540 | a pulled row never replaces an edit; it conflicts exactly when another device changed the content on another base, and the conflict stores both sides |
| LocalSafety.MergesLoseNoEdit | apps/web/src/lib/client/sync-store.ts:658-668 | nor do all rows of a page |
| LocalSafety.RefusalKeepsBothSides | apps/web/src/lib/client/sync-store.ts:297-414 | a refused push about which the user is asked: the conflict stores the remote side and the record as it is now, the record waits for the user with its text and base, nothing else changes |
| LocalSafety.DeletesSpareEdits | apps/web/src/lib/client/sync-store.ts:179-221 | pulled deletions forget exactly the named records without an edit or conflict |
| LocalSafety.PrepareSendsEveryEdit | apps/web/src/lib/client/sync.ts:236-285 | every pending record but a local-only deletion is sent: word for word, with all its notebooks in order and the first as primary, at its own time, above its base; nothing else is sent |
| LocalSafety.AnswersKeepTexts | apps/web/src/lib/client/sync-store.ts:235-295 | answers change versions and statuses, never a text |
| LocalSafety.AnswerSettles | apps/web/src/lib/client/sync-store.ts:252-273 | an answer makes a record synced under the accepted version exactly when version and time are those pushed, else it stays pending on that version; its words, references, name and time stay |
| LocalSafety.RepairSettlesOwnWrites | apps/web/src/lib/client/sync-store.ts:450-462 | repairing a stored conflict settles exactly an open one about this device's own write: the base rises to the remote version and never falls, the record is pending, or stays deleted, with its text |
| LocalSafety.DroppingKeepsTexts | apps/web/src/lib/client/sync-store.ts:859-895 | removing a notebook takes exactly that reference out of each live note that is not in conflict, keeps the order of the others and every word, and makes the note pending; all other records stay |
| LocalSafety.ResolutionKeepsTheChoice | apps/web/src/lib/client/sync-store.ts:682-803 | for notes and notebooks: the chosen side stays, the server's word for word as synced, the local one word for word pending above the server's version; newer and older go by time, then version; duplicate-both keeps the server's row and a copy of the local side under a new id and name |
| LocalSafety.ResolutionAndTheOthers | apps/web/src/lib/client/sync-store.ts:682-803 | and the other records: accepting the deletion of a notebook takes that reference and no word out of every live note; duplicating a notebook moves every live note that named it to the copy; in every other case no other record changes |
| LocalSafety.NameResolutionMovesNotes | apps/web/src/lib/client/sync-store.ts:805-857 | a duplicate name: the remote notebook is in place, the local one gone or renamed under a new id, every live note that named it names its replacement in the same place, with its words and its other references in order, and no other record changes |
| LocalSafety.ResolveKeepsWell | apps/web/src/lib/client/sync-store.ts:682-857 | every resolution leaves records under their own keys and conflicts between two sides of one record |
| ClientStore.EditBumpsAndKeepsBase | apps/web/src/lib/client/entity-store-notes.ts:42-186 | an edit that takes effect leaves the note as edited, pending one version up on the same base, now and under this device, and touches nothing else; deleting a note the server never saw forgets it |
| ClientStore.EditAppliesIff | apps/web/src/lib/client/entity-store-notes.ts:42-186 | an edit takes effect if and only if there is something to change and the note is not deleted (or in the trash, or out of it) |
| ClientStore.ContentEditKeepsTheRest | apps/web/src/lib/client/entity-store-notes.ts:42-129 | each edit does what it says, a text edit with the trimmed title, and changes no other field |
| ClientStore.RestoreUndoesTrash | apps/web/src/lib/client/entity-store-notes.ts:131-163 | restoring a trashed note gives the note back |
| ClientStore.AssignThenUnassign | apps/web/src/lib/client/entity-store-notes.ts:72-105 | assigning appends the notebook, unassigning restores the list |
| ClientStore.AssignmentIs | apps/web/src/lib/client/entity-store-notes.ts:72-105 | assigning leaves a note in no notebook, in one more at the end, or in all but one with the others in order, the first as primary |
| ClientStore.LocalStore.Apply | apps/web/src/lib/client/entity-store-notes.ts:42-186 | the note edits on the local database: the note is left alone, or pending one version up on the same base under this device, or forgotten if the server never saw it; no other record changes |
| ClientStore.LocalStore.MarkAcceptedChanges | apps/web/src/lib/client/sync-store.ts:235-295 | looks the pushed records up by key and marks each acceptance as the specification says; no record appears or goes |
| ClientStore.AcknowledgedSettles | apps/web/src/lib/client/sync-store.ts:252-273 | an acceptance settles the record exactly unless version or time are no longer those pushed under its key, and changes no word |
| ClientStore.AcknowledgeIsMarkAccepted | apps/web/src/lib/client/sync-store.ts:248-273 | when everything accepted was pushed, the loop does what the paired answers of the protocol say |
| ClientStore.PushedFound | apps/web/src/lib/client/sync-store.ts:248-250 | in a batch without repeated ids the table by key gives back every pushed record |
| ClientStore.ClearedIff | apps/web/src/lib/client/sync-store.ts:179-221 | the ids whose references must go are the pulled notebook deletions of notebooks the device does not have or has without an edit or a conflict |
| ClientStore.GoneIff | apps/web/src/lib/client/sync-store.ts:658-680 | and after pulled rows those of notebooks deleted on both sides, without an edit or a conflict here |
| ClientStore.DropAllUnlinks | apps/web/src/lib/client/sync-store.ts:859-895 | removing several notebooks leaves each live note its words and the references to all others, and leaves a note in none of them alone |
| ClientStore.LocalStore.SaveConflict | apps/web/src/lib/client/sync-store.ts:297-414 | three attempts while other code does anything to the store in between: the first in which the record is by version and time the one that was read stores the conflict open with the text read and the remote side as sent, the record as found waits for the user, nothing else changes; without such an attempt nothing is stored and the call fails; the attempts lose no edit of any record |
| ClientStore.LocalStore.AbsorbSameDevicePushConflict | apps/web/src/lib/client/sync-store.ts:416-448 | absorbs exactly this device's own writes: the base reaches the remote version and never falls, every text stays, no edit is lost |
| ClientStore.LocalStore.HandlePushConflict | apps/web/src/lib/client/sync.ts:378-400 | this device's own write is absorbed and about anything else the user is asked, unless the record changes during all three attempts; undisturbed it is the one step of the protocol and no edit is lost |
| ClientStore.LocalStore.RepairSameDevicePendingConflicts | apps/web/src/lib/client/sync-store.ts:450-462 | repairs stored conflicts in order |
| ClientStore.LocalStore.MergeRemote | apps/web/src/lib/client/sync-store.ts:464-540 | one pulled row: no edit of any record is lost, a record without edits becomes the row, and a conflict with both sides is raised exactly when another device changed the content on another base |
| ClientStore.LocalStore.MergeRemoteChanges | apps/web/src/lib/client/sync-store.ts:658-680 | all pulled rows, then the references to notebooks gone on both sides |
| ClientStore.LocalStore.ApplyRemoteDeletes | apps/web/src/lib/client/sync-store.ts:179-221 | pulled deletions and the ids whose references must go |
| ClientStore.LocalStore.RemoveNotebookReferences | apps/web/src/lib/client/sync-store.ts:859-895 | collects the rewritten notes, then puts them |
| ClientStore.LocalStore.RemapNotebookReferences | apps/web/src/lib/client/sync-store.ts:126-165 | points notes at another notebook |
| ClientStore.LocalStore.ResolveConflict | apps/web/src/lib/client/sync-store.ts:682-803 | the whole new state for every reason and choice, with a free copy name where one is needed |
| ClientStore.LocalStore.ResolveDuplicateName | apps/web/src/lib/client/sync-store.ts:805-857 | both outcomes of a duplicate notebook name |
| ClientStore.FreeNameDiffers | apps/web/src/lib/client/sync-store.ts:104-124 | the name a renamed notebook gets is no name of another active notebook of the device, up to case and outer white space |
| ClientStore.NamesTakenIff | apps/web/src/lib/client/sync-store.ts:104-118 | the names a copy avoids are those of the other active notebooks, folded and trimmed, and no others |
| SyncLoop.PushBatches | apps/web/src/lib/client/sync.ts:320-339 | the loop ends, sends every change once and in order in batches of 1 to 20, all but the last full, and no note before the notebooks are through |
| SyncLoop.ReferencesSurviveThePush | apps/web/src/lib/server/repository.ts:1683-1718 | if the pending notebooks are accepted and none is deleted meanwhile, no pushed note loses a reference to a live or pending notebook |
| SyncLoop.PullLoop | apps/web/src/lib/client/sync.ts:412-478 | while others write between the pages and between the queries of a page, the loop ends once the writers pause; no cursor is refused and one reset at most comes first; then each entity logged since the start and not written during the last page is as on the server, the others are as before, and the cursor has passed all that was logged when the last page was asked for |
| FreshNames.UsedPaths.Claim | apps/web/src/lib/client/markdown-archive.ts:493-510 | ends for every finite set and claims the path itself or its least free numbering |
| FreshNames.ArchivePaths | apps/web/src/lib/client/markdown-archive.ts:132-169 | all paths of an archive are pairwise distinct |
| FreshNames.NotebookCopyName | apps/web/src/lib/client/sync-store.ts:104-124 | ends and returns the first candidate no taken name equals up to case and outer white space, for any lower-casing that leaves a numbering alone |
| FreshNames.CandidatesDiffer | apps/web/src/lib/client/sync-store.ts:118-122 | the numbered candidates never repeat, even normalized, for any such lower-casing |
| FreshNames.LowerFolds | apps/web/src/lib/client/sync-store.ts:100-102 | ASCII lower-casing is such a folding: it leaves a space and digits behind a name alone |
| FreshNames.NumberedPathInjective | apps/web/src/lib/client/markdown-archive.ts:499-508 | numbered paths never repeat |
| FreshNames.DecimalReadsBack | apps/web/src/lib/client/markdown-archive.ts:499-508 | the digits of a number spell it, without a leading zero |
| FreshNames.NumberedPathParts | apps/web/src/lib/client/markdown-archive.ts:499-508 | a numbered path has the extension of the path and its stem with a dash and the number |
| FreshNames.CopyNameUnique | apps/web/src/lib/client/sync-store.ts:104-124 | the copy name is determined |
| FreshNames.FreshPathUnique | apps/web/src/lib/client/markdown-archive.ts:493-510 | the path is determined |
| Base32.RoundTrip | apps/web/src/lib/server/auth.ts:579-613 | decoding the encoding of any non-empty bytes returns them; of none, nothing; for any upper-casing that leaves the alphabet alone |
| Base32.Encode | apps/web/src/lib/server/auth.ts:579-593 | the text spells the bits of the bytes and fewer than five zeros, on an accumulator that is never masked |
| Base32.Decode | apps/web/src/lib/server/auth.ts:595-613 | returns the bits the cleaned text spells without fewer than eight left over; nothing for an empty or foreign text |
| Base32.DecodingUndoesEncoding | apps/web/src/lib/server/auth.ts:579-613 | whatever decodes an encoding of the bytes is the bytes |
| Base32.ShiftInByteBits | apps/web/src/lib/server/auth.ts:584 | a shift by eight keeps the pending low bits, wrap-around or not |
| Base32.TakeSymbolBits | apps/web/src/lib/server/auth.ts:587-588 | the symbol taken is the top of the pending bits |
| Zip.Crc32 | apps/web/src/lib/client/markdown-archive.ts:601-610 | the bit loop computes the checksum of the specification |
| Zip.CrcNoticesOneByte | apps/web/src/lib/client/markdown-archive.ts:601-610 | two contents that differ in one byte have different checksums |
| Zip.CrcOfOneDigit | apps/web/src/lib/client/markdown-archive.ts:601-610 | the checksum of the digit 1 is the standard's |
| Zip.DateReadsBackIff | apps/web/src/lib/client/markdown-archive.ts:587-599 | the stored date reads back to two seconds if and only if its year is 1980 to 2107 |
| ZipArchive.ArchiveReadsBack | apps/web/src/lib/client/markdown-archive.ts:252-308 | a reader written from the format, which checks that both headers of a file and the end record agree, recovers exactly the names, contents, checksums and date fields, in order, through each entry's offset |
| ZipArchive.ReadsBackIff | apps/web/src/lib/client/markdown-archive.ts:252-308 | below 4 GiB an archive reads back if and only if there are fewer than 65536 files and every name has fewer than 65536 bytes |
| ZipArchive.TooManyFilesAreLost | apps/web/src/lib/client/markdown-archive.ts:569-585 | with 65536 files or more the count wraps and the archive does not read back |
| ZipArchive.CentralAt | apps/web/src/lib/client/markdown-archive.ts:541-567 | every directory entry carries the position of its own local header |
| ZipArchive.CreateZipBytes | apps/web/src/lib/client/markdown-archive.ts:252-308 | the writer's loops produce the archive of the specification |
| ZipArchive.CopyChunks | apps/web/src/lib/client/markdown-archive.ts:300-306 | copying chunk by chunk fills the output with their concatenation |
| ZipArchive.ZipLocalFileHeader | apps/web/src/lib/client/markdown-archive.ts:520-539 | the fields set in place are the header of section 4.3.7 |
| ZipArchive.ZipCentralDirectoryHeader | apps/web/src/lib/client/markdown-archive.ts:541-567 | the fields set in place are the header of section 4.3.12 |
| ZipArchive.ZipEndOfCentralDirectory | apps/web/src/lib/client/markdown-archive.ts:569-585 | the fields set in place are the record of section 4.3.16 |
| Frontmatter.UnquoteUndoesEscape | apps/web/src/lib/client/markdown-archive.ts:380-388 | unquoting undoes quoting for every string, although both replace globally and in sequence |
| Frontmatter.EscapesOneByOne | apps/web/src/lib/client/markdown-archive.ts:512-514 | quoting escapes each backslash and each quote by itself and leaves every other character alone |
| Frontmatter.SingleQuotesComeBack | apps/web/src/lib/client/markdown-archive.ts:380-388 | a single-quoted value with doubled quotes comes back |
| Frontmatter.ParseQuotedLine | apps/web/src/lib/client/markdown-archive.ts:360-370 | a printed line with a quoted value parses to its key and value |
| Frontmatter.ParseLineIff | apps/web/src/lib/client/markdown-archive.ts:360-370 | a line is a setting if and only if it starts with a key and a colon and the rest, after white space, is one line |
| Frontmatter.SplitUndoesJoin | apps/web/src/lib/client/markdown-archive.ts:178-192 | splitting undoes joining for lines without newlines |
| MarkdownNote.FieldsReadBack | apps/web/src/lib/client/markdown-archive.ts:106-130 | parsing a printed note returns its title, id, names, dates and favourite mark |
| MarkdownNote.TextWithoutHeader | apps/web/src/lib/client/markdown-archive.ts:106-130 | a text without a header has no fields but a title: 120 characters of its first line that is not blank, or the name of the file; its body stays but for a heading with that title |
| MarkdownNote.StripIs | apps/web/src/lib/client/markdown-archive.ts:414-420 | for any text: the importer takes off its first line exactly when it is a heading with the title, up to case and white space, and nothing else but white space at the ends |
| MarkdownNote.BodyReadsBackIff | apps/web/src/lib/client/markdown-archive.ts:414-433 | the body reads back trimmed if and only if it does not start with the title as its own heading and holds no CR LF pair |
| MarkdownNote.PrintedSplits | apps/web/src/lib/client/markdown-archive.ts:315-339 | the closing delimiter found is the printed one, whatever the body holds |
| MarkdownNote.OwnHeadingIsLost | apps/web/src/lib/client/markdown-archive.ts:414-433 | a body with the title as its own heading loses it |
| SyncQueue.RunsKeep | apps/web/src/lib/server/hono.ts:611-704 | in every interleaving at most one loop runs, a queued request has a loop or a restart in flight, and an owed sync has a request, a timer or a call |
| SyncQueue.NextKeepsIff | apps/web/src/lib/server/hono.ts:611-691 | each event keeps this, except exactly a loop that throws after it took the request with nothing else on its way, and the only call on its way that throws before it queues: a restart for a late request, or the one of a timer for a failed sync |
| SyncQueue.ThrowForgetsARequest | apps/web/src/lib/server/hono.ts:678-684 | the exception can happen from the start: a request, its sync, a throw; then a sync is owed and no internal event can bring it |
| SyncQueue.FailedRestartForgetsASync | apps/web/src/lib/server/hono.ts:700-703 | so it can with a sync that failed: its timer fires and the restart throws while it writes the flag |
| SyncQueue.FailedRestartForgetsARequest | apps/web/src/lib/server/hono.ts:678-691 | and with a request that came late: the loop throws, and so does the restart from its `finally` block; the request stays queued with nothing to take it |
| SyncQueue.OwedUntilStarted | apps/web/src/lib/server/hono.ts:629-630 | what is owed a sync stays owed until one starts |
| SyncQueue.SyncStartsInTime | apps/web/src/lib/server/hono.ts:626-686 | no run of internal events without a start is longer than a bound read off the state |
| SyncQueue.NeverStuck | apps/web/src/lib/server/hono.ts:626-686 | while a sync is owed some internal event can happen |
| SyncQueue.DelaysGrow | apps/web/src/lib/server/hono.ts:696-699 | retry delays start at the base, double, never shrink, and reach the ceiling with the seventh failure |
| SyncQueue.FailuresCountArmings | apps/web/src/lib/server/hono.ts:641-704 | a success forgets the retry count, arming the timer adds one to it, nothing else changes it; a failed sync, a refused one and a failed promise with a request queued leave the timer armed |
| SyncQueue.Worker.OnFlagWritten | apps/web/src/lib/server/hono.ts:616-628 | the request segment on the module variables keeps the invariant, and leaves a loop running that has the request before it or syncs it now |
| SyncQueue.Worker.OnSyncDone | apps/web/src/lib/server/hono.ts:650-676 | the segment after a sync keeps the invariant: a failure leaves a timer armed, a success starts the next sync or clears |
| SyncQueue.Worker.LeaveLoop | apps/web/src/lib/server/hono.ts:678-684 | the finally block leaves no loop, a late request on its way, and the invariant exactly if what is owed has a request, a timer or a call |
| SyncQueue.Worker.OnThrow | apps/web/src/lib/server/hono.ts:678-684 | a throw keeps the invariant exactly but in the one case |
| SyncQueue.Worker.OnCallFails | apps/web/src/lib/server/hono.ts:507-523 | a call that throws before it queues keeps the invariant exactly but in the other case |
| SyncQueue.Worker.ScheduleRetry | apps/web/src/lib/server/hono.ts:693-704 | one timer at most: a delay between the base and the ceiling, and only an arming counts |
| WriteQueue.OneAtATime | apps/web/src/lib/server/db.ts:1612-1636 | at most one operation of a database runs at a time, for any arrival pattern |
| WriteQueue.InArrivalOrder | apps/web/src/lib/server/db.ts:1612-1636 | operations start in arrival order even when earlier ones fail |
| WriteQueue.RemovalIsSafe | apps/web/src/lib/server/db.ts:1631-1634 | an entry is removed only when no call chains on it, and then the database is idle |
| WriteQueue.BeginsIff | apps/web/src/lib/server/db.ts:1626-1627 | an operation may begin exactly when everything that arrived before it is done |
| WriteQueue.NeverStalls | apps/web/src/lib/server/db.ts:1612-1636 | while a call is not done, some call of its database runs or may begin |
| WriteQueue.RunsKeep | apps/web/src/lib/server/db.ts:1612-1636 | the queue invariant over every run |
| WriteQueue.DatabaseWriteQueues.Enqueue | apps/web/src/lib/server/db.ts:1619-1625 | chains on the tail found and becomes the tail |
| WriteQueue.DatabaseWriteQueues.Release | apps/web/src/lib/server/db.ts:1629-1635 | removes the entry exactly when it is still this call's tail |

## Left out

- SystemRuns.SyncedMeansSynced: does not compare notebook references, because a push may drop dead references and still be accepted; of a deleted record it only compares the deletion.
- MirrorSync.MirrorAgreement: assumes that nobody else writes to either database during the three passes, and says nothing about version numbers, because resurrecting over a tombstone renumbers.
- MirrorSafety.UnmirroredLiveIsNeverLost: a page reads the databases and writes to them in one step; users change them between pages.
- Push.FirstStoredDuplicate: a stored plain name is found when the folding of the database and that of the script agree on it; in the source a name on which they differ is also found if its database folding is the name of another notebook of the request. `Names.Regular` asks that they agree.
- ClientStore.LocalStore.MergeRemote: saves a conflict in one step, as an undisturbed SaveConflict does.
- Convergence.DeviceEndsEqual: the device merges a page in one step, and pulls when its pushes are answered or given up.
- MarkdownNote.FieldsReadBack: the dates come back as the printed text; reading that text as a date is the platform's and is not modelled.
- Device rows and account tombstones, user copying and account deletion: they break the agreement of log and tables and add easy branches.
- Snapshot tables of the server and of the devices: they are appended to and pruned only.
- Encryption, key rings and hashing: texts are plain, hashes are opaque strings carried along, and the path that republishes a record under a new encryption is absent.
- SQL: tables are maps and the log is a sequence; the order of a query without ORDER BY is the parameter `scan`. Foreign-key actions and migrations are absent, and a note's notebook ids are read from its list.
- Record limits of a push, HTTP, sessions, metrics, leases and heartbeats: one sync run per device and one mirror run at a time are assumed.
- The comparison of notebook ids joins them with a NUL character; the model compares the sets, which is the same for ids without that character.
- Case folding is ASCII in the duplicate keys of the server, a parameter elsewhere; `localeCompare` is code-unit order; dates that do not parse and integers beyond 2^53 do not occur.
- JSON in the frontmatter is a parameter that decodes what it encodes.
- The persisted pending flag of the mirror queue and its reported status: only the requests, the loop and the timer are modelled.
- Writes to a database without a key run unserialized in the source and are not part of the write queue.
- `createZipBlob`, import of several files, path sanitising and the user interface.
