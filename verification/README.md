# Verification of the vault synchronisation engine

The engine keeps an Obsidian vault, an R2 bucket and one baseline per device in agreement while an editor, other
devices and failing requests interfere. These files model its decisions and its protocol in Dafny and prove what the
engine promises about them. `dafny verify dfyconfig.toml` checks everything.

| file | models |
|---|---|
| `Types.dfy` | the values passed between the layers |
| `Planner.dfy` | the three-way plan over local files, remote view and baselines |
| `World.dfy` | one key as the executor meets it, what everybody else may do to it, and undisturbed operations |
| `Executor.dfy` | the safe executor, step by step, with interference at every await |
| `Converge.dfy` | what undisturbed cycles achieve on one device and on two |
| `RemoteView.dfy`, `Retention.dfy` | the effective remote view under logical deletion, and its cleanup |
| `RemoteDelta.dfy`, `Observing.dfy` | exact-path observation as a fast form of the full scan, and as the executor meets it |
| `Text.dfy`, `Merge.dfy`, `Handoff.dfy` | text shape, three-way merge, divergence policy |
| `Insertions.dfy` | what the divergence policy makes of two additions at one place |
| `Scheduler.dfy` | the scheduler with its timers, dirty versions, delta queue and generation cursor |
| `Reporter.dfy` | the retry queue of the mutation journal |

## How the protocol is modelled

A `World` is the state of one key: the Vault file, the object, the tombstones, the baseline, and the content every
Vault version ever had. `SafeExecutor` runs the source's operations on it and calls `Interfere` at every await; there
the editor may save or delete, other devices may write or delete, and retention may remove records, any number of
times. Every request may fail, and a write whose answer is lost may have landed. What the device does itself is logged
as effects, each with the world it was done to, and `History` links the log from the first world to the current one:
between two effects there is interference only. A cycle observes by full scan, by local delta or by Gateway events.
`SoundRun` states what every run keeps: no effect replaces or removes a version that was not accounted for, with one
exception that needs an event that is not true any more; every recorded pair is true unless its own resolution misread
a stamp; and the baseline is true at every moment but while such a pair is in force. Five constants select the
surroundings a claim needs: `quiet` (nobody else acts, nothing fails), `solo` (no other writer), `reliable` (landed
writes and deletions are answered and commits succeed), `physical` (deletion removes the object) and `current` (events
are still true when they are read).

`SyncScheduler` works the same way: `Await` lets any sequence of requests, marks, configuration and visibility changes,
stops, retry timers, announcements, remote writes, saves and removals happen during every await of a cycle. Every mark
carries the version of the file it was made on, and every confirmation of the cursor leaves a `Proof` with what its
cycle observed and did.

Assumptions, each visible in the model:

- A Vault stamp (size, mtime) belongs to one version: saves get fresh stamps, and a version once left never returns.
- An ETag determines the content it names.
- The last check of the local version and the write or trash call that follows it are one step.
- A received status below 500 other than 429 means that the write did not land.
- After this device's own write, the Vault index reports the written version until it catches up, then the current one.
- Every minted fact gets an id of its own.
- R2's clock advances between two accepted writes, and every listed tombstone has R2's timestamp.
- Every remote write lands before the generation that announces it is published.
- A put event states size and ETag of one version.
- The line diff returns separated ascending hunks that patch one text into the other (`Handoff.DiffContract`).

## Where the code departs from its comments

Each of these is a theorem about the code as written, with the exact condition as an equivalence:

- A merge applies no pure deletion, no insertion at the start and no insertion touching another change
  (`Merge.EverythingApplied`, `Merge.DeletionsAreDropped`).
- A side that edits only inside the conflict region, and nowhere as a whole, shows the base as its hunk
  (`Merge.NarrowEditsVanish`). The policy can then return the ancestor as the clean result of two real edits:
  `Handoff.AncestorCleanIff` says when for any hunk, `Handoff.AncestorReturnedIff` for edits over the whole text, and
  `Handoff.AncestorReturnedAsClean` shows a pair.
- Decoding removes one carriage return for each line feed, so a pair can survive (`Text.PairSurvivesIff`), and the normal
  form of a text need not be its own normal form (`Text.SignificantTextIdempotent`).
- `delete-local` reports `failed` although the file was trashed, when the file is there again before the result is
  decided (`Executor.FailedThoughTrashed`). No other result that promises an untouched state breaks the promise
  (`Executor.SafeExecutor.Execute`).
- A keep-remote or merged resolution can record the stamp of a later save as its own (`Executor.LateStampUntrueIff`).
- Deleting a note that was deleted before and written again with the same content writes no new tombstone, so the note
  is downloaded again (`Converge.FixedPoint`, `Converge.RevivedDeletionComesBack`).
- Retiring a tombstone removes only the record in the current namespace; a legacy record it masked can then hide a
  live note (`Retention.Bucket.PruneExpiredTombstones`, `Retention.MaskedNoteLeavesTheView`).
- A local delta looks for a tombstone only where file and baseline are missing, and then not at its time, so it can
  decide otherwise than a full scan (`RemoteDelta.LocalDeltaExactIff`, `RemoteDelta.LocalDeltaCanMissADeletion`).
- An operation that raises is not counted. A complete tally hides an unfinished cycle exactly when something in it threw,
  and the cursor then moves over a delta nobody applied (`Scheduler.CompleteHidesRaised`,
  `Scheduler.ThrownWindowCountsAsComplete`, `Scheduler.RaisedDeltaIsConfirmed`,
  `Scheduler.ConfirmedIsCoveredUnlessThrown`).
- A landed PUT whose baseline commit failed, or whose operation raised later, reaches neither the journal nor the other
  devices (`Scheduler.LandedButUnreported`).
- A cycle settles every mark up to its start version: in a delta cycle also those of keys the delta does not name, in an
  unfinished one all of them (`Scheduler.SettledUnseenIff`, `Scheduler.SyncScheduler.RunCycle`).
- The check that lets a cycle forget its own write events compares the version first and awaits a `stat` after, and the
  version it looks for may be a later save's. So a mark made in between is forgotten, and where the stamp was misread
  every mark since the write is, although they stand for other versions of the file (`Scheduler.DropLosesIff`,
  `Scheduler.PendingEditIsLost`, `Scheduler.MisreadEditIsLost`).
- That `stat` stands outside every handler. A cycle dies exactly if it throws for an own write marked since the start;
  then the state stays `running` and nothing that can happen starts another cycle
  (`Scheduler.SyncScheduler.RunCycle`, `.Lifetime`, `Scheduler.OwnEventIsChecked`).
- An announced deletion is taken at its word, whatever object is there by then. With a file and no baseline, a version
  written again since is overwritten, exactly if no record ever named it (`Executor.PlanLicensedIff`,
  `Executor.RewrittenNoteIsOverwritten`); a delta otherwise decides as a full scan under the condition of
  `RemoteDelta.RemoteDeltaExactIff`.
- One device can conflict with itself. A note that the user deleted and created again is a conflict no decision resolves
  when a local delta looks at it, although a full scan plans the upload: where the live object is the recorded one,
  exactly for a file without a baseline over the object of the own deletion (`Executor.OwnWritesConflictIff`,
  `Executor.RecreatedNoteConflicts`); from any baseline that describes the object, exactly as `Executor.PeaceIff` says.
- An event about an older write of this device sets it against itself too, exactly if no baseline records the version it
  names (`Executor.OwnEventKeepsPeaceIff`).
- The split around two additions drifts into the text behind them as far as the texts agree, so a handoff need not keep
  both, as handoff.ts:113-117 says it does. It stays in place exactly under the condition of `Insertions.StaysIff`; what
  it writes otherwise is `Insertions.HandoffWrites`, and `Insertions.AdditionIsLost` shows a pair of which one is lost.
- Two devices do not converge when the first still has a baseline for a logically deleted note and the second has a file
  without one: the note comes back and is deleted again under it (`Converge.TwoDevicesConverge`,
  `Converge.BroughtBackIsDeleted`).

## Model

| member | source | states |
|---|---|---|
| Planner.SortKeys | src/sync/planner.ts:66-68 | lists every key exactly once, in ascending rank, for any injective ranking |
| Planner.BuildSyncPlan | src/sync/planner.ts:60-114 | the operations are the decisions of all observed keys in ascending rank order, and nothing else |
| Planner.IntentsOnlyResolve | src/sync/planner.ts:33-58 | an intent only replaces a conflict, never one between two first versions, and is carried out as decided on the versions observed now |
| Planner.PlannerLocality | src/sync/planner.ts:66-113 | observations that decide a set of keys alike, and nothing outside it, give the full plan restricted to that set |
| Planner.PlannerLocalityIff | src/sync/planner.ts:66-113 | and only such observations do |
| RemoteView.ScanRemote | src/remote/scan-remote.ts:33-50 | the built map is the order-free view: live object, or the first record that speaks for the path, or nothing |
| RemoteView.LivePart | src/remote/scan-remote.ts:33-49 | the live part of the view is exactly the stored, not ignored objects that no record hides |
| RemoteView.ListingOrderIsIrrelevant | src/remote/scan-remote.ts:34-49 | two listings of the same records show the same live notes, whatever their order |
| Retention.ExpiredInListingOrder | src/remote/tombstone-retention.ts:38-45 | the selection picks every entry of the listing older than the retention period, each once, in listing order |
| Retention.LiveNotesAreScanned | src/remote/scan-remote.ts:33-49 | the live notes of a store are what a scan of any listing of it shows |
| Retention.Bucket.Retire | src/remote/tombstone-retention.ts:98-127 | under every pattern of failed and half-landed requests, bytes go before the record and only while the record hides them |
| Retention.RetirementKeepsLive | src/remote/tombstone-retention.ts:98-127 | one retirement makes no note live, and hides one only by removing a record that masked a legacy record |
| Retention.Bucket.PruneExpiredTombstones | src/remote/tombstone-retention.ts:137-150 | a pass resurrects nothing; the live notes it loses are exactly those unmasked this way on a faultless pass, a subset otherwise, and none without masking records |
| Retention.MaskedNoteLeavesTheView | src/remote/r2-client.ts:358-361 | a store where retiring the current record takes a live note out of the view |
| RemoteDelta.ObserveLocalDelta | src/sync/remote-delta.ts:84-109 | the observation holds exactly the entry each requested key has, tombstone lookup included |
| RemoteDelta.ObserveRemoteDelta | src/sync/remote-delta.ts:155-194 | the observation is what the last relevant change of each key says, later changes overriding earlier ones |
| RemoteDelta.LocalDeltaRefinesFullScan | src/sync/remote-delta.ts:84-109 | with no tombstone for its keys, a local delta plans exactly the full plan restricted to them |
| RemoteDelta.RemoteDeltaRefinesFullScan | src/sync/remote-delta.ts:155-194 | with events that describe the objects, a remote delta plans the full plan on its keys, except baselines of vanished notes it does not prune |
| RemoteDelta.LocalDeltaExactIff | src/sync/remote-delta.ts:84-109 | over a valid store and a complete listing, a local delta decides a key as the full scan does if and only if the stated condition on file, baseline, record and intent holds |
| RemoteDelta.LocalDeltaPlansIff | src/sync/remote-delta.ts:84-109 | its plan is the full plan restricted to its keys if and only if every key meets that condition |
| RemoteDelta.LocalDeltaCanMissADeletion | src/sync/remote-delta.ts:100-105 | one such store: with a tombstone and a baseline, the local delta uploads where the full scan reports a conflict |
| RemoteDelta.UntombedIsExact | src/sync/remote-delta.ts:84-109 | keys no record is about meet the condition |
| RemoteDelta.RemoteDeltaExactIff | src/sync/remote-delta.ts:155-194 | over a valid store and a complete listing, a remote delta decides a key as the full scan does if and only if the stated condition on what the changes tell, file, baseline, object, record and intent holds |
| RemoteDelta.RemoteDeltaPlansIff | src/sync/remote-delta.ts:155-194 | its plan is the full plan restricted to its keys if and only if every key meets that condition |
| Observing.LocalDeltaIsSeen | src/sync/remote-delta.ts:84-109 | what a local delta observes at a key is what the executor's local mode sees there |
| Observing.RemoteDeltaIsSeen | src/sync/remote-delta.ts:155-194 | what a remote delta observes at a key is what the executor makes of the last event about it; changes that still hold are true events |
| Text.DecodingMeans | src/sync/text.ts:52-66 | `DecodeText` refuses exactly NUL; BOM, pairs, bare line feeds and final newline are reported exactly where they are; the text has the same lines without the carriage return before each newline |
| Text.PairSurvivesIff | src/sync/text.ts:68-68 | a CRLF pair survives normalizing if and only if a carriage return stands before it |
| Text.EncodingMeans | src/sync/text.ts:101-108 | what `EncodeText` writes has the BOM its shape asks for, no bare line feed when it asks for pairs, and ends in a newline when it asks for one; asked for none, it removes only one |
| Text.DecodeThenEncode | src/sync/text.ts:52-108 | re-encoding a decoded file with its own shape restores it if and only if it does not mix line endings |
| Text.EncodeThenDecode | src/sync/text.ts:52-108 | decoding an encoded CR-free, NUL-free text recovers text and shape if and only if the shape is true of the text |
| Text.ToLines | src/sync/text.ts:75-83 | the loop computes the line model of `SplitLines` |
| Text.LinesRoundTrip | src/sync/text.ts:75-86 | the lines of a text join back to the text |
| Text.LinesOfFromLines | src/sync/text.ts:75-86 | joined lines split back into the same lines |
| Text.SignificantTextIdempotent | src/sync/text.ts:125-132 | the normal form is its own normal form if and only if it holds no CRLF pair |
| Text.TwiceDiffersFromOnce | src/sync/text.ts:125-132 | such a text |
| Merge.PiecesOf | src/sync/merge.ts:85-97 | the cursor loop computes the covering pieces of the ranges |
| Merge.Interleave | src/sync/merge.ts:105-128 | the event loop computes the woven output of the stably sorted pieces |
| Merge.CleanMergeIsPatching | src/sync/merge.ts:67-128 | a clean merge is the base with exactly the surviving ranges of both sides applied in order, identical edits once, and no other line |
| Merge.EverythingApplied | src/sync/merge.ts:112-125 | every range is applied if and only if none is a deletion and no insertion sits at the start or touches another range |
| Merge.OneSidedEditIsKept | src/sync/merge.ts:105-128 | an edit without deletions or a leading insertion survives against an untouched side |
| Merge.MergedLinesSwap | src/sync/merge.ts:161-177 | swapping the sides of a clean merge does not change the lines |
| Merge.DeletionsAreDropped | src/sync/merge.ts:120-120 | sides that only delete merge back to the base |
| Merge.HeadIsLongest | src/sync/merge.ts:146-147 | the trimmed head is the longest shared one within its limit |
| Merge.TailIsLongest | src/sync/merge.ts:148-149 | the trimmed tail is the longest shared one within its limit |
| Merge.ConflictRegion | src/sync/merge.ts:137-154 | the loops compute the region of the colliding ranges |
| Merge.RegionSwap | src/sync/merge.ts:137-154 | the other device finds the same region with the sides exchanged |
| Merge.NarrowEditsDoNotMatter | src/sync/merge.ts:105-151 | whatever a side edits elsewhere, its edits inside the region and smaller than it have no influence on its hunk |
| Merge.NarrowEditsVanish | src/sync/merge.ts:105-151 | a side that edits only inside the region gets the base text as its hunk if and only if no range replaces the region as a whole by other lines; such a range is the hunk; the region may be a point behind the first line |
| Handoff.SomeDiffMeetsTheContract | src/sync/merge.ts:43-56 | the assumed contract of the line diff can be met |
| Handoff.ThreeWayMerge | src/sync/merge.ts:161-188 | on texts, the procedure computes `ThreeWay`: patched text without collisions, otherwise one hunk and a draft |
| Handoff.UntouchedSideYields | src/sync/merge.ts:161-177 | a side equal to the base yields to the other side's text |
| Handoff.OneSidedFileIsKept | src/sync/merge.ts:161-195 | a file edited on one side only, without deletions or a leading insertion, is merged to exactly its own characters if and only if it does not mix line endings |
| Handoff.SplitRegion | src/conflict/handoff.ts:118-135 | the downward search finds the split with the longest fitting head, or none |
| Handoff.ObserverIndependence | src/conflict/handoff.ts:183-228 | swapping the sides never changes the class, nor the text outside the two formatting-only rules, where the difference is exactly that of the sides or of the extras in the merge's own hunk |
| Handoff.HandoffTextIgnoresStamps | src/conflict/handoff.ts:175-180 | two devices that settle one handoff write the same text whatever stamps they saw |
| Handoff.BothAdditionsSurvive | src/conflict/handoff.ts:217-227 | both sides are subsequences of the handoff text, whose length is the ancestor's region plus both extras plus head and tail |
| Handoff.HandoffKeepsBothSides | src/conflict/handoff.ts:118-135 | the same for a hunk, when the middles match |
| Insertions.SplitDrifts | src/conflict/handoff.ts:118-135 | for two additions to one region, the split found lies exactly as far behind the region's start as the three texts agree |
| Insertions.StaysIff | src/conflict/handoff.ts:118-135 | it stays at the additions if and only if nothing follows them, or the region is empty and the two and the following text do not all start with one character |
| Insertions.MiddleMatchesIff | src/conflict/handoff.ts:113-117 | a side is head, own hunk and tail of the split if and only if its hunk reads the same with the shifted text before it and the start of the tail behind it |
| Insertions.InsertionMatchesIff | src/conflict/handoff.ts:113-117 | for an insertion, if and only if it is its own rotation by the shift |
| Insertions.HandoffWrites | src/conflict/handoff.ts:217-227 | the text a handoff of two additions writes, and that it is the ancestor with both in place if and only if they commute with the shift |
| Insertions.BothKeptIfMatched | src/conflict/handoff.ts:217-227 | both sides are kept whenever both middles match |
| Insertions.FirstIsKept | src/conflict/handoff.ts:175-180 | the addition written first survives any shift no longer than the second |
| Insertions.InsertionsAreJudged | src/sync/merge.ts:137-154 | different lines inserted at one point behind the first line are judged as these additions, with no other text in the hunk |
| Insertions.InsertionsSurvive | src/conflict/handoff.ts:183-227 | a handoff of such insertions keeps both in place when nothing follows, or when not all three texts start alike |
| Insertions.InsertionsAtTheStart | src/conflict/handoff.ts:198-201 | insertions at the very start vanish from the hunk and are left to the user |
| Insertions.AdditionIsLost | src/conflict/handoff.ts:118-135 | three texts for which the shipped policy writes a handoff that one side cannot be read in |
| Handoff.AncestorCleanIff | src/conflict/handoff.ts:198-227 | a hunk is settled with the ancestor as its clean text if and only if the split finds the region unchanged on this side, with formatting only added on the other |
| Handoff.AncestorReturnedIff | src/conflict/handoff.ts:183-227 | for edits that collide over the whole text, the exact condition on ranges and lengths under which the ancestor is the clean result |
| Handoff.EndEditsAreLost | src/conflict/handoff.ts:183-227 | on three or more lines, two devices that both rewrite the first and the last one, without making the text longer, get the ancestor as the clean result |
| Handoff.AncestorReturnedAsClean | src/conflict/handoff.ts:198-208 | such a pair of texts under the shipped policy |
| Handoff.EndsSpanTheMiddle | src/sync/merge.ts:137-140 | different edits of the same first and last line are separated hunks that collide over the whole text and rewrite it in no single range |
| Handoff.CombineAdditions | src/ui/conflict-presentation.ts:152-166 | the counters compute shared head, both middles, shared tail |
| Handoff.CombinedKeepsBoth | src/ui/conflict-presentation.ts:152-166 | for any two texts, both are kept as subsequences of lines and of characters |
| Worlds.ShowsIsTheView | src/remote/scan-remote.ts:33-50 | the per-key observation is the bucket-wide view read at that key |
| Worlds.StampsDoNotReturn | src/local/read-local.ts:8-10 | a stamp seen before and after a moment was the file's stamp at that moment |
| Executor.PlanLicenses | src/sync/planner.ts:70-111 | from any observation of the three modes, a planned transfer or deletion only names versions the baseline records, a tombstone named, or, without current events, an announced deletion named |
| Executor.PlanLicensedIff | src/sync/remote-delta.ts:169-175 | a plan reaches over an unaccounted version if and only if it is made from an event's deletion of an object never named by a record, with a file and no baseline |
| Executor.RewrittenNoteIsOverwritten | src/sync/planner.ts:76-78 | in every such world the upload is planned, may land, and replaces that version, where a full scan reports a conflict |
| Executor.SafeExecutor.PutWithBackup | src/sync/executor.ts:205-211 | at most one PUT lands, over a state its precondition allows; a refusal or a definite status proves that none did |
| Executor.SafeExecutor.ReadStable | src/local/read-local.ts:13-19 | the bytes returned are those of the expected version, under any interleaving |
| Executor.SafeExecutor.ReadCurrentStable | src/local/read-local.ts:22-30 | the bytes returned are those of the version returned |
| Executor.SafeExecutor.Commit | src/sync/executor.ts:486-505 | a commit records the given pair or leaves everything as it was |
| Executor.SafeExecutor.CatchUpLatestLocalUpload | src/sync/executor.ts:550-588 | never promises that nothing happened, names only a revision that landed last, and replaces only the PUT it follows |
| Executor.SafeExecutor.Upload | src/sync/executor.ts:525-541 | keeps the run-long claims, is honest, is exact when undisturbed, and as sole reliable writer leaves the object its own |
| Executor.SafeExecutor.VerifyWrittenContent | src/sync/executor.ts:610-639 | a confirmed version held exactly the written bytes, whatever the adapter and the index answered |
| Executor.SafeExecutor.TrashFile | src/sync/executor.ts:259-268 | after the file was trashed, the result is `failed` if and only if somebody created it again |
| Executor.SafeExecutor.Download | src/sync/executor.ts:653-708 | keeps the run-long claims, is honest, and is exact when undisturbed |
| Executor.SafeExecutor.DeleteLocal | src/sync/executor.ts:250-271 | trashes only the checked version; is honest but for re-creation during the call; is exact when undisturbed |
| Executor.SafeExecutor.PutTombstone | src/remote/r2-client.ts:336-350 | writes one record for the version, or counts an existing one as success and leaves it as it is |
| Executor.SafeExecutor.DeleteRemote | src/sync/executor.ts:283-325 | names only the planned version; the tombstone path is honest; is exact when undisturbed |
| Executor.SafeExecutor.ResolveKeepLocal | src/sync/executor.ts:342-361 | replaces only the version the user named, is honest and exact, and leaves the object this device's own |
| Executor.SafeExecutor.ResolveKeepRemote | src/sync/executor.ts:370-388 | overwrites only the version the user saw; the record is true unless a later stamp was read |
| Executor.SafeExecutor.ReadStampBack | src/sync/executor.ts:448-452 | the record can be untrue only through the stamp of a later save with other content |
| Executor.SafeExecutor.ResolveMerged | src/sync/executor.ts:400-415 | writes the remote half over the named version first, the local half only over the version the user saw, and reports honestly |
| Executor.SafeExecutor.AcceptRemoteDelete | src/sync/executor.ts:422-432 | under any interference, trashes only after the object was seen to be the deleted version, and only the version the user saw |
| Executor.SafeExecutor.Execute | src/sync/executor.ts:216-227 | all of this for every operation: honest results, exact world and report when undisturbed, untruth only through a misread stamp |
| Executor.SafeExecutor.Plan | src/scheduler/scheduler.ts:167-191 | a plan from observations taken at different moments, in any of the three modes, is still licensed when it is executed |
| Executor.SafeExecutor.Cycle | src/scheduler/scheduler.ts:346-357 | an undisturbed cycle, in any mode, is the planned decision carried out; after a cycle of a sole reliable writer that read no untrue event, the baseline still describes the object, and no unrecorded object is live unless a note was deleted again in a version deleted before |
| Executor.SafeExecutor.Session | src/sync/executor.ts:124-709 | over any run of full, local-delta and remote-delta cycles, with any interference and failure, the log is complete; an effect reaches over an unaccounted version if and only if it is such an upload, and none does with current events; every recorded pair is true unless its own resolution misread it, and the baseline is true exactly but while such a pair is in force |
| Executor.BaselineTruth | src/sync/executor.ts:486-505 | at every moment of a run the baseline pairs versions of equal content, if and only if it was not recorded by a misread resolution |
| Executor.SafeExecutor.EditingSession | src/sync/executor.ts:507-588 | a sole reliable writer, from any baseline that describes the object: over any mix of saves, removals, cycles in all modes, deletions, partial catch-ups and keep-local decisions, each plan is the device's own write, nothing, or the user's own deletion if and only if it is `Peaceful`; claims nothing once an untrue event was read |
| Executor.PeaceIff | src/sync/planner.ts:70-110 | where the baseline, if any, describes the live object, a plan from a scan, a local delta or a true event is own if and only if it is `Peaceful`; otherwise it is a conflict no decision resolves, or a download of the own object |
| Executor.OwnWritesConflictIff | src/sync/remote-delta.ts:100-105 | where also no unrecorded object is live, whatever records are left, it is own if and only if not a local delta finds a file without a baseline over a deleted object |
| Executor.RecreatedNoteConflicts | src/sync/remote-delta.ts:100-105 | from every first upload, deletion and re-creation by one device: a local delta plans a conflict for every decision, a full scan the upload |
| Executor.OwnEventKeepsPeaceIff | src/sync/planner.ts:85-97 | a plan from a put event is an upload, nothing or the own deletion if and only if the baseline records the version it names |
| Executor.FailedThoughTrashed | src/sync/executor.ts:259-268 | after a landed removal the result is an untrue `failed` if and only if the file is there again; from every world the editor can bring that about |
| Executor.LateStampUntrueIff | src/sync/executor.ts:448-452 | a late stamp makes the record untrue if and only if the later save changed the content; either way the next plan is a noop |
| Converge.CycleSettles | src/sync/planner.ts:66-113 | every decision of an undisturbed cycle leaves the key in sync, gone, or in the same conflict, but for deleting a revived note |
| Converge.FixedPoint | src/sync/planner.ts:60-114 | after an undisturbed cycle the next plan is nothing, noop with equal contents, or the same conflict, if and only if no revived note was deleted |
| Converge.RevivedDeletionComesBack | src/remote/r2-client.ts:336-350 | the exception is reachable: a revived note that is deleted is planned as a download again |
| Converge.RunPlanSettles | src/scheduler/scheduler.ts:198-260 | running a plan carries out each key's decision once and touches no other key |
| Converge.WholePlanFixedPoint | src/sync/planner.ts:60-114 | after an undisturbed cycle over all keys the next plan holds only noops with equal contents and conflicts |
| Converge.TurnAgrees | src/sync/executor.ts:216-227 | with physical deletes, a cycle without conflict leaves file and object equal, with content that was already there |
| Converge.FollowerKeepsRemote | src/sync/planner.ts:85-110 | a device without local changes never changes the object |
| Converge.TwoDevicesConverge | src/sync/planner.ts:66-113 | from true baselines and any leftover records, undisturbed cycles A, B, A leave both files and the object equal with content that was already somebody's, if and only if not A still has a baseline for a deleted note and B a file without one |
| Converge.BroughtBackIsDeleted | src/sync/planner.ts:74-96 | the exception is reachable: the second device keeps a file nobody else has |
| Converge.EditPropagates | src/sync/planner.ts:85-90 | an edit on one device alone is on the other device after two cycles |
| Scheduler.CompleteIff | src/scheduler/scheduler.ts:520-548 | the tally is complete if and only if no result was stale, partial, unresolved or a rejected credential |
| Scheduler.CompleteHidesRaised | src/scheduler/scheduler.ts:272-286 | a complete tally has an operation in doubt if and only if one raised |
| Scheduler.ThrownWindowCountsAsComplete | src/scheduler/scheduler.ts:272-286 | a cycle in which an observation or an operation threw is complete, and unfinished, if its other results have no shortfall |
| Scheduler.RaisedDeltaIsConfirmed | src/scheduler/scheduler.ts:285-289 | a delta whose only operation raised is complete, confirms its generation, and covers nothing |
| Scheduler.ConfirmedIsCoveredUnlessThrown | src/scheduler/scheduler.ts:280-301 | every confirmed generation has a proof, which covers the write it confirms if and only if nothing in its cycle threw |
| Scheduler.ReportedPutsAreFacts | src/scheduler/scheduler.ts:498-510 | a reported PUT names the last revision the operation really wrote |
| Scheduler.LandedButUnreported | src/scheduler/scheduler.ts:561-575 | a landed PUT goes unreported if and only if its result is unresolved, an exception, or half-applied without a revision |
| Scheduler.SyncScheduler.RequestReconcile | src/scheduler/scheduler.ts:46-51 | arms the one cycle timer, or is kept for the end of the running cycle, or is ignored |
| Scheduler.SyncScheduler.Announce | src/gateway/client.ts:220-226 | a generation above the announced one puts its delta at the end of the queue; any other changes nothing |
| Scheduler.SyncScheduler.RequestRemoteChange | src/scheduler/scheduler.ts:54-61 | the queue stays strictly ascending by generation |
| Scheduler.SyncScheduler.MarkLocalPaths | src/scheduler/scheduler.ts:64-74 | all relevant keys get one new version, and no other mark changes |
| Scheduler.SyncScheduler.ConfigChanged | src/scheduler/scheduler.ts:76-83 | keeps every invariant and arms a cycle unless stopped, hidden or running |
| Scheduler.SyncScheduler.VisibilityChanged | src/scheduler/scheduler.ts:85-88 | hiding disarms the cycle timer and ends the trust in deltas |
| Scheduler.SyncScheduler.Stop | src/scheduler/scheduler.ts:90-94 | keeps every invariant and disarms the cycle timer |
| Scheduler.SyncScheduler.TakeDelta | src/scheduler/scheduler.ts:146-147 | a trusted cycle takes exactly the head of the queue, and uses it only as the exact next generation after the confirmed one |
| Scheduler.SyncScheduler.OpenWindow | src/scheduler/scheduler.ts:176-185 | a boundary is read exactly for a remote reason or a pending generation, and the listing finds every write announced up to it |
| Scheduler.SyncScheduler.Operate | src/scheduler/scheduler.ts:198-274 | the tally counts the results of the loop, is complete if and only if the loop was not halted and they have no shortfall, and is marked thrown if and only if one raised |
| Scheduler.SyncScheduler.ConfirmGeneration | src/scheduler/scheduler.ts:408-432 | confirms exactly the opening generation, only on a complete tally, and only if nothing was published until the closing read |
| Scheduler.SyncScheduler.Conclude | src/scheduler/scheduler.ts:280-301 | a delta confirms its own generation if and only if the tally is complete, whatever threw; a window the one it opened with; either leaves one proof with the work of its cycle |
| Scheduler.SyncScheduler.SettleQueue | src/scheduler/scheduler.ts:303-304 | an unconfirmed delta returns to the head of a still ascending queue; a confirmed window empties it |
| Scheduler.SyncScheduler.CheckOwnWrite | src/scheduler/scheduler.ts:332-337 | a key is dropped if and only if the `stat` found the version reported; the marks lost are exactly those of `DropLosesIff` |
| Scheduler.SyncScheduler.DropOwnEvents | src/scheduler/scheduler.ts:332-337 | only keys this cycle wrote lose marks: those of its own write or of what it replaced, and those of `DropLosesIff`; the check that throws is of an own write marked since the start |
| Scheduler.OwnEventIsChecked | src/scheduler/scheduler.ts:335-335 | whenever a file is written and its event marked, the check that may throw is made |
| Scheduler.DropLosesIff | src/scheduler/scheduler.ts:330-338 | a dropped mark stands neither for the own write nor for what it replaced, if and only if it was made on another version after the `stat`, or at any time since the write where the stamp was misread |
| Scheduler.MisreadEditIsLost | src/sync/executor.ts:448-452 | whenever a file is written, an edit saved and marked before its stamp is read back is lost with the dropped key |
| Scheduler.PendingEditIsLost | src/scheduler/scheduler.ts:335-335 | whenever a key is about to be dropped, an edit saved and marked after the `stat` goes with it, and the key is not dirty any more |
| Scheduler.SyncScheduler.FinishCycle | src/scheduler/scheduler.ts:433-471 | stopped, reconfigured, rejected and hidden schedulers end idle, rearmed, blocked and idle; any other arms exactly what `NextAfter` says |
| Scheduler.SleepsWithoutWork | src/scheduler/scheduler.ts:440-470 | nothing follows if and only if no delta, mark, rerun, stale plan or outage is left; an outage backs off instead of spinning on its queue |
| Scheduler.SyncScheduler.Begin | src/scheduler/scheduler.ts:124-153 | a cycle consumes its reason and forgets older reruns; it is local-incremental exactly for edit reasons with marks and no delta in work |
| Scheduler.SettledUnseenIff | src/scheduler/scheduler.ts:339-339 | a dirty key is settled without being looked at if and only if the cycle ended before planning, or used a delta that does not name it |
| Scheduler.LooksAtIsObserved | src/scheduler/scheduler.ts:150-175 | the observation of a cycle, in each mode, holds file and baseline of exactly the keys it looks at, and decides nothing for others |
| Scheduler.DeltaSettlesUnseen | src/scheduler/scheduler.ts:339-339 | both happen: a delta for one note settles the mark of another |
| Scheduler.SyncScheduler.RunCycle | src/scheduler/scheduler.ts:124-345 | settles exactly the marks up to its start, unseen ones as stated; drops later marks only with own writes; moves the cursor only by a proof that holds its own work; dies if and only if the check of an own write marked since the start threw; otherwise arms a follow-up |
| Scheduler.SyncScheduler.Lifetime | src/scheduler/scheduler.ts:19-473 | over any sequence of events: one cycle at a time, one cycle timer, ascending queue, every mark settled, waiting, excused or lost with a dropped key, every confirmed generation proved, cursor monotone; a died cycle ends all cycles |
| Scheduler.WindowCovers | src/gateway/client.ts:229-236 | confirming an opening generation whose writes were all seen keeps every invariant, and covers all of it if and only if nothing in the cycle threw |
| Scheduler.DeltaCovers | src/gateway/client.ts:120-122 | a complete delta that advances the cursor by exactly one keeps every invariant, and covers its write if and only if nothing in the cycle threw |
| Reporter.ClassifyIngressStatus | src/gateway/mutation-ingress.ts:162-170 | each of the five verdicts is given for exactly the stated statuses; a fact is kept for 429 and for answers that are neither success nor refusal |
| Reporter.DecideOne | src/gateway/mutation-ingress.ts:238-244 | deciding one fact's fate takes exactly that fact out of the queue |
| Reporter.PrefixIsOrderly | src/gateway/mutation-ingress.ts:233-237 | a head batch with distinct paths sends no fact before an older one of its path |
| Reporter.MutationReporter.Mint | src/gateway/mutation-ingress.ts:213-220 | every verifiable write becomes one numbered waiting fact, in order, and no other fact changes |
| Reporter.MutationReporter.NextBatch | src/gateway/mutation-ingress.ts:234-236 | a batch is the longest head of at most four facts with distinct paths |
| Reporter.MutationReporter.SendWave | src/gateway/mutation-ingress.ts:237-244 | settles exactly the facts of its batch whose answer was not retryable, and leaves the others waiting in order |
| Reporter.MutationReporter.Evict | src/gateway/mutation-ingress.ts:250-254 | drops exactly the oldest facts beyond 64 |
| Reporter.MutationReporter.Report | src/gateway/mutation-ingress.ts:208-263 | every minted fact keeps one id and one fate, at most one wave of four is deferred, nothing waits after an undeferred report, and at most 64 remain |

## Left out

- HTTP, request signing, XML, timeouts and transports: R2 is an object with conditional put, get, head and delete.
- Recovery store, pending physical deletes and backups: a conditional PUT may fail before it is sent; physical deletion is an abstract conditional delete, and its reports are not claimed to be honest because the store's source is not part of this model.
- IndexedDB stores: a commit happens or fails without effect.
- UTF-8 coding, SHA-256, `localeCompare` and the internals of the line diff: strings of characters, an injective digest, any ranking, and a contract.
- `encodeMerged` (src/sync/executor.ts:712-720): a merged resolution carries its final bytes; the shape rules are those of `Text.Encoding`.
- A target path that turns out to be a file or folder at odds with the Vault index: index and disk agree in the model.
- Batches of concurrent remote deletes: operations run one after the other.
- A scheduler without a Gateway or without exact-path observation, progress, status and diagnostics.
- The cursor of another channel: one channel is modelled, and `confirmReconciled` is a maximum.
- Intents bound to an older conflict identity (src/conflict/coordinator.ts:134): a plan takes any intent for its key.
- Path canonicalisation, ignore rules, sync history, merge-base snapshots, bootstrap hashing and the user interface: they would only add easier members.
- Records with an unreadable creation time: the parser refuses them (src/remote/tombstones.ts:97), so no listed record has one.
- Merge.NarrowEditsVanish: stated for sides that edit nothing outside the region; `Merge.NarrowEditsDoNotMatter` holds for all sides.
- Handoff.AncestorReturnedIff: speaks of edits that collide over the whole text; `Handoff.AncestorCleanIff` of any hunk, by its split.
- When an announced generation is looked at: only safety is claimed. Confirming a window empties the queue, deltas announced since its closing read included.
- Handoff.HandoffKeepsBothSides: needs the middles to match, which the code does not compare; `Insertions.MiddleMatchesIff` says when they do for two additions, and `Insertions.AdditionIsLost` what happens otherwise.
- Executor.SafeExecutor.DeleteRemote: honesty is claimed for the tombstone path only.
