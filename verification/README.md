# Drivel: verified models of the sync core

Drivel keeps a local tree and a remote store the same in both directions. This
project models the parts of it that decide what is lost and what is kept, and
proves what they promise. Classes and methods follow the program where it works
by changing things in place; each is proved against a function or predicate, and
the lemmas are about those.

- `Conflicts`, `ConflictRuns`, `ConflictFingerprints`, `ConflictWinners`,
  `ConflictOutcomes`, `ConflictWindows`, `ConflictMount`: the pull, the push-side
  divergence check, the conflict policy and the senders of copies, as one machine
  over a path. A digest is the content
  itself, a local fingerprint a stamp every write renews.
- `PathLock`: the refcounted per-path lock, threads one step at a time.
- `Delivery`, `PullLoop`: the page loop, the persisted cursor and the debts for
  failed applies, with crashes between any two steps.
- `Page`, `Removal`: one page of changes over a whole tree, and the prune of a
  removed directory.
- `Paths`, `Buckets`, `Records`, `PathIndex`: the record store and the path and
  id index, over buckets sorted by key.
- `Ranges`, `RangeRuns`, `RangeSet`: byte-extent bitmaps.
- `Placeholders`, `Hydration`: the placeholder marker, system call by system
  call, and the singleflight with its bounded pool.
- `Streams`, `Content`, `Sparse`: the byte movers.
- `Raster`, `FloodFill`, `Chamfer`: the two raster algorithms of the logo tool.

`dafny verify dfyconfig.toml` checks everything.

## What turned out not to hold

Each of these is a lemma with a concrete input, beside the exact condition under
which the promise does hold. The runs of the conflict machine start from a path
nothing has happened to.

- Without digests, a write into the file between its upload and the record of it
  gets the baseline's fingerprint; the next remote version then replaces the
  write, unsent and unkept (`WriteDuringUploadLost`; exact conditions
  `RecordTrueIff`, over runs `FingerprintsTrueIff`, and for one pull
  `PullLosesEditIff`). The comment at `recordEchoOf` counts on the next push,
  which a pull can come before.
- A stale report applied between a push's check and its upload makes both sides
  win (`StaleReportTwoWinners`; exact condition for one pull `TakenAwayIff`, and
  for whole pushes of fresh reports `OneWinner`, whose one exception is
  `DeletedBeforeCreateTwoWinners`).
- The baseline recorded after an upload drops a kept record the pull made
  meanwhile, and after a restart the version is kept twice (`RestartKeepsTwice`;
  exact conditions `RecordForgetsIff`, `KeptAgainIff`). A stale report keeps a
  version twice on its own (`StaleReportKeepsTwice`; exact condition for any report
  `PullKeepsIff`).
- The check by name at the head of `keepRemote` trusts a local loser of the same
  second (`SameSecondLosesRemote`; exact condition `KeptIffNameTrue`).
- With the conflicts folder on the remote alone a second loser of the same second
  is uploaded over the first one's copy (`SameSecondLosesCopy`; exact conditions
  `SenderLosesIff`, `StepKeepsIff`, and over runs `CopiesStayIff`).
- The flush at the end of a page can drop a debt that a move in the same page
  carried to a forgotten path (`FlushDropsMovedDebt`; exact conditions
  `MovedDebtSurvivesIff`, `DebtOutlivesFlushIff`).
- Batching a page differs from one change at a time not only when a removed path
  is reported again with its baseline's identity, but also when the re-report is
  export-only or fails over a stale record, and when a move carries a path
  waiting to be forgotten out of its directory (`ReReportDiffers`,
  `MoveOutDiffers`; exact conditions `ChangeAgreesIff`, `AgreesIff`,
  `MoveAgreesIff`, `RemovalAgreesIff`).
- A rename into its own subtree leaves the index's two directions unequal when a
  row lands where a later row used to be (`NestedRenameClashes`; exact condition
  `RenameIff`). The comment in `Rename` says such moves are refused before. A
  rename of the mount root puts nothing between the new name and a path
  (`RootRenameJoins`; exactly what it does, `RootRename`).
- A rename can leave a path both a baseline and a tombstone (`RenameLeavesBoth`;
  exact condition `RenameExclusiveIff`).
- Growing a present set past a short, marked last block claims bytes nobody
  supplied (`GrowPastShortTailClaims`; exact condition `GrowClaimsNothingIff`).
- A fetch that read a marker another fetch has since removed writes over an
  unmarked file (`StaleMarkerTears`; exact condition `RefetchSafeIff`), and a
  placeholder created while a fetch of the path finishes is unmarked by it
  (`OverlapUnmarksTheWrongFile`; exact conditions `UnmarkSafeIff`,
  `UnmarkAfterPublishIff`).

## Model

| member | source | states |
|---|---|---|
| ConflictFingerprints.NoUnkeptLocalLoss | internal/syncengine/downloader.go:596-771 | over every run of local and remote edits, pulls of fresh or stale reports, pushes, senders, failures and restarts in which no conflict copy is uploaded over another and, without digests, no upload is recorded over a file written since: whatever the mount takes off the path held the content the baseline stands for, or is in a copy then and at every later moment |
| ConflictFingerprints.NothingUnsentLost | internal/syncengine/downloader.go:937-985 | so what is taken off stood on the remote at that moment or before, or is in a copy from then on: an edit never sent is never destroyed |
| ConflictFingerprints.PullLosesEditIff | internal/syncengine/downloader.go:1044-1071 | a pull that buries nothing destroys an edit exactly when its fingerprint matches a baseline of other content, it is in no copy, and a report that is no echo puts another content in its place |
| ConflictFingerprints.RecordTrueIff | internal/syncengine/engine.go:1738-1750 | after an upload is recorded the fingerprint is of what was sent exactly when the backend reports digests, the file has left the path, or it has not been written since |
| ConflictFingerprints.StepFingerprint | internal/syncengine/engine.go:1738-1750 | and every other step, of either side or of the mount, keeps a true fingerprint true |
| ConflictFingerprints.FingerprintsTrueIff | internal/syncengine/engine.go:1469-1487 | over a whole run the fingerprint is true at every moment exactly when every upload is recorded so |
| ConflictFingerprints.BaselineWasRemote | internal/state/state.go:351-369 | what a baseline stands for stood on the remote at that moment or before, every report applied being of a version the remote held |
| ConflictRuns.NoUnkeptRemoteLoss | internal/syncengine/diverged.go:72-168 | whatever an upload replaces on the remote was found to be the baseline by a check while it stood there, or is in a copy then and at every later moment, the names keepRemote trusts being honest |
| ConflictRuns.CopiesNeverVanish | internal/syncengine/conflicts.go:469-507 | a content once in a copy is in a copy ever after: no sender step, failure or restart leaves a moment without one, unless a copy is uploaded over another |
| ConflictRuns.CopiesStayIff | internal/syncengine/conflicts.go:469-507 | a run loses no copy exactly when no step of it uploads a copy over another content that is held nowhere else |
| ConflictRuns.StepKeepsIff | internal/syncengine/conflicts.go:469-507 | and the same of one step, pull, check or sender: it loses a copy exactly when the copy it sends at once buries one |
| ConflictRuns.ExcusedSince | internal/syncengine/diverged.go:117-128 | a push excused from keeping the remote version met that very version, still standing, and it matched the baseline |
| ConflictRuns.StepInv | internal/syncengine/conflicts.go:327-507 | one step that buries nothing loses no copy and, the fingerprint being true, takes nothing off the path unkept, nor replaces anything unkept on the remote; the names it trusts being honest, what the records and the push know of the remote stays true |
| ConflictRuns.SenderLosesIff | internal/syncengine/conflicts.go:491-507 | a sender's step loses a copy exactly when it uploads over another content that stands under the name on the remote and is held nowhere else; trashing and removing never lose one |
| ConflictRuns.KeepRemoteInv | internal/syncengine/conflicts.go:355-401 | a keep of the remote that buries nothing keeps every copy and, its name being honest, leaves the version in a copy: by the backend's copy, by download or by record |
| ConflictRuns.CheckInv | internal/syncengine/diverged.go:72-168 | after the push-side check the push may upload only over the baseline or over a kept version, and no copy is lost to it |
| ConflictRuns.PullInv | internal/syncengine/downloader.go:596-771 | a pull that buries nothing takes an edit off the path, the fingerprint being true, only once it is kept, and keeps what is known of the remote true |
| ConflictWinners.OneWinner | internal/syncengine/conflicts.go:147-207 | over a whole push from open to upload, in a run of fresh reports: an edit, one that does not pass for synced, that a pull moves away as the loser is not uploaded as the winner, but by a create let through before the report and met by no object |
| ConflictWinners.OrphanNeverPasses | internal/syncengine/diverged.go:72-90 | a push whose file has left the path, before its check or after a refused create, never again passes the check, however long it goes on |
| ConflictWinners.TakesOnlyFromCreate | internal/syncengine/downloader.go:937-985 | a pull of the standing version never moves away an edit whose push was let through to replace a version |
| ConflictWinners.TakenAwayIff | internal/syncengine/downloader.go:937-985 | a pull moves away a local file that does not pass for synced exactly when the report is neither the baseline nor already kept, differs from the file, is newer, and the move succeeds |
| ConflictWinners.KeptAtMostOnce | internal/syncengine/conflicts.go:566-600 | in a run of fresh reports in which no record of an upload makes the store forget a version it knew, each remote version is kept at most once, across restarts |
| ConflictWinners.PullKeepsIff | internal/syncengine/downloader.go:937-985 | a pull of any report, fresh or stale, keeps its version once more exactly when it is neither the baseline nor recorded as kept, meets a diverged file that is not the older, and the copy can be made |
| ConflictWinners.RecordForgetsIff | internal/syncengine/engine.go:1469-1487 | after an upload is recorded the store knows the standing version exactly when that is the one sent |
| ConflictWinners.KeptAgainIff | internal/syncengine/conflicts.go:566-600 | and after a restart on top of that, a pull keeps the version once more exactly when the local file has diverged, is not the older, and the copy is not there already and can be made |
| ConflictWinners.KeepCounts | internal/syncengine/conflicts.go:355-401 | a keep, of whatever report, makes one copy and a record, or none; with the record in the store it makes none |
| ConflictWinners.RunSettled | internal/syncengine/diverged.go:72-168 | a push about to upload over a version has it as baseline or as kept, at every moment of a run of fresh reports |
| ConflictWinners.CheckRefusesIff | internal/syncengine/diverged.go:72-168 | an open push whose look is true is ended by its check exactly when its file has left the path, or the remote moved and the push holds its bytes, or holds the baseline's, or the version cannot be kept; otherwise the same file goes on, as a create exactly if it is a first push unlooked, excused exactly if the remote is the baseline |
| ConflictWinners.NothingNewInStep | internal/syncengine/diverged.go:132-143 | ended because the remote already holds its bytes, the push leaves the standing version as baseline with the held file's fingerprint |
| ConflictWinners.KeepFailsIff | internal/syncengine/conflicts.go:355-401 | a keep of the remote version fails exactly when it is neither recorded nor taken for kept and no copy can be made |
| ConflictWindows.StaleReportTwoWinners | internal/syncengine/downloader.go:937-943 | a run from an untouched path: a stale report between a push's check and its upload moves the edit away and it is uploaded as well |
| ConflictWindows.DeletedBeforeCreateTwoWinners | internal/syncengine/engine.go:1295-1348 | a run of fresh reports: a create let through, an object that appears, moves the edit away and is gone again, and the create that stores the edit |
| ConflictWindows.RestartKeepsTwice | internal/state/state.go:351-369 | a run of fresh reports: the baseline recorded after an upload drops a kept record made meanwhile, and after a restart the version is kept again |
| ConflictWindows.StaleReportKeepsTwice | internal/syncengine/conflicts.go:566-600 | a run in which nothing is forgotten: a stale report of a version kept before the last one keeps it again |
| ConflictWindows.KeptIffNameTrue | internal/syncengine/conflicts.go:384-389 | a keep that did not fail has made a copy exactly when nothing lay under the version's name here; if something did, no copy changes, so the version is in one exactly if it was before |
| ConflictWindows.SameSecondLosesRemote | internal/syncengine/conflicts.go:384-389 | a run from an untouched path: an earlier local loser of the same second stands under the version's name, and the remote version is replaced unkept |
| ConflictWindows.SameSecondLosesCopy | internal/syncengine/conflicts.go:605-617 | a run with the folder on the remote alone: two local losers of the same second get one name, and the second one's upload buries the first |
| ConflictWindows.WriteDuringUploadLost | internal/syncengine/engine.go:1738-1750 | a run of fresh reports without digests: a write into the file between its upload and the record, and the next remote version, which replaces it; it was never on the remote and is in no copy |
| Conflicts.FirstFree | internal/syncengine/conflicts.go:605-617 | the number chosen for a copy is the first free one |
| ConflictOutcomes.LocalLoserPlaced | internal/syncengine/conflicts.go:327-350 | with every call succeeding, a local loser has left the path and stands exactly in the places its policy names |
| ConflictOutcomes.RemoteLoserPlaced | internal/syncengine/conflicts.go:355-401 | and so does a remote loser, copied by the backend or downloaded, with its record made |
| ConflictOutcomes.LocalSentLater | internal/syncengine/conflicts.go:469-507 | a sender that is only started leaves, once it has run, what running it at once would have left |
| ConflictOutcomes.RemoteSentLater | internal/syncengine/conflicts.go:355-401 | and so for a remote loser, copied by the backend or downloaded |
| ConflictOutcomes.PullConverges | internal/syncengine/downloader.go:596-771 | a fresh report with nothing failing leaves the path in step with the remote, baseline and fingerprint included, or the local edit standing and the remote version kept |
| ConflictOutcomes.AnyReportConverges | internal/syncengine/downloader.go:596-771 | any report with nothing failing: an echo changes nothing; otherwise the path holds what the remote holds now, or the file stands and is the report's content, or stands with the version kept |
| ConflictOutcomes.OverwriteConverges | internal/syncengine/downloader.go:937-985 | under the action that keeps nothing: in step with the remote, or the local file is not the older and nothing has changed |
| ConflictOutcomes.PushConverges | internal/syncengine/engine.go:1469-1487 | after an upload and its record the remote holds what was sent, the baseline is that version, and its report coming back changes nothing |
| ConflictRuns.KeepLocalInv | internal/syncengine/conflicts.go:327-350 | a local loser leaves the path only into a copy, and no other copy is lost to it |
| ConflictRuns.UploadInv | internal/syncengine/engine.go:1295-1348 | an upload replaces only the baseline it was excused over or a kept version |
| ConflictMount.Mount.SendStep | internal/syncengine/conflicts.go:491-507 | in place: one successful step of a sender; it loses a copy exactly when it uploads over another content held nowhere else, and otherwise keeps all that was known true |
| ConflictMount.Mount.DownloadCopy | internal/syncengine/conflicts.go:394-400 | in place: with the name free and nothing buried, the remote object is in a copy, every other copy stays, and nothing but copies and senders has changed |
| ConflictMount.Mount.Place | internal/syncengine/downloader.go:880-896 | in place: with the download failing nothing changes; else the path is a new file of what the remote holds, with the report's time; with nothing failing it is in step with the remote |
| ConflictMount.Mount.DecideMoved | internal/syncengine/diverged.go:132-168 | in place: the push is ended exactly with nothing new to send, no edit in it, or no way to keep the version; no copy is lost, and a push let through has the version it met in a copy |
| ConflictMount.Mount.KeepLocalLoser | internal/syncengine/conflicts.go:327-350 | in place: kept, the file has left the path and its content is in a copy, every other copy standing; not kept, nothing has changed |
| ConflictMount.Mount.KeepRemoteLoser | internal/syncengine/conflicts.go:355-401 | in place: not failed, the version is remembered and, its name honest and nothing buried, in a copy; failed, nothing has changed |
| ConflictMount.Mount.CopyOnRemote | internal/syncengine/conflicts.go:414-460 | in place: the backend's own copy puts the object in a copy and loses none; refused, as over a standing object, nothing has changed |
| ConflictMount.Mount.PublishCopy | internal/syncengine/conflicts.go:469-486 | in place: sending a copy away loses none if its upload buries nothing, and keeps all that was known true |
| ConflictMount.Mount.SendAway | internal/syncengine/conflicts.go:491-507 | in place: the sender run to the step where it gives up; no copy is lost if its upload buries nothing |
| ConflictMount.Mount.FreeName | internal/syncengine/conflicts.go:605-617 | the loop that looks for a free name finds the first one |
| ConflictWinners.KeepRemembers | internal/syncengine/conflicts.go:586-600 | a keep that did not fail leaves the version recognised as kept, by the record in memory or in the store |
| ConflictMount.Mount.Resolve | internal/syncengine/downloader.go:937-985 | in place: the loser is in a copy before it is off the path, and the file leaves the path exactly when the report is new, newer and the move succeeds |
| ConflictMount.Mount.ApplyTo | internal/syncengine/downloader.go:596-771 | in place: one report applied to one path; no copy is lost, a true fingerprint stays true, an edit leaves the path only into a copy but in exactly the case of a false fingerprint, and with nothing failing both sides are in step or the edit stands and the version is kept |
| ConflictMount.Mount.HashlessVerdict | internal/syncengine/downloader.go:1044-1071 | unchanged only by a matching fingerprint, and then the file holds what the baseline stands for exactly if the fingerprint is true; the same only if the contents are equal; diverged without a fingerprint only if they are not; unreadable only if the object could not be read |
| ConflictMount.Mount.CheckRemote | internal/syncengine/diverged.go:72-168 | in place: the push is ended in exactly the named cases, and otherwise let through as named; both sides stay as they are, and what it may replace is the baseline or a version kept, in a copy if its name was honest |
| ConflictMount.Mount.UploadWhole | internal/syncengine/engine.go:1295-1348 | in place: what is replaced was the baseline or is in a copy; a create that meets an object replaces nothing and goes back to the check |
| ConflictMount.Mount.RecordUpload | internal/syncengine/engine.go:1469-1487 | in place: the baseline is what was sent; the held file is its own baseline exactly if it still holds what was sent, and only then, or by digest, or with the file gone, is the fingerprint true; the store knows the standing version exactly if that is the one sent |
| PathLock.LockIsExact | internal/syncengine/conflicts.go:182-207 | in every reachable state a path has at most one holder, its threads share one turn, the count is those threads, and the entry stands exactly while it is positive |
| PathLock.WaiterCanProceed | internal/syncengine/conflicts.go:182-207 | a waiting thread can take its turn, or the thread that holds it can give it up |
| PathLock.StepInv | internal/syncengine/conflicts.go:182-207 | registering, locking, unlocking and counting down, each a step of its own, keep the lock exact |
| PathLock.StepMoves | internal/syncengine/conflicts.go:182-207 | each step takes its own thread on, to waiting, holding, released and gone, and no other |
| PathLock.Locks.Register | internal/syncengine/conflicts.go:186-195 | in place: the entry made or shared and the count raised |
| PathLock.Locks.Take | internal/syncengine/conflicts.go:197-198 | in place: the turn locked by a thread that waits for it, which is then the one holder |
| PathLock.Locks.Give | internal/syncengine/conflicts.go:198-200 | in place: unlocked, with no holder and the count still standing |
| PathLock.Locks.CountDown | internal/syncengine/conflicts.go:200-206 | in place: the thread gone and the count lowered, the entry deleted exactly with the last one |
| Delivery.DeliveredAtLeastOnce | internal/syncengine/downloader.go:387-416 | in every run, crashes between any two steps, a non-removal change behind the persisted cursor was applied without error or recorded as owed, and that record stands, followed through renames, unless one of the four named operations discharged it |
| Delivery.DebtsStand | internal/state/state.go:351-429 | a debt recorded at any moment still stands where renames took it, or was discharged by SetEcho, ForgetMany, ForgetDeleted or a retry |
| Delivery.StepDebtsIff | internal/state/state.go:351-429 | the debts after a step are exactly those that stood and were not discharged, where it took them, and the one it records |
| Delivery.AllHandled | internal/syncengine/downloader.go:387-416 | every non-removal change the loop has passed was handled at some step, even those a crash replays |
| Delivery.CursorAdvances | internal/syncengine/downloader.go:387-416 | after a fetch of n, a successful flush and an advance the cursor is n, persisted if the write succeeds, and every non-removal change before n has been handled |
| Delivery.FlushDropsMovedDebt | internal/syncengine/downloader.go:582-591 | a concrete run: a removal collected for the flush takes away a debt a later move in the page carried to that path |
| Delivery.MovedDebtSurvivesIff | internal/syncengine/downloader.go:582-650 | a debt a move of the page carries survives the page's flush exactly when the page's last word on the path it lands on was not a removal |
| Delivery.DebtOutlivesFlushIff | internal/syncengine/downloader.go:582-650 | and so does any debt standing at the flush, wherever renames took it |
| Delivery.ForgetIff | internal/syncengine/downloader.go:596-650 | in a page a path waits to be forgotten exactly when a removal collected it and no report of it came after |
| PullLoop.Downloader.RunPage | internal/syncengine/downloader.go:387-416 | in place: a page applied, its failures owed, its removals flushed, then the cursor: it is the page's end exactly if the flush succeeds, and persisted if that write does too |
| PullLoop.ApplyAllIsSteps | internal/syncengine/downloader.go:387-416 | applying a page is a stretch of the machine's steps, each change in turn with its own outcome and its debt |
| PullLoop.Downloader.ApplyOne | internal/syncengine/downloader.go:393-407 | in place: one change applied, or owed with a pass armed |
| PullLoop.Downloader.RefetchPass | internal/syncengine/refetch.go:135-191 | in place: the pass is the delivery machine's retry steps, each debt once until a backend is down; what is left is exactly what did not settle, and the count says how many |
| PullLoop.Downloader.DueRefetch | internal/syncengine/refetch.go:104-119 | in place: the pass runs only when due, and while a debt stands another is armed with doubled delay |
| PullLoop.Downloader.ArmRefetch | internal/syncengine/refetch.go:87-98 | in place: a pass already due is not put off |
| PullLoop.Backoff | internal/syncengine/refetch.go:87-98 | the delay starts at the base, doubles with each failed pass up to the sixth, and stays at 64 times the base |
| Page.BatchIsOneByOne | internal/syncengine/downloader.go:392-408 | a page through applyTo with one flush gives the tree, echoes, tombstones and debts of the changes applied one at a time, for every page whose changes each meet the exact condition where the batch meets them |
| Page.ChangeAgreesIff | internal/syncengine/downloader.go:596-771 | for any one change, skipped, removal, report or move, and any paths waiting to be forgotten: batching agrees exactly when the change is clean |
| Page.AgreesIff | internal/syncengine/downloader.go:645-687 | while nothing has moved in the page: batching agrees exactly when a report of a path waiting to be forgotten leaves no stale record |
| Page.MoveAgreesIff | internal/syncengine/downloader.go:798-853 | a move agrees exactly when each recorded path below it waits to be forgotten as its landing path does, or lands on its like, and the landing path itself is reported alike in both |
| Page.RemovalAgreesIff | internal/syncengine/downloader.go:1153-1224 | a removal agrees exactly when no file in it, moved there earlier, carries records that wait to be forgotten and change its fate |
| Page.PlacedExactly | internal/syncengine/downloader.go:687-771 | what is placed is the report, at its path, under its directories, and nothing else of the tree changes |
| Page.ReportComesTo | internal/syncengine/downloader.go:596-771 | a report changes nothing exactly when it is export-only, known by baseline or tombstone, or older than a file of one's own; it is owed exactly when its kind, its directories, its bytes or the loser's copy stand in the way; otherwise the path holds it, as bytes or placeholder, with its baseline and no tombstone or debt |
| Page.ChangeComesTo | internal/syncengine/downloader.go:596-771 | a whole change: skipped it does nothing; else the move that is due, and then exactly that |
| Page.RemovalComesTo | internal/syncengine/downloader.go:1153-1224 | a removal: a file goes exactly if it is deletable, a directory exactly with all it held; what went waits to be forgotten, and what is kept for its own work has lost its baseline and does not |
| Page.WorkStandsIff | internal/syncengine/downloader.go:596-771 | one change ends a file's own work exactly when a report of its path that is no echo has its content, or is newer and the loser can be kept, or a move lands it unrecorded on a stale baseline of its content; a removal never does |
| Page.WorkOutlivesPage | internal/syncengine/downloader.go:387-416 | so work spared by each change outlives a whole page and its flush, and stands where the page's moves took it |
| Page.RootedAfter | internal/syncengine/downloader.go:596-771 | no change leaves an entry without its directories or a file with something under it |
| Page.ReReportDiffers | internal/syncengine/downloader.go:645-687 | a concrete page: removal, then the baseline's content reported again, is dropped as an echo by the batch and placed one at a time |
| Page.MoveOutDiffers | internal/syncengine/downloader.go:798-853 | a concrete page: a removed path's record is carried out with its directory before the flush reaches it |
| Page.Applier.Apply | internal/syncengine/downloader.go:596-771 | in place: one change of a page comes to exactly the named outcome, with what it leaves to be forgotten |
| Page.Applier.FlushForget | internal/syncengine/downloader.go:582-591 | in place: no record of a forgotten path is left, every other record and the tree are untouched, and a second flush would change nothing |
| Page.Applier.MoveSubtree | internal/syncengine/downloader.go:798-853 | in place: for a reported move between incomparable paths, the source there, the target free and its directories possible, every entry, baseline and debt of the subtree is under its new name and none under the old, all others untouched; otherwise nothing has changed; the tree stays a tree |
| Removal.Remover.ApplyRemoval | internal/syncengine/downloader.go:1153-1224 | in place: the reverse walk removes exactly what the recursive prune says, drops exactly the stale baselines of kept files, and forgets exactly what went |
| Removal.Remover.RemoveIfSynced | internal/syncengine/downloader.go:1228-1275 | in place: a file goes exactly if it is a placeholder or its baseline |
| Removal.SurvivesIsRecursive | internal/syncengine/downloader.go:1171-1224 | the prune, bottom up: a file survives by staying, a directory by something surviving in it |
| Removal.OnlySyncedGoes | internal/syncengine/downloader.go:1228-1275 | no unsynced file and nothing foreign is ever removed, and a directory goes only with all it holds |
| Removal.PruneLeavesTree | internal/syncengine/downloader.go:1171-1224 | nothing left behind has lost a directory above it |
| Records.Store.RenameSubtree | internal/state/state.go:1137-1205 | in place: baselines, hydration marks, repairs and debts of the subtree are under their new names and none under the old, all else untouched, in one commit; or nothing at no commit |
| Records.RekeyMoves | internal/state/state.go:1137-1205 | every record at or under the old path stands under the new one with the same suffix, none is left, and every other row is untouched |
| Records.RekeyThereAndBack | internal/state/state.go:1137-1205 | a subtree moved to a free place and back is as it was |
| Records.MoveKeepsBaselines | internal/syncengine/downloader.go:798-853 | with the tree moved as its records were, a moved file matches its baseline exactly if it did before |
| Records.CollectSubtree | internal/state/state.go:1218-1232 | the seek and walk collects exactly the path and its descendants, each once |
| Buckets.PrefixContiguous | internal/state/state.go:1218-1232 | in byte order the keys with a prefix are one contiguous run |
| Buckets.PrefixFirst | internal/state/state.go:1218-1232 | a seek to a prefix passes none of its keys |
| Buckets.Bucket.Scan | internal/state/state.go:1218-1232 | the cursor loop returns exactly the rows with the prefix, in order |
| Buckets.Bucket.Seek | internal/state/state.go:1218-1232 | binary search: everything before is less than the key, nothing from there on is |
| Buckets.Bucket.Put | internal/state/state.go:351-369 | the row set and the keys still sorted |
| Buckets.Bucket.Delete | internal/state/state.go:351-369 | the row gone and the keys still sorted |
| Paths.DisjointSubtrees | internal/state/state.go:1235-1237 | incomparable paths have no descendant in common |
| Paths.MovedBack | internal/state/state.go:1137-1205 | a move of a subtree is injective and undone by moving back |
| Records.Store.SetEcho | internal/state/state.go:351-369 | in place: a baseline replaces the tombstone, the debt and the kept record of its path, and no other bucket changes |
| Records.Store.ForgetMany | internal/state/state.go:397-429 | in place: the records of every path go, from five buckets and no other, in one commit |
| Records.Store.ForgetDeleted | internal/state/state.go:996-1016 | in place: baseline, hydration mark and debt of a deleted path become its tombstone, and no other bucket changes |
| Records.Store.OweRefetch | internal/state/state.go:891-912 | in place: the first time a path is owed is kept, owing it again costs nothing |
| Records.Store.ClearRefetch | internal/state/state.go:942-956 | in place: a debt cleared, at no commit if there is none |
| Records.Store.SetKept | internal/state/state.go:1266-1275 | in place: the identity kept, at no commit if it is the same |
| Records.Store.MarkSeen | internal/state/state.go:631-644 | in place: every path of the list marked for the generation, and no other, in one commit; no commit for an empty list |
| Records.Store.EachSeenUnder | internal/state/state.go:669-686 | exactly what the generation saw strictly below the directory, each path once |
| Records.SeenKeyInjective | internal/state/state.go:737-739 | a seen key names one generation and one path |
| Records.RecordsExclusive | internal/state/state.go:351-429 | no operation on one path leaves it both a baseline and a tombstone |
| Records.RenameExclusiveIff | internal/state/state.go:1137-1205 | a rename leaves a path with both exactly when a tombstone waits where a moved baseline lands |
| Records.RenameLeavesBoth | internal/state/state.go:1137-1205 | a concrete rename onto a path with a tombstone |
| PathIndex.AlwaysInverse | internal/pathindex/pathindex.go:135-454 | byPath and byID are exact inverses after every run of operations |
| PathIndex.SetKeepsInverse | internal/pathindex/pathindex.go:343-359 | one mapping displaces exactly the two stale halves and keeps the inverses exact |
| PathIndex.SkipIsUnobservable | internal/pathindex/pathindex.go:312-337 | storing what both directions hold changes nothing, so the skipped write cannot be seen |
| PathIndex.SkipAllIsUnobservable | internal/pathindex/pathindex.go:368-407 | the same for a whole batch |
| PathIndex.SetAllStores | internal/pathindex/pathindex.go:368-389 | a batch holds every pair no later one displaces, leaves every pair none displaces, and makes no others |
| PathIndex.RenameIff | internal/pathindex/pathindex.go:430-454 | a rename leaves exact inverses exactly when no row is written where a later row used to be, and then it re-keys exactly the subtree, ids kept |
| PathIndex.RewriteIff | internal/pathindex/pathindex.go:430-454 | the same for any rows the scan read, the root's included: exact inverses exactly without such a landing, and then every row read has moved and no other |
| PathIndex.RenameRekeys | internal/pathindex/pathindex.go:430-454 | for two non-empty paths neither inside the other: exact inverses, exactly the subtree re-keyed |
| PathIndex.NestedRenameClashes | internal/pathindex/pathindex.go:430-454 | a concrete rename into its own subtree with such a clash |
| PathIndex.RootRename | internal/pathindex/pathindex.go:430-454 | a rename of the mount root joins the new name and each path with nothing between, so only the root itself lands under it; exact inverses exactly when no join names a path read later |
| PathIndex.RootRenameJoins | internal/pathindex/pathindex.go:430-454 | a concrete case: a, with the root renamed to n, is then na |
| PathIndex.ForgetKeepsInverse | internal/pathindex/pathindex.go:410-426 | forgetting a subtree keeps the inverses exact |
| PathIndex.ForgetsExactly | internal/pathindex/pathindex.go:410-426 | forgetting a path drops exactly its subtree's rows, and their ids with them |
| PathIndex.IndexStore.Bind | internal/pathindex/pathindex.go:135-171 | in place: another identity or schema empties both buckets |
| PathIndex.IndexStore.Set | internal/pathindex/pathindex.go:312-323 | in place: one mapping, held afterwards in both directions, with a commit only if it was not held |
| PathIndex.IndexStore.SetMany | internal/pathindex/pathindex.go:368-389 | in place: the fold of Set in order, skipped only if all are held, which stores exactly the pairs not displaced; lists that do not pair up are refused |
| PathIndex.IndexStore.Forget | internal/pathindex/pathindex.go:410-426 | in place: exactly the subtree's rows and their ids go, and every other row keeps its id |
| PathIndex.IndexStore.Rename | internal/pathindex/pathindex.go:430-454 | in place, the root included: old keys deleted, then every row written in the order of the scan |
| PathIndex.IndexStore.Subtree | internal/pathindex/pathindex.go:468-486 | the scan returns exactly the path's row and its descendants, each once, but the root's own row twice |
| PathIndex.IndexStore.Lookup | internal/pathindex/pathindex.go:263-274 | the id stored for the path, nothing while unbound |
| PathIndex.IndexStore.PathFor | internal/pathindex/pathindex.go:279-290 | an id answers the path its key encodes, and while the directions are inverse that path answers the id |
| Ranges.RunsAreExact | ranges/ranges.go:162-181 | runs are ascending, non-touching, non-empty, block-aligned, inside the file, and cover exactly the bytes in the wanted state |
| Ranges.ExactRunsUnique | ranges/ranges.go:145-181 | no other list of ranges has those properties |
| Ranges.HasIffNothingMissing | ranges/ranges.go:135-152 | a span is all marked exactly when Missing is empty |
| Ranges.Partition | ranges/ranges.go:149-158 | over the whole file every byte is in exactly one of Extents and Missing |
| Ranges.BytesIsCount | ranges/ranges.go:183-192 | Bytes is the number of marked bytes |
| Ranges.MarkIsExact | ranges/ranges.go:198-214 | Mark adds a block exactly when all of it, cut at the end of the file, lies in the span |
| Ranges.MarkCoveringIsExact | ranges/ranges.go:221-230 | MarkCovering adds a block exactly when the span has a byte of it |
| Ranges.ClampIsIntersection | ranges/ranges.go:234-250 | the clamp is the intersection of the span with the file |
| Ranges.BlockSpanIsExact | ranges/ranges.go:115-131 | the block span is exactly the blocks the byte span touches |
| Ranges.MarksStayInFile | ranges/ranges.go:194-230 | no mark stands at or past Blocks |
| Ranges.GrowthStaysInFile | ranges/ranges.go:101-111 | growing and joining leave none there either |
| Ranges.FetchMissing | ranges/ranges.go:145-152 | marking every range Missing returned makes the read covered |
| Ranges.RebuildFromExtents | provider/provider.go:241-248 | the extents are aligned, disjoint and ascending, and marking them on a fresh set rebuilds the marks |
| RangeRuns.DirtyIff | ranges/ranges.go:252-270 | over any history of growing, writing and joining, a block is dirty exactly when a byte of it was written |
| RangeRuns.UploadCarriesEveryWrite | ranges/ranges.go:154-158 | so a ranged upload of the extents carries every written byte |
| RangeRuns.PresentIff | ranges/ranges.go:194-214 | at a fixed size a block is present exactly when a single supply held all of it |
| RangeRuns.PresentWasSupplied | ranges/ranges.go:194-214 | every byte a present set claims was supplied |
| RangeRuns.GrowClaimsNothingIff | ranges/ranges.go:97-111 | growing claims no byte exactly when it does not move past a short last block that is marked |
| RangeRuns.GrowPastShortTailClaims | ranges/ranges.go:97-111 | a concrete case of it: six bytes in blocks of four, grown to eight |
| RangeSet.WrapIsHarmlessIff | ranges/ranges.go:234-250 | with the clamp's two sums in 64 bits it is exact but for the spans whose end, or whose negative start, does not fit |
| RangeSet.SetBit | ranges/ranges.go:81-95 | setting one bit of a byte changes how no other bit reads |
| RangeSet.BlockSet.SetBlock | ranges/ranges.go:89-95 | in place: one more block, unless it is past the array |
| RangeSet.BlockSet.Grow | ranges/ranges.go:101-111 | in place: the size and the array grow and every mark stays |
| RangeSet.BlockSet.Has | ranges/ranges.go:135-143 | true exactly when every byte of the span the file has is marked |
| RangeSet.BlockSet.WalkRuns | ranges/ranges.go:162-181 | the nested loops return the specified runs |
| RangeSet.BlockSet.MissingIn | ranges/ranges.go:149-152 | the exact maximal partition of the unmarked bytes of the touched blocks |
| RangeSet.BlockSet.MarkedExtents | ranges/ranges.go:156-158 | the exact maximal partition of the marked bytes |
| RangeSet.BlockSet.Bytes | ranges/ranges.go:186-192 | the sum over the extents is the marked byte count |
| RangeSet.BlockSet.Mark | ranges/ranges.go:198-214 | in place: rounds inward |
| RangeSet.BlockSet.MarkCovering | ranges/ranges.go:221-230 | in place: rounds outward |
| RangeSet.BlockSet.MarkAll | ranges/ranges.go:252-253 | in place: afterwards every byte is marked |
| RangeSet.BlockSet.Union | ranges/ranges.go:259-270 | in place: both marks on the larger file, or a refusal that changes nothing; the other set may be this one or share its array |
| RangeSet.BlockSet.Complete | ranges/ranges.go:274-282 | true exactly when every byte of the file is marked |
| RangeSet.BlockSet.IsEmpty | ranges/ranges.go:286-297 | true exactly when the file has bytes and no mark |
| RangeSet.BlockSet.Clone | ranges/ranges.go:301-305 | an equal set with an array of its own |
| Placeholders.NeverShortUnmarked | internal/hydrate/hydrate.go:279-324 | in every run of creations and fetches, failures and stops between any two system calls, a visible unmarked file holds, on disk too, a content the store delivered whole |
| Placeholders.SafeAfterStop | internal/hydrate/hydrate.go:410-462 | and so it does after the machine goes down there and loses whatever was not flushed |
| Placeholders.SafeAfterLateStop | internal/hydrate/hydrate.go:272-324 | and it stays so if names and markers come back as they were at any earlier moment, with the contents of the last |
| Placeholders.StepInv | internal/hydrate/hydrate.go:279-462 | each system call keeps it, whatever else is under way on other paths |
| Placeholders.RefetchSafeIff | internal/hydrate/hydrate.go:410-462 | a fetch over a file already unmarked, in chunks of any sizes, is safe before, between and after its writes and once trimmed exactly when it brings the bytes the file holds |
| Placeholders.StaleMarkerTears | internal/hydrate/hydrate.go:347-351 | a concrete case: the marker read before another fetch removed it, the object changed since |
| Placeholders.OverlapUnmarksTheWrongFile | internal/hydrate/hydrate.go:452-454 | a concrete case: a placeholder put in place while a fetch of the path is finishing is unmarked by it |
| Placeholders.UnmarkSafeIff | internal/hydrate/hydrate.go:452-454 | removing the marker by path is safe exactly when the path still leads to the file the fetch opened, or to one that is resident |
| Placeholders.UnmarkAfterPublishIff | internal/hydrate/hydrate.go:452-454 | with a placeholder published in between, exactly when it is empty and the object is |
| Placeholders.Backing.AlwaysSafe | internal/hydrate/hydrate.go:279-462 | every state the two operations have passed through was safe |
| Placeholders.Backing.CreatePlaceholder | internal/hydrate/hydrate.go:279-324 | in place: the path shows a marked file of the right size after one rename; with any call refused, no name and no file that was there has changed |
| Placeholders.Backing.FetchWhole | internal/hydrate/hydrate.go:410-462 | in place, by the call that fails first: none, and the file is the body, on disk, unmarked; any, and its marker is as it was and no other file or name has changed |
| Hydration.FetchesAreBounded | internal/hydrate/hydrate.go:382-401 | in every reachable state at most one fetch per path runs, and at most as many as there are workers |
| Hydration.InflightIsOneLeader | internal/hydrate/hydrate.go:353-380 | a path is in flight exactly while one caller is between registering and deleting it |
| Hydration.SharedIsTheLeaders | internal/hydrate/hydrate.go:354-362 | a caller that returns a shared result returns what its leader returned |
| Hydration.ReturnedStays | internal/hydrate/hydrate.go:347-380 | what a caller returned never changes |
| Hydration.FetchResultIsReturned | internal/hydrate/hydrate.go:366-380 | what a fetch ended with is what its leader carries ever after and returns, and what every caller sharing it returns |
| Hydration.GivingUpIsReturned | internal/hydrate/hydrate.go:353-401 | a call that gives up returns that it was cancelled, and so do those that share a leader's |
| Hydration.ResultsAreReal | internal/hydrate/hydrate.go:347-380 | no result is made up: a fetch of the path ended so, or a call for it gave up, or, for a call that fetched nothing, no marker was there |
| Hydration.Progress | internal/hydrate/hydrate.go:347-401 | while a call has not returned some caller can step, without anyone giving up |
| Hydration.CallsEnd | internal/hydrate/hydrate.go:347-401 | each call takes seven steps at most, every one bringing it nearer its return |
| Hydration.OneMarkerTwoFetches | internal/hydrate/hydrate.go:347-351 | a concrete run: one marker, two fetches, one after the other |
| Hydration.Hydrator.Join | internal/hydrate/hydrate.go:353-365 | in place, under the mutex: the first registers, exactly if the path is not in flight; later ones wait on it |
| Hydration.Hydrator.TryAcquire | internal/hydrate/hydrate.go:393-398 | in place: a slot exactly when one is free |
| Hydration.Hydrator.EndFetch | internal/hydrate/hydrate.go:367-370 | in place: the slot goes back and what the fetch ended with is recorded as the leader's result |
| Hydration.Hydrator.Announce | internal/hydrate/hydrate.go:374-379 | in place: deleted first, then announced, and the leader returns its own result |
| Hydration.Hydrator.Await | internal/hydrate/hydrate.go:356-360 | in place: the result is the leader's own |
| Streams.Transfer | plugin/client.go:146-190 | one upload end to end, for any read sizes on either side: the backend gets a prefix under the right path, and sees the end only if the local reader reached it and every byte arrived; on a wire that lasts, a readable file is uploaded, and a backend that reads on gets all of it and the end |
| Streams.NeverShortened | plugin/stream.go:26-106 | the same with both ends running at once and the connection breaking anywhere |
| Streams.Upload | plugin/client.go:146-190 | path first, then content; clean close only after the whole of a readable file, cancel after a read error; on a wire that lasts the file is uploaded exactly if it is readable |
| Streams.Chunked | plugin/stream.go:90-106 | messages of at most a chunk that join to what the reader gave; the three outcomes told apart |
| Streams.ChunkReader.Read | plugin/stream.go:26-48 | the next bytes of what is left; an end only when nothing is left, and then the wire's own |
| Streams.ChunkReader.Drain | plugin/stream.go:58-66 | afterwards the stream has ended and nothing is left on it |
| Streams.ReceiveStream | plugin/server.go:210-239 | content before a path is refused; otherwise the path, then the content, then nothing left before the reply, which is a stored object exactly if the backend accepts |
| Streams.SendChunks | plugin/server.go:481-498 | the stream ends cleanly only after the whole of what the backend read, and on a wire that lasts exactly if it could be read |
| Streams.Fetch | plugin/client.go:469-480 | one download end to end: a clean end is never seen short of the content, and on a wire that lasts it is reached by reading on |
| Content.RemoteReader.ReadAt | plugin/content.go:195-222 | the bytes read are the file's; a short read is an error; on a healthy connection it reads all there is of what was asked |
| Content.RemoteReader.Request | plugin/content.go:195-222 | one request: progress, the end, or a failure, never silence |
| Content.Registry.ReadAt | plugin/content.go:95-128 | a dead handle is refused, a live one answers a clamped part of its own file |
| Content.AnswerIsTheFile | plugin/content.go:95-128 | as many bytes as asked, a chunk and the file allow, equal to the file's; the end said only at the end |
| Content.AnswerElsewhere | plugin/content.go:95-128 | past what can be read there is the end; before the start, or of a broken source, an error |
| Content.Registry.Add | plugin/content.go:67-80 | in place: a handle never issued before, never zero |
| Content.Registry.Drop | plugin/content.go:67-80 | in place: the handle names nothing again |
| Sparse.CopySparse | internal/syncengine/sparse.go:35-54 | for any stream the file ends with exactly its bytes and length; a failed read leaves exactly the bytes before it readable |
| Sparse.WriteNonZero | internal/syncengine/sparse.go:58-79 | the buffer can be read back, and the writes are one for each stretch of non-zero blocks |
| Sparse.WritesAreMaximalRuns | internal/syncengine/sparse.go:56-79 | those writes are the exact maximal runs of the blocks that are not all zero; no all-zero block is in any |
| Sparse.HolesAreZero | internal/syncengine/sparse.go:23-27 | a block left unwritten held only zeros |
| Chamfer.Transform | contrib/gen-logo-assets.go:289-325 | after both passes every pixel has its exact 3-4 distance from the nearest opaque pixel, cut at far, and no sum overflows 32 bits |
| Chamfer.Keyline | contrib/gen-logo-assets.go:327-336 | the border is exactly the pixels within 3r of an opaque one, unless 3r reaches far |
| Chamfer.TwoLegs | contrib/gen-logo-assets.go:316-325 | every displacement is first-pass steps then second-pass steps, at no extra cost, inside the picture |
| Chamfer.ConeReach | contrib/gen-logo-assets.go:316-325 | inside its cone a closed pass carries values at exactly the distance |
| Chamfer.BothPassesAreExact | contrib/gen-logo-assets.go:316-325 | two closed passes over values that are never too small are exact |
| Chamfer.RelaxForth | contrib/gen-logo-assets.go:316-320 | in place: the pixel and nothing else, to the least it is offered |
| Chamfer.RelaxBack | contrib/gen-logo-assets.go:321-325 | in place: the same, turned around |
| FloodFill.Fill | contrib/gen-logo-assets.go:233-267 | the marks are exactly the near pixels a 4-connected near walk from the border reaches, each was pushed exactly once, and the loop ends |
| FloodFill.ClosedHoldsAll | contrib/gen-logo-assets.go:249-267 | marks that hold the near border and are spread everywhere hold every reachable pixel |
| FloodFill.Push | contrib/gen-logo-assets.go:235-241 | in place: marked and stacked exactly if near and not yet marked |
| FloodFill.OfferNeighbours | contrib/gen-logo-assets.go:249-267 | in place: after the four pushes every near neighbour is marked |

## Left out

- ConflictFingerprints.NoUnkeptLocalLoss: the action `overwrite` keeps nothing by design and is excluded; the runs upload no conflict copy over another, which `CopiesStayIff` shows is exactly when no copy is lost, and record no upload of a file written since where there are no digests, which `FingerprintsTrueIff` shows is exactly when the fingerprint is true; `WriteDuringUploadLost` shows what happens otherwise.
- ConflictRuns.StepInv: its local half, and that of `PullInv`, is for a true fingerprint; exactly what is lost without one is `PullLosesEditIff`.
- ConflictRuns.NoUnkeptRemoteLoss: no other write to the remote stands between a push's look at it and its upload, a window the code does not close (a pending create has not looked); and no name `keepRemote` trusts holds something else, where `SameSecondLosesRemote` shows what happens otherwise.
- ConflictMount.Mount.ApplyTo: a pull is one step, its failures inside chosen by the environment and no write to the file landing inside it; reads of the state store and Stats are taken to succeed; the lazy branch, removals and tombstones of `applyTo` are in `Page` and `Removal`, not in the conflict machine.
- ConflictMount.Mount.CheckRemote: what stands at the path on the remote is a file; a directory there, which the check lets the upload meet, is not modelled.
- ConflictMount.Mount.UploadWhole: range writes, `keepDisplaced` and the versions a backend lists are not modelled; a push uploads the whole file.
- ConflictWinners.OneWinner: assumes fresh reports; `StaleReportTwoWinners` shows why. An edit that passes for synced by a false fingerprint is replaced, not moved, and is outside it.
- ConflictWinners.KeptAtMostOnce: assumes fresh reports and that no record of an upload forgets a version; `StaleReportKeepsTwice` and `RestartKeepsTwice` show why.
- Delivery.DeliveredAtLeastOnce: the write of the debt itself is assumed to succeed, and a retry to settle only its own path.
- PullLoop.Downloader.DueRefetch: a pass cut off by cancellation, or a list of debts that cannot be read, is not modelled; the list handed to the pass is the whole bucket.
- Page.BatchIsOneByOne: local writes during one change, and case-folded, reserved and nested paths, are abstracted as `skipped`, `foreign` and `unsynced`; the condition is exact for each change, not for a page in which one difference undoes another.
- Page.ChangeAgreesIff: the local copies a conflict makes are not part of the page's tree; a remote version that loses to a local edit leaves the tree alone.
- Removal.Remover.ApplyRemoval: the tree can be read and the deletes it decides on succeed.
- PathIndex.AlwaysInverse: renames of the mount root and into the renamed subtree are outside its runs; `RewriteIff` says exactly when those keep the inverses.
- Records.Store.EachSeenUnder: the callback is a list of the paths it would be called with.
- RangeSet.BlockSet.Mark: offsets and sizes are unbounded integers; `WrapIsHarmlessIff` says where 64 bits would differ in the clamp's two sums, and the other sums and products of block numbers and sizes are not bounded.
- Placeholders.NeverShortUnmarked: extended attributes are supported, `Discard` does not run, operations on one path do not overlap, and a fetch of a file no longer marked brings what it holds; what the lemmas beside it show is what happens without the last two.
- Placeholders.SafeAfterLateStop: names and markers reach the disk in the order they were made; a filesystem that lets a rename overtake the marker set before it is not modelled.
- Placeholders.Backing.FetchWhole: times and the cached ranges are left out; so is a close that fails after a successful sync.
- Hydration.Hydrator.TryAcquire: the blocking wait for a slot is a step that is enabled when one is free.
- Streams.SendChunks: how an error is encoded for the wire is not modelled; any end but a clean one is a failure.
- Content.Registry.Add: the handle counter does not wrap at 64 bits.
- Sparse.CopySparse: `io.ReadFull` is a method over the remaining bytes, writes fail only for want of room, and the final truncate succeeds.
- Chamfer.Keyline: the picture drawn over the border, and the colours, are left out.
- FloodFill.Fill: colour distance is the predicate `near`; the picture has at least one pixel.
- The sweep, the engine's queue and retries, `internal/vfs`, the monitor, the pause gate and the status reader: easier members or not needed by what is proved.
- FUSE, gRPC and process plumbing, OAuth, sockets, configuration and command lines: no hard property of their own.
- bbolt and fsync: a bucket is a sorted map and a transaction is atomic.
- JSON encoding of range sets, PNG encoding, resizing, cropping and colour arithmetic.
