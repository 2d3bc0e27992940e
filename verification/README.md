# Verified model of Broza

Broza frees disk space on macOS. It turns the findings of its detectors into a plan, moves the
approved items into a quarantine store that can give them back, removes others for good, and
later expires or purges whole quarantine sessions. This project models the parts of it where a
mistake loses data or misreports it, and proves what those parts promise.

| module | what it models |
|---|---|
| `Findings`, `Overlap`, `Planner` | findings, crediting each path once, the items of a dry-run plan |
| `Plan`, `SessionStart`, `Attempt`, `Executor` | the plan as a validated value, how a move gets a session of its own, one item's turn, and the whole run against a filesystem that may answer anything; the run's loops are methods over the plan and the calls they make |
| `Placement`, `WholeRun`, `CreditedRun` | the same turns over one undisturbed tree, in any order, and the composition from findings to the last turn |
| `Mover`, `Reconcile`, `Entries` | the write-ahead move into a session, as a class `Disk` that records the image every primitive step leaves, and what a later run reads after a crash or a power cut |
| `SessionStore`, `Retention`, `StoreRuns`, `CleanRun` | reading, choosing, expiring, purging and closing sessions, sequences of store operations, and the totals `clean` reports |
| `SessionLock` | any number of processes interleaving lock, re-check, removal and claim, one system call at a time |
| `AtomicWrite` | temporary file, `fsync`, rename, `fsync` of the directory, over a volume whose unsynced state is volatile |
| `Digits`, `Ids`, `Layout` | session and entry identifiers, the base-36 suffix walk, stored paths |
| `Packing`, `Wrap`, `FileTree`, `DeepOpen` | the greedy packing shared by paragraph wrapping and by opening directories deeper than `PATH_MAX` |
| `Normalize`, `ShellWords`, `Csv`, `NodeIndex` | path normalisation, the printed command line, CSV tables, the walk's indexes |
| `Wrappers`, `Bytes`, `Paths`, `Model` | shared types; `Bytes` has the `u64` counters with saturating and checked sums |

Ports of the original become parameters: an arbitrary function gives each call's answer, so a
statement about every answer is a statement about every filesystem. Where a disk itself is
modelled, it is a class with the state the calls change.

## What is not so, and exactly when it is

Some promises fail on some inputs. For each there is a member that shows the failure and one
that says exactly when the promise holds.

- Entry identifiers increase as text up to the 9999th entry of a session and no further: the
  label is padded to four digits, and `10000` sorts before `9999`
  (`Layout.TenThousandthEntrySortsBack`, `Layout.EntryIdsIncreaseExactlyBelowTenThousand`).
- `--max-size` keeps the exact bytes under every cap but `u64::MAX`, which the saturated sum can
  never pass (`Attempt.CapIsExactBelowMax`, `Executor.MaxCapIsNoCap`). The comment at
  `crates/broza/src/quarantine/measure.rs:59-60` says otherwise; the model follows the code.
- `expire` and `purge` stop at the first fatal session and then give no report, though sessions
  before it are gone (`SessionStore.PurgeCanLoseItsReport`). From what can be looked up before the
  call, ids repeated or not: it gives no report exactly when some removal gets to its re-check with
  a token that does not cover the directory, or with an unlisted item that cannot be measured, and
  no earlier one takes that session (`SessionStore.NoReportExactly`).
- `clean --apply` expires what is due before it executes the plan, and an error of the run is all it
  then reports. A session goes with no word of it exactly when the expiry takes it and then the run
  stops, or a removal of that expiry was fatal (`CleanRun.CleanCanLoseItsReport`, `CleanRun.Apply`,
  with `Executor.Stops` and `SessionStore.TakenInTime` for the conditions).
- Every image the mover leaves tells where each object is, but its rename into the store is not synced
  and its manifest is: after a power cut an entry can say `quarantined` while its object is at home,
  and only entries in flight are settled (`Mover.CutCanMislead`). No object is lost even so, and
  reading is right about an item exactly when its entry does not say `quarantined` where nothing is
  (`Mover.CutKeepsOnePlace`, `Mover.CutReadsBackExactly`).
- Two processes can hold one session name. A process that opened the lock file and takes the
  lock after the directory has gone holds a directory that is not there, while another holds its
  successor; a run of whole removals gets there (`SessionLock.TwoHoldersOfOneName`,
  `SessionLock.TwoHoldersAreReached`). When a removal unlinks `.lock` before it is done, a newcomer
  gets a second lock of the standing directory (`SessionLock.StepwiseRemovalLetsTwoIn`,
  `SessionLock.RemovalIsReached`). In any run, a process keeps its session whatever the others do
  exactly when it holds the standing directory by the file linked there, nobody else is past a
  re-check, and nobody approved to remove it has another lock file of it open
  (`SessionLock.KeptExactly`, `SessionLock.StaleFromTheStart`).
- `take_if_present` looks and then opens. In any run it creates a lock file exactly when the
  directory standing by then has none linked: one that replaced the directory it looked at, or the
  same one with its lock file unlinked (`SessionLock.ProbeCreatesExactly`,
  `SessionLock.ProbeCreatesInASuccessor`, `SessionLock.ProbeCreatesInTheSame`).
- After a successful write the new contents survive a crash exactly when the directory's own
  entry is durable; the command line's `write` may have just made that directory and does not
  sync the one above it (`AtomicWrite.SettledSurvivesExactly`, `AtomicWrite.Volume.Write`).
- A CSV table is read back exactly when it has rows, each row has fields, and a last row after
  others is not one empty field (`Csv.RoundTripExactly`, `Csv.LastEmptyRowIsLost`). Every table the
  program prints has two columns or more, so every one of them is.
- A normal form can say more than the text: `..` steps back over a name that is not there, and a
  trailing `.` or slash asks for a directory (`Normalize.NormalizedCanSayMore`, `Normalize.DotLast`).
  On any tree the text's walk succeeds exactly when the normal form's does and every place the text
  steps from is a directory (`Normalize.TextWalksExactly`). The two agree on every tree, errors
  included, exactly when the text steps from nowhere but the root and proper ancestors of the result
  (`Normalize.AgreeEverywhereExactly`).

The comment at `crates/broza/src/quarantine/attempt.rs:171-172` says a refused item keeps neither
the stored path nor the guessed size; the code clears the path and keeps the announced size, and
so does `Attempt.UpdatedEntry`.

## Model

| member | source | states |
|---|---|---|
| Bytes.SatFoldIsCappedSum | crates/broza/src/quarantine/entries.rs:88-95 | a saturating fold is the exact sum capped once at the end, so where it saturates does not matter |
| Bytes.CheckedFoldIsSum | crates/broza/src/model/plan.rs:245-247 | a checked fold succeeds exactly when the exact sum fits, and is then that sum |
| Plan.PlannedIsExactSum | crates/broza/src/model/plan.rs:204-227 | in every plan that exists, `planned_bytes` is the exact sum of the items' sizes |
| Plan.DryRunExactly | crates/broza/src/model/plan.rs:93-106 | a dry run exists exactly when the sizes fit a `u64`, every item is planned and none has an error; it moves and reclaims nothing |
| Plan.DryRunMovesNothing | crates/broza/src/model/plan.rs:204-242 | a plan that has not been applied has moved, freed and expired nothing, and no item of it has an outcome |
| Plan.WithItemStatusExactly | crates/broza/src/model/plan.rs:166-186 | recording an outcome works exactly when the item is there, is not already skipped or failed with another status, and an error comes with an unsuccessful one; nothing else of the plan changes |
| Plan.UpdatesExactly | crates/broza/src/model/plan.rs:154-200 | a plan can always be applied and put under another session's name; counters and expired sessions can be set exactly when it is not a dry run, or are empty; nothing else changes |
| SessionStart.StartsExactly | crates/broza/src/quarantine/mover.rs:81-114 | a move starts exactly when the token has a root, it can be made, a name is free, the lock is got, and the directory's `stat` and first manifest work; then in a directory of the root nobody else has |
| SessionStart.Begin | crates/broza/src/quarantine/mover.rs:81-114 | the start does that, call by call, and hands on the plan under the claimed name |
| Attempt.RecheckIdentity | crates/broza/src/quarantine/guarded.rs:29-35 | an item is acted on only as the very `(device, inode)` that was approved; a failed `stat` gives its own code, another identity `changed_since_check` |
| Attempt.CapIsExactBelowMax | crates/broza/src/quarantine/measure.rs:61-63 | the cap check lets an item pass exactly when the exact total stays under the cap, or the cap is `u64::MAX` |
| Executor.FindPlanned | crates/broza/src/quarantine/mover.rs:362-377 | the first planned item for the path at or after the cursor, and none exactly when there is none |
| Executor.PlanIndices | crates/broza/src/quarantine/mover.rs:362-377 | token items map to planned items of the same path, injectively and in order |
| Executor.PairsExactly | crates/broza/src/quarantine/mover.rs:362-377 | the walk finds a pairing exactly when there is one, and then the earliest |
| Executor.RunningIsCappedSum | crates/broza/src/clean/executor.rs:114-142 | the loops' running totals are the exact sums of what each turn added, capped once |
| Executor.CapIsKept | crates/broza/src/clean/executor.rs:114-180 | at every turn the running totals are within `--max-size`, in exact bytes for every cap below `u64::MAX` |
| Executor.MaxCapIsNoCap | crates/broza/src/quarantine/measure.rs:61-63 | with a cap of `u64::MAX` the check never fires |
| Executor.PurgedExactlyWhenCounted | crates/broza/src/clean/executor.rs:150-180 | from the answers alone: an item is recorded purged exactly when its identity held, a directory could be measured, the cap allowed it and the removal worked; it counts for what was measured of a directory, for what a file with one name and no clone occupies, and otherwise for nothing; each refusal has its own status and code |
| Executor.MovedExactlyWhenAllowed | crates/broza/src/quarantine/attempt.rs:74-134 | from the answers alone: an item moves exactly when its identity held, it lies on the store's volume, a directory under a cap could be measured, its size is within the cap, its directory could be made and the rename worked; then under the stored path, for what a file occupies now, what a directory measured under a cap, or its planned size without one; each refusal has its own status and code |
| Executor.MoveCallsExactly | crates/broza/src/quarantine/attempt.rs:74-133 | from the answers alone: the calls of one move, in order; a directory is walked only where its size decides, and the tree changes only between two manifest writes |
| Executor.PurgeCallsExactly | crates/broza/src/clean/executor.rs:150-180 | from the answers alone: the calls of one removal, in order |
| Executor.RecheckedConcat | crates/broza/src/clean/executor.rs:48-64 | two stretches of calls that each re-check before every change still do when put together |
| Executor.PurgeIsRechecked | crates/broza/src/clean/executor.rs:150-180 | a removal directly follows a `stat` that matched the token, with only measuring in between |
| Executor.MoveIsRechecked | crates/broza/src/quarantine/mover.rs:244-307 | a rename into the store follows a matching `stat`, with only measuring, the write-ahead entry and the item's own directory in between |
| Executor.PurgeItems | crates/broza/src/clean/executor.rs:114-142 | for any answers each purge item has the outcome of its own turn, nothing else changes, the bytes are the capped sum and the calls are those of the turns; the loop aborts exactly when a snapshot is where a path belongs |
| Executor.QuarantineItems | crates/broza/src/quarantine/mover.rs:81-121 | for any answers each moved item has the outcome of its own turn, the plan goes under the claimed name and nothing else of it changes; the move fails exactly when it cannot start, there are more items than numbers, a manifest write fails or the plan asks to move what is not a path; the calls are those of the turns, up to where it stops, and the warnings are the renames that were not exclusive |
| Executor.EntriesExactly | crates/broza/src/quarantine/entries.rs:39-58 | the session's entries can be planned exactly when the items to be moved have numbers enough |
| Executor.EntriesAreTheItems | crates/broza/src/quarantine/mover.rs:244-262 | the entry at an item's position in the session is its own: it names that path, and its number is the one the item is stored under |
| Executor.DeleteSnapshots | crates/broza/src/clean/executor.rs:68-94 | every snapshot has the outcome of its deletion, nothing else changes, no failure stops the loop, and there is a warning for exactly the refusals for lack of privilege |
| Executor.PassesCompose | crates/broza/src/clean/executor.rs:48-64 | each pass keeps what the passes before it recorded |
| Executor.Execute | crates/broza/src/clean/executor.rs:48-64 | for any answers: an error exactly when the plan does not match its token, the move cannot start, go on or end, or a snapshot is where a path belongs; otherwise a valid plan of the same work under the claimed name with every outcome recorded, the calls of every turn in order, and the warnings they earned; no path changes without a matching `stat` |
| Executor.SessionIsNamed | crates/broza/src/quarantine/mover.rs:139-180 | a completed run keeps its plan's session name if nothing was to be moved, and otherwise goes by a name of the same instant that nobody had, the plan's own exactly when that was free; it says its items went to that session of the store exactly when one is recorded as moved |
| Executor.RunChangesExactly | crates/broza/src/clean/executor.rs:48-180 | the renames and removals among a completed run's calls are exactly those of the items that got that far: an item whose directory could not be made has no rename |
| Executor.OutcomesMatchCalls | crates/broza/src/clean/executor.rs:48-180 | an item is recorded as moved or purged exactly when its own rename or removal is among the calls and went through; a snapshot's deletion is among them, and its outcome and code are recorded |
| Executor.WarningsExactly | crates/broza/src/clean/executor.rs:68-107 | a run warns of exactly the renames that were not exclusive and the deletions refused for lack of privilege |
| Executor.RunStaysUnderCap | crates/broza/src/clean/executor.rs:48-64 | quarantined plus reclaimed never passes `--max-size` |
| Executor.CountersMatchOutcomes | crates/broza/src/clean/executor.rs:48-142 | `reclaimed_bytes` and `quarantined_bytes` are the capped sums of what the answers say over exactly the items recorded `purged` and `quarantined`: nothing skipped, failed or merely moved counts as reclaimed; and under a cap below `u64::MAX` those bytes together stay within it |
| Placement.StaysInPlace | crates/broza/src/ports/fs_ops.rs:237-247 | whatever the run has moved or removed, an item that has not had its turn is what it was, with all below it |
| Placement.HomeFree | crates/broza/src/quarantine/layout.rs:94-98 | the place an item would move to is free until it moves |
| Placement.MoveKeeps | crates/broza/src/adapters/std_fs_exclusive.rs:22-40 | an exclusive rename into the store puts that item's tree there and disturbs no other object |
| Placement.RemoveKeeps | crates/broza/src/adapters/std_fs.rs:139-145 | removing one item's tree disturbs no other object |
| Placement.ExactlyOnePlace | crates/broza/src/quarantine/attempt.rs:97-110 | an approved object is at exactly one of its original path and its place in the session, as the node it was |
| WholeRun.TurnIsVerdict | crates/broza/src/clean/executor.rs:114-180 | an item's outcome is decided by the tree the run started with and the disk's own refusals, whatever else has happened since |
| WholeRun.RunIsPlaced | crates/broza/src/clean/executor.rs:48-64 | after any turns in any order every object is where the verdicts put it, and nothing else has changed |
| WholeRun.EveryTurnIsVerdict | crates/broza/src/clean/executor.rs:114-180 | in every order every turn comes out as its verdict; an item whose identity held at the start is never found changed |
| WholeRun.CappedTurnExactly | crates/broza/src/clean/executor.rs:114-180 | under a cap an item moves, or is removed, exactly when its action says so and the answers and the total so far allow it, and adds exactly what the answers say |
| WholeRun.UncappedIsWhole | crates/broza/src/clean/executor.rs:48-64 | without a cap that run is the uncapped one |
| WholeRun.CappedTurnFindsItsItem | crates/broza/src/clean/executor.rs:114-180 | under a cap too, in every order, an item whose identity held at the start is that object when its turn comes |
| WholeRun.OrderDoesNotMatter | crates/broza/src/clean/executor.rs:48-64 | two runs of the same work in different orders and numbering agree on every outcome, on the tree outside the session and on each item's subtree inside it |
| WholeRun.MadeExactly | crates/broza/src/quarantine/attempt.rs:97-110 | in every order the session has exactly the directories `create_dir_all` made for the items that got so far, whether the rename then worked or not |
| WholeRun.EveryOrderSameTree | crates/broza/src/clean/executor.rs:48-64 | with the items numbered alike, every order ends with the same tree, entry for entry, those directories included, but for the inodes each run gives them |
| WholeRun.ExecutedRecordsVerdicts | crates/broza/src/clean/executor.rs:48-180 | when the executor's answers are those of the tree at each turn, its plan records every item's verdict |
| CreditedRun.ApprovedItemsAreNeverLost | crates/broza/src/clean/executor.rs:114-180 | from credited findings through the plan to the run of whichever items the guard approved: nothing outside interfering, an item that was as approved when the run started does not end as changed, and as not found only if the disk says so of that item, whatever the others are |
| CreditedRun.CappedItemsAreNeverLost | crates/broza/src/clean/executor.rs:114-180 | the same under `--max-size`, whatever the cap lets pass |
| CreditedRun.ApprovedOrderDoesNotMatter | crates/broza/src/clean/planner.rs:99-159 | and every order of the approved items ends with the same tree, but for the inodes of the directories each run makes |
| Reconcile.ReconcileIsIdempotent | crates/broza/src/quarantine/reconcile.rs:40-121 | settling a session against the disk a second time changes nothing more |
| Reconcile.ReconcileExactly | crates/broza/src/quarantine/reconcile.rs:40-121 | reading settles exactly the entries in flight, to `quarantined` if their path is on disk and to `failed` with an I/O error and no path if not; the orphans are exactly what is on disk and no entry of the manifest names; nothing else changes but the totals |
| Reconcile.StrayIsFound | crates/broza/src/quarantine/reconcile.rs:62-79 | a file right under `items/` is an orphan unless an entry names it |
| Mover.AnnounceSafe | crates/broza/src/quarantine/attempt.rs:187-196 | writing the in-flight entry leaves a session whose entries still tell where every object is |
| Mover.RenameSafe | crates/broza/src/quarantine/attempt.rs:97-110 | between the announcement and the record, both before and after the rename, the on-disk entry already names where the object is; nothing is replaced |
| Mover.RecordSafe | crates/broza/src/quarantine/attempt.rs:173-185 | the settled entry tells the outcome, and `total_bytes` stays the bytes of entries with a stored path |
| Mover.OnDiskIsWhatMoved | crates/broza/src/quarantine/reconcile.rs:62-79 | what lies under `items/` is exactly the homes of the items that moved |
| Mover.CrashKeepsOnePlace | crates/broza/src/quarantine/codes.rs:42-51 | after a crash at any step each approved object is at exactly one of its original path and the stored path its on-disk entry names |
| Mover.CrashDisturbsNothingElse | crates/broza/src/quarantine/mover.rs:244-307 | a run that crashed anywhere has touched nothing that is no item's |
| Mover.CrashReadsBack | crates/broza/src/quarantine/reconcile.rs:40-121 | reading the session after a crash says `quarantined`, and where, of exactly the items whose object is in the store; one in flight whose object is not there becomes `failed` with an I/O error, every other entry is as it was; no orphan is found, and the total is what the entries hold |
| Mover.CutKeepsOnePlace | crates/broza/src/adapters/std_fs_exclusive.rs:22-40 | after a power cut that undoes any of the renames, each approved object is still at exactly one of its two places, named by its entry if that is the store; nothing else is touched |
| Mover.CutReadsBackExactly | crates/broza/src/quarantine/reconcile.rs:104-121 | reading after it is right about an item exactly when its entry does not say `quarantined` where nothing is, and finds no orphan |
| Mover.CutCanMislead | crates/broza/src/quarantine/mover.rs:284-307 | the record of a move can outlive the move |
| Mover.Disk.WriteManifest | crates/broza/src/adapters/std_fs.rs:147-158 | the manifest is the new one, or the call failed and it is the old one or the new; what is no valid manifest is never written; the tree is untouched |
| Mover.Disk.MakeDir | crates/broza/src/adapters/std_fs.rs:134-137 | a directory is added where nothing was, or nothing changes |
| Mover.Disk.RenameExclusive | crates/broza/src/adapters/std_fs_exclusive.rs:22-40 | the subtree moves to a free path, or nothing changes; an occupied destination is refused |
| Mover.Disk.CreateItemDir | crates/broza/src/quarantine/attempt.rs:97-110 | making the item's directory leaves every image crash-safe |
| Mover.Disk.MoveIntoStore | crates/broza/src/quarantine/attempt.rs:97-110 | the item's fate and the tree agree after the attempt, and every image along the way is crash-safe |
| Mover.Disk.Persist | crates/broza/src/quarantine/mover.rs:284-307 | the next manifest is on disk or the call failed; every image is crash-safe |
| Mover.Disk.AnnounceAndMove | crates/broza/src/quarantine/mover.rs:244-283 | announced, then moved: the entry names the stored path before the object can be there, and on a disk that refuses nothing an item that is there moves |
| Mover.Disk.MoveOne | crates/broza/src/quarantine/mover.rs:244-307 | one item's journey: every image is crash-safe, only its own entry changes and records its fate, only the very object approved is moved and only within the cap; on a disk that refuses nothing it moves if it is there as approved, unless the cap keeps it, and otherwise its entry says what is wrong with it |
| Mover.Disk.MoveItems | crates/broza/src/quarantine/mover.rs:81-121 | the whole move: every image from the first manifest to the last is crash-safe whatever the disk refuses; a completed run has settled every entry, has moved only objects that were as approved when it started, and its total is what the entries hold and within the cap; on a disk that refuses nothing it completes, and every item gets what the tree it started with and the cap have for it |
| Findings.ValidExactly | crates/broza/src/model/finding.rs:287-307 | a finding is valid exactly when its identifier is its category's id, a dot and a name, it has either an action or instructions, what a cloud service holds is red and never acted on, and only the snapshots category has snapshots |
| Findings.IdsReadBack | crates/broza/src/model/category.rs:60-73 | a category's id is read back as that category, and no other text is |
| Overlap.CreditOnce | crates/broza/src/detect/overlap.rs:29-67 | the loop over findings keeps and drops what the pure fold does |
| Overlap.NothingDropped | crates/broza/src/detect/overlap.rs:29-67 | for validated findings the narrowing error never happens: no finding is dropped for it |
| Overlap.CreditIsNarrow | crates/broza/src/detect/overlap.rs:29-67 | crediting finding by finding is one filter over all claimed paths in order |
| Overlap.NarrowExactly | crates/broza/src/detect/overlap.rs:29-71 | a path is kept exactly when it is claimed, has not been seen and no strict ancestor of it is claimed |
| Overlap.CreditedIsMinimal | crates/broza/src/detect/overlap.rs:29-71 | the kept actionable paths are exactly the minimal claimed ones: an antichain, each once, and every claimed path has one of them as ancestor or self |
| Overlap.KeptSetIgnoresOrder | crates/broza/src/detect/overlap.rs:29-71 | two lists with the same claims, in any order, keep the same paths |
| Overlap.CreditedTotalCountsOnce | crates/broza/src/model/finding.rs:271-278 | when findings promise what their paths add up to, the credited ones together promise each minimal path's bytes once |
| Overlap.BystandersPass | crates/broza/src/detect/overlap.rs:29-67 | inform-only findings and those without paths pass unchanged and in order |
| Overlap.CreditedIsIdempotent | crates/broza/src/detect/overlap.rs:29-67 | crediting twice changes nothing more |
| Planner.ItemsExactly | crates/broza/src/clean/planner.rs:139-187 | a plan has exactly the items its selected findings contribute, each path that is neither excluded nor in the store and each deletable snapshot, with the action asked for; a finding is selected exactly when its category is asked for and its risk is not above the ceiling |
| Planner.InformedExactly | crates/broza/src/clean/planner.rs:99-125 | exactly the selected findings that only inform are reported apart, by category or in passing |
| Planner.ItemsAreClaims | crates/broza/src/clean/planner.rs:139-187 | the plan's path items are claimed paths in order, some left out, none excluded and none inside the store |
| Planner.PlannedExactly | crates/broza/src/clean/planner.rs:99-159 | a dry run is made exactly when the store is not the whole disk and the sizes fit; every item is `purge` exactly when its finding is or `--purge` was given for one to be moved, and acts as its finding does otherwise; inform-only findings are reported on their own side |
| Planner.CreditedPlanIsAntichain | crates/broza/src/clean/planner.rs:99-159 | the path items of a plan from credited findings form an antichain, apart from every session when none is around the store |
| SessionStore.MeasureOrphansIsExact | crates/broza/src/quarantine/expiry.rs:198-203 | the unlisted items' bytes are their exact sum capped, and the measure fails exactly when one of them cannot be measured |
| SessionStore.ReadExactly | crates/broza/src/quarantine/store.rs:137-153 | a session reads exactly when its manifest can be read and is its own; its orphans are what lies in it and no entry names |
| SessionStore.RecheckExactly | crates/broza/src/quarantine/guarded.rs:54-74 | a path is unchanged exactly when the first item the token has for it is a path with the device and the inode found there; it is an error exactly when the token has no such item, and each refusal has its code |
| SessionStore.GoesExactly | crates/broza/src/quarantine/expiry.rs:157-191 | a removal takes the session exactly when its manifest reads as its own, nobody restores or holds it, an expiry finds nothing unlisted, the directory is the very one approved, what is unlisted can be measured and the removal is allowed |
| SessionStore.LineExactly | crates/broza/src/quarantine/expiry.rs:157-267 | what the line of a removal says: `purged` with a warning for each unlisted item, or `skipped` with the one reason it has, `changed_since_check` for another device or inode |
| SessionStore.RemoveSessionExactly | crates/broza/src/quarantine/expiry.rs:157-191 | a session is gone exactly when its line says `purged`, then for its exact worth; otherwise nothing changed and an error says why; an expiry never takes a restoring session or one with unlisted items |
| SessionStore.RemoveAllIsAccounted | crates/broza/src/quarantine/expiry.rs:135-153 | however often ids repeat: sessions only disappear whole, and in a completed call every one that went has one `purged` line |
| SessionStore.ReclaimConserves | crates/broza/src/quarantine/expiry.rs:135-238 | `reclaimed_bytes` is the exact sum over purged sessions of held plus orphan bytes, capped once, none twice; `errors` is empty exactly when all are purged |
| SessionStore.FatalExactly | crates/broza/src/quarantine/expiry.rs:157-203 | when a removal aborts the call, from the store, the token and the answers: it gets to the re-check and the token does not cover the directory, or it is the one approved and an item no entry lists cannot be measured |
| SessionStore.NoReportExactly | crates/broza/src/quarantine/expiry.rs:135-203 | for any ids, repeated or not, from the store as the call finds it: no report exactly when some removal is fatal and none before it takes that session; a call that reports has taken exactly the sessions whose guards pass |
| SessionStore.TakenExactly | crates/broza/src/quarantine/expiry.rs:135-203 | a call, with a report or without, takes exactly the sessions whose guards pass at a removal before which none is fatal |
| SessionStore.CoveredPurgeCompletes | crates/broza/src/quarantine/expiry.rs:113-120 | a purge whose token covers every directory, and whose items can be measured, always completes |
| SessionStore.CoveredExpiryCompletes | crates/broza/src/quarantine/expiry.rs:99-106 | an expiry whose token covers every directory always completes, and so reports all it removed |
| SessionStore.FailedCallStopsThere | crates/broza/src/quarantine/expiry.rs:135-153 | a failed call stopped at a fatal removal and left the store as that removal found it |
| SessionStore.FatalRemovalFailsCall | crates/broza/src/quarantine/expiry.rs:135-153 | and a fatal removal always fails the call |
| SessionStore.PurgeCanLoseItsReport | crates/broza/src/quarantine/expiry.rs:113-153 | a purge of two sessions that ends in an error with the first one gone |
| Retention.PastExactly | crates/broza/src/quarantine/ttl.rs:16-24 | saturating at the last instant decides as exact arithmetic: past exactly when the whole period lies before now |
| Retention.DueExactly | crates/broza/src/quarantine/expiry.rs:50-84 | an id is due exactly when its session is complete or in progress, its whole retention lies before now, and its lock can be taken |
| Retention.DueInOrder | crates/broza/src/quarantine/expiry.rs:50-77 | each due session is taken up once, in the store's order |
| Retention.ExpiredSessions | crates/broza/src/quarantine/expiry.rs:50-77 | the loop collects the due ids in the store's order, none restoring and none busy |
| SessionStore.QuarantineStore.Reclaim | crates/broza/src/quarantine/expiry.rs:135-153 | the loop over ids leaves the store and the report of the removals in turn |
| StoreRuns.CloseExactly | crates/broza/src/quarantine/closing.rs:42-93 | closing removes the directory exactly when the disk says nothing is in it, it is the very one approved and the removal is allowed; otherwise it is left `restoring` if something unlisted lies in it or what did not go back is worth retrying, else `complete`; exactly what is unlisted is reported, and no stored item or other session is touched |
| StoreRuns.StepsHappen | crates/broza/src/quarantine/closing.rs:120-135 | writing a manifest, arriving and going back do what they say, to that session alone |
| StoreRuns.StepKeepsItem | crates/broza/src/quarantine/closing.rs:42-135 | a single store operation keeps a stored item, or puts it back, or reports its session purged, or took that session and then failed |
| StoreRuns.NothingLeavesUnexplained | crates/broza/src/quarantine/expiry.rs:157-191 | over every sequence of claims, writes, moves, put-backs, closes, expiries and purges: an item that left did so at a step that held it and lost it, and that step put it back, reports its session purged, or took its session and then failed |
| StoreRuns.ExpirySparesUnaccounted | crates/broza/src/quarantine/expiry.rs:157-178 | expiring any sessions, completed or not, leaves every one that is restoring, or holds an item its manifest does not list, exactly as it was |
| StoreRuns.ExpiryIsNeverToBlame | crates/broza/src/quarantine/expiry.rs:157-178 | so in no run is an expiry the step at which an item of such a session left |
| StoreRuns.ExpiredLinesSum | crates/broza-cli/src/commands/clean_expiry.rs:79-119 | the `freed_bytes` of the listed expired sessions add up to what the removals reclaimed |
| StoreRuns.ExpiryAddsItsLines | crates/broza-cli/src/commands/clean_expiry.rs:79-119 | an expiry adds to a counter what its listed sessions freed, capped once, also when it was declined or failed |
| StoreRuns.ExpiryTellsExactly | crates/broza-cli/src/commands/clean_expiry.rs:79-119 | which sessions the expiry step takes; the plan lists all of them and every other due one has an error, or neither when a removal was fatal |
| CleanRun.Apply | crates/broza-cli/src/commands/clean.rs:195-218 | expiry, run and report in turn: an error exactly when the run stops, else the run's plan with the expired sessions; and which sessions go with no word of it, exactly |
| CleanRun.CleanCanLoseItsReport | crates/broza-cli/src/commands/clean.rs:195-218 | a due session goes and the run then fails on its first manifest |
| CleanRun.CleanReclaimsExpiredAndPurged | crates/broza-cli/src/commands/clean.rs:195-218 | for any answers to run and expiry the report exists; its `reclaimed_bytes` is what the items recorded purged freed plus the listed sessions' bytes, capped once; quarantined bytes are apart |
| CleanRun.NothingToMoveReclaimsExpired | crates/broza-cli/src/commands/clean.rs:181-193 | with nothing to move, `reclaimed_bytes` is what the listed sessions freed |
| SessionLock.HoldersAlways | crates/broza/src/adapters/std_fs_exclusive.rs:53-101 | in every run, stepwise removals included, each lock file has the one holder `flock` knows of |
| SessionLock.InvAlways | crates/broza/src/quarantine/expiry.rs:164-191 | in every run: a process's lock file is its directory's own unless that was unlinked, and while none was, a process past its re-check stands on the directory it locked |
| SessionLock.ExclusionAlways | crates/broza/src/quarantine/lock.rs:60-66 | in every run: no lock file has two holders, and two processes hold one directory only if its lock file was unlinked while it stood; so never in a run of whole removals |
| SessionLock.WholeRemovalsUnlinkNothing | crates/broza/src/adapters/std_fs.rs:139-145 | only a removal taken apart unlinks a lock file from a standing directory |
| SessionLock.OnlyTheHolderRemoves | crates/broza/src/quarantine/expiry.rs:164-191 | in every run a session directory leaves only by a process past its re-check; while no lock file was unlinked from a standing directory, that is the one holder of that very directory |
| SessionLock.HolderKeepsItsSession | crates/broza/src/quarantine/lock.rs:1-14 | while no lock file was unlinked from a standing directory, a writer holding it keeps lock and directory through any steps of the others |
| SessionLock.KeptExactly | crates/broza/src/quarantine/lock.rs:1-14 | in any run, a process keeps lock and directory through any steps of the others exactly when it holds the standing one by the file linked there, nobody else is past a re-check, and nobody approved to remove it has another lock file of it open |
| SessionLock.SecondHolderExactly | crates/broza/src/adapters/std_fs_exclusive.rs:53-101 | a newcomer gets the standing directory's lock exactly when the lock file linked there is not held |
| SessionLock.StepwiseRemovalLetsTwoIn | crates/broza/src/adapters/std_fs.rs:139-145 | once a removal has unlinked `.lock`, a newcomer holds the same standing directory as the remover |
| SessionLock.RemovalIsReached | crates/broza/src/quarantine/expiry.rs:164-191 | a run ends that way |
| SessionLock.TwoHoldersOfOneName | crates/broza/src/quarantine/mover.rs:145-163 | in any run, a late `flock` on a directory that went, and a new claim, leave two holders of one session name |
| SessionLock.TwoHoldersAreReached | crates/broza/src/quarantine/mover.rs:145-163 | a run of whole removals ends that way |
| SessionLock.StaleFromTheStart | crates/broza/src/quarantine/lock.rs:60-66 | after its `flock`, in any run, a writer keeps its session whatever the others do exactly when it is safe then; one whose directory had gone never sees it stand again |
| SessionLock.ProbeCreatesExactly | crates/broza/src/quarantine/lock.rs:75-81 | in any run `take_if_present` creates a lock file exactly when the directory standing by then has none linked; that directory replaced the one it looked at, or is the same with its lock file unlinked |
| SessionLock.ProbeCreatesInASuccessor | crates/broza/src/quarantine/lock.rs:75-81 | a run of whole removals in which the probe creates one |
| SessionLock.ProbeCreatesInTheSame | crates/broza/src/quarantine/lock.rs:75-81 | a run of a stepwise removal in which it creates one in the very directory it looked at |
| AtomicWrite.CreateStarts | crates/broza/src/adapters/std_fs.rs:147-152 | the temporary file changes nothing under any other name |
| AtomicWrite.CrashShowsExactly | crates/broza/src/adapters/std_fs.rs:147-158 | a crash leaves a synced file as it is, and of an unsynced one anything but its absence |
| AtomicWrite.RenameSwitches | crates/broza/src/adapters/std_fs.rs:156-157 | after the rename the destination leads to the synced new file or where it led before |
| AtomicWrite.SyncDirSettles | crates/broza/src/adapters/std_fs.rs:224-228 | after the directory's `fsync` the destination leads to the new file only |
| AtomicWrite.SwitchedIsSafe | crates/broza/src/adapters/std_fs.rs:147-158 | a crash around the rename finds exactly the old file or exactly the new one, and every other name as before |
| AtomicWrite.SettledSurvivesExactly | crates/broza/src/adapters/std_fs.rs:224-228 | the new file survives every crash exactly when the directory's own entry is durable |
| AtomicWrite.Volume.Prepare | crates/broza/src/adapters/std_fs.rs:147-155 | a temporary file with the contents and mode, flushed, or a failure that leaves every name as it was; every state on the way is safe to crash in |
| AtomicWrite.Volume.Replace | crates/broza/src/adapters/std_fs.rs:147-158 | the whole protocol: every step is safe to crash in, a failure before the rename undoes all, success survives |
| AtomicWrite.Volume.WriteAtomic | crates/broza/src/adapters/std_fs.rs:147-158 | the same; on success the destination reads as the new contents with the twelve mode bits of the plain file it was, or `rw-r--r--` if it was none, and every other name as before; a failure before the rename leaves every name so |
| AtomicWrite.Volume.Write | crates/broza-cli/src/commands/atomic.rs:24-37 | the same after making the parent directory, with the temporary file's mode; the result survives exactly when the directory stood and was durable before |
| Digits.ValueOfText36 | crates/broza/src/quarantine/layout.rs:166-176 | reading the digits of a value gives the value, modulo what the width holds |
| Digits.TextOfValue36 | crates/broza/src/quarantine/layout.rs:166-176 | writing the value of a suffix gives the suffix |
| Digits.ValueOfPadded | crates/broza/src/quarantine/layout.rs:99-103 | a padded label reads back as its number |
| Ids.SessionIdShape | crates/broza/src/model/ids.rs:99-126 | a string is a session identifier exactly when it is the prefix, a timestamp and a suffix, and the accessors give those parts |
| Ids.EntryIdShape | crates/broza/src/model/ids.rs:154-178 | a string is an entry identifier exactly when it is a session identifier, a slash and digits, and the accessors give those parts |
| Ids.SplitOnceAtFirst | crates/broza/src/model/ids.rs:154-178 | splitting at the first separator undoes joining |
| Ids.BeforeIsNumeric | crates/broza/src/quarantine/layout.rs:99-103 | digit strings of one length sort as their numbers |
| Layout.EntryIdRoundTrip | crates/broza/src/quarantine/layout.rs:109-115 | for every session and `u32` number the entry id is valid and its parts give back both |
| Layout.StoredPathsApart | crates/broza/src/quarantine/layout.rs:86-98 | two numbers of one session never give stored paths of which one is or contains the other |
| Layout.EntryIdsSortBelowTenThousand | crates/broza/src/quarantine/layout.rs:99-115 | up to 9999, ids sort as their numbers |
| Layout.TenThousandthEntrySortsBack | crates/broza/src/quarantine/layout.rs:99-103 | the id after 9999 sorts before it |
| Layout.EntryIdsIncreaseExactlyBelowTenThousand | crates/broza/src/quarantine/entries.rs:39-58 | the planned ids increase as text exactly when there are at most 9999 |
| Layout.SuffixText | crates/broza/src/quarantine/layout.rs:166-176 | filling four slots from the right while dividing writes the base-36 digits |
| Layout.SuffixRoundTrip | crates/broza/src/quarantine/layout.rs:151-176 | suffix text and value are inverse on all of 36^4 |
| Layout.NameAtParts | crates/broza/src/quarantine/layout.rs:151-159 | each place of the cycle is a valid identifier of the same instant |
| Layout.WalkStep | crates/broza/src/quarantine/layout.rs:151-159 | the successor of a session name is the next place of the cycle, valid and of the same timestamp |
| Layout.WalkHasNoRepeat | crates/broza/src/quarantine/layout.rs:151-176 | the first 36^4 names are pairwise distinct |
| Layout.WalkReachesEverySuffix | crates/broza/src/quarantine/layout.rs:151-176 | and cover every suffix |
| Layout.ClaimedExactly | crates/broza/src/quarantine/mover.rs:145-163 | a name is claimed exactly when one of the first sixteen is free and no try up to it broke; it is that one, of the same instant, and the plan's own exactly when that was free |
| Layout.ClaimSession | crates/broza/src/quarantine/mover.rs:145-163 | the loop's result is that one: the claimed name is the first free one of the walk; giving up means every name tried was taken or the disk failed |
| Entries.PlannedEntriesAreNumbered | crates/broza/src/quarantine/entries.rs:39-58 | entries exist exactly when every index names an item and the count fits a `u32`; they are numbered from one in order and hold nothing |
| Entries.HeldExactly | crates/broza/src/quarantine/entries.rs:88-95 | a session's bytes are the exact sizes of the entries with a stored path, capped once |
| Packing.GreedyBreaks | crates/broza-cli/src/output/wrap.rs:23-41 | the greedy lines are the words in order, each line within the budget or a single word |
| Packing.GreedyFills | crates/broza-cli/src/output/wrap.rs:26-36 | a line starts only where its first word did not fit on the one before |
| Packing.StaysAhead | crates/broza-cli/src/output/wrap.rs:26-36 | compared word by word, the loop never starts more lines than another breaking has |
| Packing.GreedyIsOptimal | crates/broza-cli/src/output/wrap.rs:23-41 | no other way to break the words into such lines has fewer |
| Wrap.WrapKeepsWords | crates/broza-cli/src/output/wrap.rs:23-41 | under a blank indent the paragraph, split at white space again, has exactly the text's words |
| Wrap.WrapIsIdempotent | crates/broza-cli/src/output/wrap.rs:23-41 | wrapping a wrapped paragraph gives what wrapping the text gives |
| Wrap.LinesWithinWidth | crates/broza-cli/src/output/wrap.rs:23-41 | every line carries the indent and passes the width only for a single word |
| Wrap.LinesAreFull | crates/broza-cli/src/output/wrap.rs:23-41 | and no line with its indent ends before the width makes it |
| Wrap.WrapTo | crates/broza-cli/src/output/wrap.rs:23-41 | the loop over a line being filled gives the greedy lines, indented and joined |
| DeepOpen.StretchOpens | crates/broza/src/adapters/dir_fd.rs:126-133 | a joined stretch of names opens what the names reach one at a time |
| DeepOpen.FailureAgrees | crates/broza/src/adapters/dir_fd.rs:105-123 | an `openat` that fails on the way fails as the whole way does |
| DeepOpen.CallsAreShort | crates/broza/src/adapters/dir_fd.rs:105-123 | every string given to `openat` is below `PATH_MAX` when every name is |
| DeepOpen.FewestCalls | crates/broza/src/adapters/dir_fd.rs:100-123 | no split into strings below `PATH_MAX` takes fewer calls |
| DeepOpen.OpenDirectoryBelow | crates/broza/src/adapters/dir_fd.rs:105-123 | opens what the names reach and fails exactly when they reach no directory, by the greedy stretches; a component that is no plain name opens nothing |
| DeepOpen.ReachedIsInside | crates/broza/src/adapters/dir_fd.rs:48-54 | links or not, what plain names reach is as many levels below the anchor as there are names |
| DeepOpen.OpenDirectory | crates/broza/src/adapters/dir_fd.rs:63-92 | however the kernel refuses paths for their length, the directory is the one the simple walk reaches, none exactly when there is none, with the way's own error |
| Normalize.NormalizedIsClean | crates/broza-cli/src/commands/explain.rs:160-174 | the result has no empty piece, no `.`, no `..` |
| Normalize.NormalizeIsIdempotent | crates/broza-cli/src/commands/explain.rs:160-174 | normalising again, against any directory, changes nothing |
| Normalize.NormalizeComposes | crates/broza-cli/src/commands/explain.rs:160-174 | resolving `b` where `a` leads is resolving `a/b` |
| Normalize.NormalizedNamesTheNode | crates/broza-cli/src/commands/explain.rs:160-174 | the result names the node a component-by-component walk reaches where it meets no symbolic link (section 4.13 of the POSIX.1-2017 Base Definitions) |
| Normalize.NormalizedCanSayMore | crates/broza-cli/src/commands/explain.rs:160-174 | a missing name followed by `..` fails a walk and not the result |
| Normalize.TextWalksExactly | crates/broza-cli/src/commands/explain.rs:160-174 | on any tree a walk of the text succeeds exactly when one of the result does and every place the text steps from is a directory |
| Normalize.AgreeEverywhereExactly | crates/broza-cli/src/commands/explain.rs:160-174 | text and result walk alike on every tree, errors included, exactly when the text steps from nowhere but the root and proper ancestors of the result |
| Normalize.DotInside | crates/broza-cli/src/commands/explain.rs:160-174 | a `.` between two names keeps that condition |
| Normalize.DotLast | crates/broza-cli/src/commands/explain.rs:160-174 | a `.` after the last name, or a name undone by `..`, breaks it |
| Normalize.NormalizePath | crates/broza-cli/src/commands/explain.rs:160-174 | the loop pushing and popping computes that result |
| ShellWords.EscapedScans | crates/broza-cli/src/commands/clean.rs:266-268 | inside the quotes the shell reads back any value, quotes and newlines included |
| ShellWords.QuotedReads | crates/broza-cli/src/commands/clean.rs:266-268 | a quoted value is one word, whatever part follows it on the line |
| ShellWords.CategoryNamedExactly | crates/broza-cli/src/commands/clean.rs:239-244 | an argument names a category exactly when it is that category's id with white space around it |
| ShellWords.RerunCommand | crates/broza-cli/src/commands/clean.rs:235-263 | splitting the printed line by sections 2.2.1, 2.2.2 and 2.3 of the POSIX Shell Command Language gives exactly the flags and values meant |
| ShellWords.RerunSelectsTheSame | crates/broza-cli/src/commands/clean.rs:233-263 | parsed again, the printed flags give the same categories, risk, exclusions, limits and kind of removal |
| Csv.FieldScans | crates/broza-cli/src/output/csv.rs:26-32 | any field is read back from its text |
| Csv.RowScans | crates/broza-cli/src/output/csv.rs:21-23 | any row is read back from its line, up to its end |
| Csv.LastEmptyRowIsLost | crates/broza-cli/src/commands/quarantine.rs:45-46 | a last row that is one empty field is not read back |
| Csv.RoundTripExactly | crates/broza-cli/src/output/csv.rs:21-32 | printing and reading by section 2 of RFC 4180, with LF for CRLF, gives back the table exactly when it has rows, rows have fields, and the last of several is not one empty field |
| Csv.TablesRoundTrip | crates/broza-cli/src/commands/quarantine.rs:45-46 | so every table of two columns or more is read back |
| NodeIndex.Index.constructor | crates/broza/src/detect/detector.rs:128-140 | the loop builds maps that answer as scans of the walk would |
| NodeIndex.Index.Node | crates/broza/src/detect/detector.rs:223-225 | looking a path up is scanning for it |
| NodeIndex.Index.ChildrenOf | crates/broza/src/detect/detector.rs:239-241 | looking children up is scanning for them |
| NodeIndex.ScanFinds | crates/broza/src/detect/detector.rs:223-225 | the scan finds the one node with the path |
| NodeIndex.ChildrenAreChildren | crates/broza/src/detect/detector.rs:239-241 | the scan gives exactly the direct children |
| NodeIndex.ChildrenInWalkOrder | crates/broza/src/detect/detector.rs:239-241 | in walk order |
| NodeIndex.BinarySearch | crates/broza/src/detect/detector.rs:191-193 | on sorted distinct keys the search finds exactly what is there |
| NodeIndex.HasClones | crates/broza/src/detect/detector.rs:191-193 | membership in the sorted families is membership |
| NodeIndex.SettledAllocated | crates/broza/src/detect/detector.rs:207-220 | the two searches give the figure a look at every file and family gives |

## Left out

- WholeRun.OrderDoesNotMatter: is for runs without a cap, because with one the order decides which items still fit.
- StoreRuns.NothingLeavesUnexplained: allows for a call that failed after removing that session, which is what the code does and `SessionStore.PurgeCanLoseItsReport` shows.
- Wrap.WrapKeepsWords: asks for a blank indent, since the words of any other indent are read back as well; `Packing.GreedyBreaks` and `Wrap.LinesWithinWidth` do not.
- Normalize.NormalizedNamesTheNode: goes one way only, because the other fails; `Normalize.TextWalksExactly` says when it does not.
- A rename into the store is whole or undone after a power cut, and the directories made for it may be there or not; a file system that keeps half of a rename is not modelled.
- Expiry times of a new session (`ttl::expires_at`) and the clock.
- `CleanRun.Apply` starts after the confirmation; the store it is given and the names taken when a session is claimed are two parameters.
- Calendar validity of a session timestamp is a parameter: an arbitrary predicate on fourteen digits.
- Session reads and removals in `SessionStore` and `StoreRuns` are atomic, and a removal is all or nothing; only `SessionLock` takes them apart.
- `SessionLock` has of a removal's steps the unlinking of `.lock`, which may come again, giving up, and the last `rmdir`, which a lock file made since refuses; the order in which the other entries go is not modelled.
- The guard's own checks are not modelled: its token names planned paths with the identity they had, and whichever items it left out are not in the run. Snapshot deletions touch no path and have no turn in `WholeRun`.
- `SessionLock` gives every directory and lock file a fresh identity; inode numbers that come back are not modelled, nor is the bounded retry of a contended `flock`.
- The disk of `AtomicWrite` and those of `Mover` and `StoreRuns` are not one: there a failed manifest write leaves the old contents or the new, which is what `AtomicWrite` shows of it.
- The checked rename used where an exclusive one is missing is the exclusive one here, so its race with other writers is not modelled.
- Clone families and hard links enter only as the figures measuring answers; the tree has directories and nodes with identities.
- Restoring a session is one operation of `StoreRuns`, the rename out; its own loop is not modelled.
- The prompt and the token of an expiry: `ExpireDue` takes the answer and the token as given, and the sizes the prompt shows are not modelled.
- Opening by path is modelled for absolute paths of plain names in a tree without links; a relative start path and the links an absolute open follows on the way are not.
- The two printers of `clean` and `quarantine` beyond the command line and CSV, and how the argument parser treats a value that begins with a dash.
- Detectors, the walker, JSON, TOML, configuration layers, colours, byte formatting in floating point, and process or terminal plumbing.
