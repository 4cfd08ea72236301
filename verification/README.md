# Verified model of the normalizer's durable core

A Dafny model of the parts of the repository whose correctness is hardest to see from reading one
function: the durable reconciliation index, journal retention and the history cache, installation
with rollback, and five smaller state machines. `dafny verify dfyconfig.toml` checks everything.

## What is modelled

**The reconciliation index** (`native/src/index.rs`). `JobTable` holds the `jobs` and `deferred_jobs`
tables as values, with coalescing, absorption, deferral, promotion to the tail and overflow.
`Worker` is the state machine over those tables: intake, overflow, bootstrap, selection, commit,
abort and restart may follow each other in any order, and an observation is whatever the reconciler
returns. `IndexState` is the same thing as an object whose methods update its fields in loops, as
the source does; each method is proved to take exactly the step of `Worker`, so that what is proved
of runs holds of it. On top of this:

- `Coverage`, `Deferral`, `Queueing`, `Commits` and `Crawl` prove that the baseline flag is honest
  over every run; `Requests` that no accepted request is lost. `Losses` and `Duty` say exactly what a
  commit stops representing, as a request and as baseline work, for observations of every kind, and
  `HandedOver` what it asks for;
  `Tightness` shows that the few commits the run theorems exclude do lose something.
- `Recreation`, `ShallowTurns` and `TopDirectory` hold the three places where the code does less than
  one would hope, the first two with whole runs from an empty table (`Example`).
- `Delays` says when a row may be tried: a live request makes its row due at once, an error makes its
  row failed work that waits, and a failure lasts until its row is acknowledged. `Requeued` says what is
  queued again, `Bounds` when intake is bounded, and `Scans` that all turns of one scan are made for
  the row as it was when the scan began.
- `Scheduler` proves the waiting bounds of the four ready classes, that the bound is reached, and why
  it holds for groups only once slow turns end bursts; `Service` says the same of rows by their columns,
  with the order of the kinds and the order within a kind. `Ordering` proves that explicit requests are
  first in, first out, over runs of the worker from a restart. `Walk` proves that a quiet baseline walk
  ends after one visit per directory.
- `EntryStore` refines the interned tables to a flat map, `Migration` is the conversion from and to
  the legacy schema over path texts, and `Chunks` proves that a chunked observation is a replacement.

**Journals** (`native/src/journal.rs`, `native/src/history.rs`). `Retention` is the fold over expired
archives, which may stop after any durable step; `History` the incremental cache; `Retry` the
revision-based dirty check.

**Installation** (`native/src/install.rs`, `native/src/lifecycle.rs`). `Lifecycle` models launch jobs
whose registrations linger after they were booted out, `Applications` the exchange of application
bundles under three rename outcomes and interference by other programs, and `Install` the whole
transaction.

**Smaller machines.** `DirectoryIo` and `Deadlines` (nested deadline guards and the watchdog, at the
granularity of the mutex), `Activity` (the event feed and its reply), `Policies` (lexical path
policy) with `Acceptance` (what it accepts, without loops), and `FilenameRepair` (segmentation and
repair of names) with `RepairEvidence` (when a span is repaired).

## Reading the model

- A path is the sequence of its components (`Paths`); a range over path texts is a prefix test. Each
  SQLite transaction is one step. Clocks are arbitrary inputs, except that the clock of `Deadlines`
  is monotonic. Integers are unbounded: the 64-bit counters of generations, revisions and events are
  not wrapped.
- `Row.birth`, `State.clock`, `State.owed`, `State.done`, `Folder.deleted` and `Folder.taken` are
  bookkeeping. No decision reads them; the theorems are stated with them.
- The reconciler promises (`Commits.Exhaustive`): a complete observation names every subdirectory of
  the tree as a child or as an error, or reports an error at the directory itself, and records no
  directory of the tree as a plain entry.
- A configuration is valid (`JobTable.Configuration.Valid`) when roots of one volume do not nest.
  `Policies.ConfigurationIsValid` derives that from the policy for volumes of one root each, as
  volumes are discovered and streams demand (`native/src/events.rs:355-362`, `native/src/events.rs:385`),
  and for scopes spelled below their root as the root is. `JobTable.Setting` is any valid
  configuration; `JobTable.Env` is one in which `/` is no root.

## Findings

1. `docs/architecture.md` says that a running job cannot delete newly arrived work, because an event
   changes the generation. The acknowledgement compares the generation alone
   (`native/src/index.rs:1275-1297`), and an overflow deletes and inserts a row again with
   generation 1 (`native/src/index.rs:1934-1952`). When that happens to the row under observation, the
   newer request is acknowledged with the old one. `Recreation.OverflowDuringRootTurn` is a run from a
   staged baseline, with intake bounded after every event as in the source, in which an overflow during
   a shallow turn of the root loses a newer request and the pending baseline directory, and the index
   reports a complete baseline over an empty table.
   `Losses.NewerRequestKeptIff` and `Duty.BaselineKeptIff` state exactly what survives such a turn. The
   run theorems allow re-created rows; they exclude only a commit that deletes one while something it
   stood for is not kept by that commit (`Crawl.SparesBaseline`, `Crawl.SparesRequests`), and
   `Tightness.TrackedIff` and `Tightness.OpenRequestKeptIff` show that what is not kept is indeed lost.
2. A shallow request that coalesces into a recursive continuation makes its next turn shallow, and the
   acknowledgement then deletes the recursive row. `ShallowTurns.RequestIsLost` is a run from an empty
   table that loses a request this way; `Losses.ShallowTurnKeepsIff` states exactly which directories
   below stay represented.
3. `/` can be a root. The range of rows that a recursive request takes over is computed from the prefix
   of its path, and the prefix of `/` is `/` itself (`native/src/index.rs:1868-1884`), so that the request
   deletes its own row when that is clean baseline work. `TopDirectory.LandsIff` states exactly when;
   by `TopDirectory.BootstrapKeepsIff`, bootstrap with the single root `/` leaves an empty table and
   reports a complete baseline, and `TopDirectory.OverflowAtTop` is a table whose overflow drops the
   baseline work. The run theorems are about configurations in which `/` is no root.
4. When bursts end by time, a single class can be passed over for ever although its group is served:
   `Scheduler.SlowTurnsFromStart`.
5. An installation whose rename was refused, with an outcome that could not be read, reports a failed
   rollback although nothing is left to undo: in `Install.Machine.RollBack`, success needs every rename
   of the way forward to have been done, and by `Applications.ApplicationSwap.Publish` a refused rename
   whose outcome cannot be read counts as published.
6. A removal becomes pending only once its bootout was accepted (`native/src/lifecycle.rs:202-217`). When
   a bootout is denied but takes effect, the departing registration is unknown to the rollback, which
   sees the job loaded, starts nothing and reports success (`native/src/install.rs:949-966`); the
   registration then vanishes. `Install.Machine.DeniedStop` is this run, `Install.Sample` a machine for it.
   A rollback that reports success has restored every registration if and only if none is on its way out
   (`Install.Machine.RollBack`, `Install.Machine.Activate`).

## Model

| member | source | states |
|---|---|---|
| JobTable.Configuration.Between | native/src/index.rs:1639-1655 | a path between two paths of one volume belongs to that volume |
| Coverage.QueueEffect | native/src/index.rs:1791-1886 | where `/` is no root, a queue operation changes one row, which only gains recursion, baseline duty and a generation, and removes only clean baseline rows that this row takes over |
| Coverage.EffectKeeps | native/src/index.rs:1805-1886 | coalescing and absorption never uncover a directory, also not against an observation in flight |
| Coverage.EffectAdds | native/src/index.rs:1805-1850 | a queued request is represented by the row it lands in, its subtree too when that row is recursive |
| TopDirectory.LandsIff | native/src/index.rs:1868-1884 | after a recursive queue operation its own row is in the table if and only if it lies below `/` or is not clean baseline work |
| TopDirectory.BootstrapKeepsIff | native/src/index.rs:974-996 | bootstrap of one root into an empty table keeps its row if and only if the root is not `/`, and otherwise reports a complete baseline |
| TopDirectory.OverflowDropsBaseline | native/src/index.rs:1934-1952 | an overflow of a volume whose root is `/` leaves no pending baseline row but failed ones |
| TopDirectory.OverflowAtTop | native/src/index.rs:1934-1952 | an instance: over the root `/`, an overflow of a table with a pending baseline directory leaves no baseline work at all |
| Deferral.DeferKeeps | native/src/index.rs:1694-1731 | setting a request aside represents it and keeps every request set aside before, through ancestors, descendants and overflow |
| Queueing.DrainKeeps | native/src/index.rs:1732-1744 | draining turns every deferred request into a job that represents it |
| Queueing.OverflowKeeps | native/src/index.rs:1934-1952 | an overflow of bounded intake leaves every directory represented, by recursive roots where rows were dropped |
| Bounds.IntakeIsBounded | native/src/index.rs:1934-1952 | intake of at most 4096 rows of a volume is left as it is; of more, only recursive rows are left |
| Commits.FinishKeeps | native/src/index.rs:1246-1359 | a commit keeps every directory of the tree represented, except its own when that was observed without an error and nothing newer stands for it; if it deletes a re-created row or one that reaches deeper than the turn, it keeps what another row represents or the commit asks for |
| Commits.RecursiveTurnHandsOn | native/src/index.rs:1310-1350 | a complete recursive turn asks for everything of the tree below its directory again, as baseline work when it was a baseline turn |
| Commits.HandsOver | native/src/index.rs:1275-1359 | what an acknowledged row stood for passes to its children, its failed entries or its parent |
| Requeued.NewerRequestYields | native/src/index.rs:1887-1904 | a live request that overtook an observation stays when that ends or is refused, behind all rows there were |
| Requeued.AcknowledgementMoves | native/src/index.rs:1887-1904 | an acknowledgement makes no row and moves none but its own, and that only when a live request has overtaken the observation |
| Requeued.FoundOwned | native/src/index.rs:1745-1765 | a path the reconciler finds again changes nothing if it is not accepted or a row owns its retry |
| Requeued.FoundAgain | native/src/index.rs:1042-1052 | otherwise it is represented from then on |
| HandedOver.HandedOnIff | native/src/index.rs:1301-1352 | exactly what the end of an observation asks for, by its children, errors and listings: the parent of a vanished scope, the children to go on with, and the paths that failed |
| Crawl.StepKeeps | native/src/index.rs:874-1245 | intake, overflow, bootstrap, selection, skipped and partial turns, abort and restart keep what is represented |
| Crawl.FlightOrigin | native/src/index.rs:1155-1221 | an observation in flight after a step was in flight before or has just been selected, although the lock is released during a scan |
| Crawl.BaselineComplete | native/src/index.rs:1668-1684 | over every fair run, with rows re-created under a running observation or a receipt, baseline_complete holds only when each directory of the tree was observed to the end without an error at itself; until then each waits for bootstrap, has a baseline row, or lies below a recursive one |
| Requests.RequestsSurvive | native/src/index.rs:1023-1297 | over every fair run, with rows re-created under a running observation or a receipt and with shallow turns of recursive rows, each request not yet answered by a later clean observation is held by a job or deferred row at its directory or a recursive one above |
| Requests.OwedUntilObserved | native/src/index.rs:1273-1297 | only a clean observation that began no earlier than the request takes it off the books |
| Losses.CommitKeepsIff | native/src/index.rs:1273-1357 | after any complete observation, also with errors or of an ordinary turn, a directory is represented if and only if it was without the deleted row or the commit asks for it |
| Losses.NewerRequestKeptIff | native/src/index.rs:1275-1297 | a request newer than the observation survives it if and only if no re-created row is deleted, or something else represents the directory, or the commit asks for it again |
| Tightness.OpenRequestKeptIff | native/src/index.rs:1273-1357 | after a commit that deletes its row, an open request is still represented if and only if another row represents it or the commit asks for it |
| Duty.BaselineKeptIff | native/src/index.rs:1273-1357 | after any complete observation a directory waits for the baseline walk if and only if another baseline row stands for it, the commit hands it on as baseline work, or a row that stands for it takes baseline duty by coalescing or absorption in that commit |
| Tightness.TrackedIff | native/src/index.rs:1668-1684 | exactly what the baseline flag still stands for in the state after an observation ended |
| Recreation.OverflowDuringRootTurn | native/src/index.rs:1934-1952 | a run from a staged baseline, with intake bounded after each event, in which an overflow and the commit of the running turn lose a newer request and all pending work and report a complete baseline |
| Recreation.LosingRunExists | native/src/index.rs:1275-1297 | such a run exists, so that the flag can be set over an unobserved tree |
| ShallowTurns.RequestIsLost | native/src/index.rs:1814-1859 | a run from an empty table in which a shallow request coalesces into a recursive row and its turn loses the request for a directory below |
| Losses.ShallowTurnKeepsIff | native/src/index.rs:271-277 | after a shallow turn whose row is recursive by now, coalesced or re-created, a directory below is still represented if and only if something else represents it, the child towards it is listed and was not recorded before, or an error is retried with its subtree |
| Delays.IntakeIsDue | native/src/index.rs:1805-1866 | an event that is not set aside ends in the nearest recursive row without baseline work above it, or in its own row; that row is live intake, at its old place or last, and due at once, so that every selection of its volume sees it; no other row changes but for those it takes over |
| Delays.IntakeIsSetAside | native/src/index.rs:1694-1731 | while a recursive observation at or above it is under way, an event changes no row, and what is set aside stands for its directory, with its subtree for all below |
| Delays.PreservedDue | native/src/index.rs:1855-1859 | a request that preserves leaves every due time and place as it was, gives a row it makes its own due time, and makes neither a new nor a failed row live |
| Delays.ErrorIsRetried | native/src/index.rs:1326-1356 | after a complete observation every reported error that is accepted is failed work at its retry path with one more attempt, and waits two seconds to five minutes by the number of attempts, unless a request set aside asks for it |
| Delays.CleanTurnResets | native/src/index.rs:1281-1290 | a clean ordinary turn leaves the baseline row it acknowledges with no attempts, no failure and due at once |
| Delays.OrdinaryTurnEnds | native/src/index.rs:1281-1290 | an ordinary turn, also one with errors, takes the live request from the baseline row it acknowledges and leaves its baseline work, unless something asks for the row again |
| Delays.PartialTurnYields | native/src/index.rs:1248-1259 | a turn that goes on puts its row last and makes it due no earlier than now, unless it has failed attempts |
| Delays.FailureLasts | native/src/index.rs:874-1360 | over every run, overflows and restarts included, a failed row stays failed with no attempt forgotten until it is acknowledged, and is not due earlier unless a live request asks for it |
| Scans.ScanBegins | native/src/index.rs:1221-1226 | the first turn of a scan records the row as it was selected |
| Scans.TurnsShareJob | native/src/index.rs:2193-2225 | however the tables change while a scan is under way, its last observation is committed for the row as it was when the scan began |
| Scans.OtherScans | native/src/index.rs:1021-1032 | an observation of another scan is committed for the row as selected, and a scan that ended or was dropped with its row leaves no record |
| IndexState.Index.QueueIntent | native/src/index.rs:1791-1886 | the method with its ancestor loop takes exactly the queue step of the table |
| IndexState.Index.Defer | native/src/index.rs:1694-1731 | the method with its loops over rows and roots equals the deferral of the table |
| IndexState.Index.DrainDeferred | native/src/index.rs:1732-1744 | queues the deferred rows in order into the table without them |
| IndexState.Index.MoveToTail | native/src/index.rs:1905-1933 | the method takes exactly the tail move of the table |
| IndexState.Index.BoundQueue | native/src/index.rs:1934-1952 | the method with its loop over roots takes exactly the overflow step of the table |
| IndexState.Index.Select | native/src/index.rs:1013-1159 | drains, queues due retries without a ticket, and makes the scheduler's best ready row the active job; no row is ready exactly when none is picked |
| IndexState.Index.Commit | native/src/index.rs:1221-1360 | the second half of work takes exactly the commit step of the worker: whole tables, receipts, flag and active job |
| IndexState.Index.Restart | native/src/index.rs:377-398 | a new process takes exactly the restart step: saved intake is drained first and then lies below the startup floor and the mark |
| IndexState.Index.Intake | native/src/index.rs:874-973 | a request of an event takes exactly the intake step of the worker |
| IndexState.Index.Bootstrap | native/src/index.rs:974-996 | takes exactly the bootstrap step: pending roots queued, pending cleared, flag refreshed |
| IndexState.Index.Abort | native/src/index.rs:1182-1191 | an observation that ends in an error other than one of the file system releases the active job and nothing else |
| Scheduler.Selector.Select | native/src/index.rs:1056-1133 | picks a row no ready row sorts before, of the best ranked ready class, and moves the burst state on |
| Scheduler.ExplicitFirstInFirstOut | native/src/index.rs:1096-1107 | within a class explicit requests are served in rowid order and before implicit work |
| Scheduler.GroupServed | native/src/index.rs:1056-1133 | for any clock readings, live intake, failed work, or baseline and frontier work that is ready at 513 consecutive turns is served at one of them |
| Scheduler.BoundIsReached | native/src/index.rs:1056-1133 | 512 turns can pass over ready failed work |
| Scheduler.ClassServed | native/src/index.rs:1056-1133 | if no burst ends by time, each of the four classes is served within 513 turns in which it is ready |
| Scheduler.SlowTurnsStarveAClass | native/src/index.rs:1062-1074 | with slow turns, baseline work is ready at any number of turns and never served |
| Scheduler.SlowTurnsFromStart | native/src/index.rs:1062-1074 | from the start of the process, with slow turns and every class ready throughout, baseline work is served at the first turn and never again |
| Service.SelectAll | native/src/index.rs:1056-1133 | selection after selection over changing tables is a run as the following rows assume it |
| Service.LiveAndFailedServed | native/src/index.rs:1096-1107 | if at 513 selections in a row some live row is due, or at each some failed row, one of them takes such a row, for any clock readings |
| Service.BackgroundServed | native/src/index.rs:1096-1107 | the same for baseline and frontier rows together |
| Service.EachKindServed | native/src/index.rs:1062-1107 | if no burst below 256 rows lasts a second, the same for each of the four kinds of rows |
| Service.BaselineFirst | native/src/index.rs:1056-1107 | the first row of a process is a baseline row, if one is due |
| Service.BackgroundAlternates | native/src/index.rs:1099-1133 | while a burst of background work lasts, baseline and frontier rows take turns, ahead of live rows |
| Service.BurstsInTurn | native/src/index.rs:1061-1133 | failed work follows a burst of live rows, live rows follow background work, frontier rows follow failed work |
| Service.ImplicitOrder | native/src/index.rs:1084-1107 | within a kind of implicit rows, retained background scans go on first, then the least due time decides, then rows without their subtree, then the length and the text of the path |
| Ordering.TailIsLast | native/src/index.rs:1905-1933 | a tail move places a row above every row, the startup floor and every earlier mark, and changes no rowid of a row that is last already |
| Ordering.KeepsPlace | native/src/index.rs:1858-1866 | coalescing onto a live row, and every operation but the end of its own turn, keep its place |
| Ordering.WorkerSteps | native/src/index.rs:1013-1360 | every step but a restart is made of order-keeping operations and moves no waiting row but the one whose turn it ends |
| Ordering.FirstInFirstOut | native/src/index.rs:1838-1866 | a due request that waits is never passed over by a row that became live later |
| Ordering.RestartOrdered | native/src/index.rs:377-398 | a restart leaves every row in the order the theorem needs |
| Ordering.RestartSaves | native/src/index.rs:377-398 | after a restart no row counts as live: the floor is the highest rowid there is, and the mark is at least that and never falls |
| Ordering.WorkerFirstInFirstOut | native/src/index.rs:1013-1360 | over any run of the worker from a restart, of two due live rows the one that became live later is not served |
| Ordering.WaitingRowLeads | native/src/index.rs:1838-1866 | a row that waits through any such run keeps its place before every row that becomes live in it |
| Walk.TurnWalks | native/src/index.rs:1273-1320 | one turn replaces a frontier directory by its children; nothing at or below the frontier was observed |
| Walk.QuietWalk | native/src/index.rs:974-1360 | with one volume, a static tree and no other work, work observes every directory exactly once and then finds the table empty and the baseline complete |
| EntryStore.LatestDecides | native/src/index.rs:2065-2151 | an entry is present if and only if the latest change touching its path observed it, or nothing touched one that was there |
| EntryStore.TakenIsPruned | native/src/index.rs:2093-2131 | deletion by interned parent and name takes exactly the entries below the path, and itself if asked, outside preserved roots |
| EntryStore.Store.ObserveEntry | native/src/index.rs:2133-2152 | the interned tables change as the flat map does, with no dangling id and no parent without an entry |
| EntryStore.Store.Prune | native/src/index.rs:2065-2132 | the interned tables and directories lose exactly what the flat prune removes, and no interned parent is left without an entry |
| EntryStore.Store.Run | native/src/index.rs:2065-2152 | any sequence of observations and prunes is the same sequence on the flat map |
| Migration.InvalidExactly | native/src/index.rs:105-117 | the migration test rejects exactly the rows that are not a slash-free name below an absolute parent |
| Migration.Database.Initialize | native/src/index.rs:68-144 | compaction happens if and only if every row can be reconstructed, and then represents exactly the legacy rows; otherwise nothing changes |
| Migration.Database.Restore | native/src/index.rs:169-232 | recovery turns the compact view into the legacy table of the same rows, keyed by path |
| Migration.RoundTrip | native/src/index.rs:68-232 | compaction followed by recovery is the identity on every accepted legacy table |
| Migration.RoundTripBack | native/src/index.rs:68-232 | recovery and then compaction show the same rows again, from every compact table |
| Migration.SpelledApart | native/src/index.rs:134-142 | a spelling determines its directory and its name, so that neither conversion can collide |
| Chunks.OneShot | native/src/index.rs:2293-2385 | a replacement by a clean observation compares every child held and records every child listed, in whatever order rows are visited |
| Chunks.ChunkingRefinesReplacement | native/src/index.rs:2176-2385 | any split of a clean observation into chunks leaves the entries and directories of one replacement of the whole |
| Chunks.NothingLostOnAbsence | native/src/index.rs:2220-2256 | before the last chunk an entry is lost if and only if another object was positively seen in place of the directory above it |
| Chunks.Recorder.StageScan | native/src/index.rs:2193-2256 | one chunk with its loop over entries, and the restart of the seen set under a new scan id |
| Chunks.Recorder.FinishScan | native/src/index.rs:2257-2292 | prunes unseen children in any order, only without errors and for an accepted, enumerated scope; says so of every entry and directory |
| Chunks.Recorder.Replace | native/src/index.rs:2293-2385 | the method with its loops over rows and entries is the replacement; after it every entry and directory is what the observation listed last, or was there and not taken away |
| Chunks.ReplacedExactly | native/src/index.rs:2293-2385 | exactly what a replacement takes away, for enumerated scopes with and without errors and for scopes that vanished, and what it records |
| Chunks.ErrorsTakeNothing | native/src/index.rs:2333-2362 | next to errors nothing at, above or below a failed path is lost, and nothing at all if the scope was not enumerated |
| Chunks.VanishedGoes | native/src/index.rs:2331-2335 | a scope that vanished without an error goes with exactly what lies at and below it and under no protected root |
| Chunks.NestedRoots | native/src/index.rs:2299-2317 | a missing nested root goes with everything below it, and exactly the other nested roots are protected |
| Chunks.FinishedExactly | native/src/index.rs:2257-2292 | exactly what the end of a scan takes away |
| Chunks.ScanInChunks | native/src/index.rs:2193-2292 | staging chunk after chunk and finishing gives the outcome of the whole observation |
| Retention.FoldDecides | native/src/journal.rs:701-726 | of an unprotected operation the fold keeps the last record, marked, if and only if that is no commit and needs recovery or is no error; of a protected one its last committed record, or else its last |
| Retention.FoldTwice | native/src/journal.rs:701-726 | folding the same records again changes no fact |
| Retention.LinesFold | native/src/journal.rs:741-764 | reading the recovery file back gives the facts it was written from |
| Retention.Refold | native/src/journal.rs:701-737 | from the published facts and any remaining part of the expired archives the fold retains the same facts |
| Retention.PartlyRetains | native/src/journal.rs:765-784 | after publication and any part of the ordered deletions, raw file before compressed twin, retained facts and final state are unchanged |
| Retention.Disk.Maintain | native/src/journal.rs:650-792 | wherever it stops, every record of the recovery file and the expired segments that still speaks for its operation is on disk, the retained facts are in the sources and the final state is the same; with enough steps it gets there |
| Retention.RetainedExactly | native/src/journal.rs:695-737 | an operation is retained if and only if one of its records is unresolved, or is protected, and no retained source shows it as renamed or reverted |
| Retention.StayingIs | native/src/journal.rs:666-684 | the segments that stay are the newest, at most two of at most 16 MiB together, and one more would break that |
| Retention.StopAndRestart | native/src/journal.rs:650-792 | stopped anywhere and started again, it ends with the recovery file and segments of an uninterrupted run, and still holds the evidence |
| History.FactsOf | native/src/history.rs:332-378 | a fold knows an operation as confirmed by its renames, with the last payload and the first day, and undone by the last record restoring it |
| History.PlaceOf | native/src/history.rs:332-378 | a confirmed operation is shown, at the place of its last rename |
| History.LatestEvent | native/src/history.rs:332-378 | the latest event of an operation is its last listed record, which is also its payload while it is not confirmed, hidden if it restores another operation |
| History.FilterAgrees | native/src/history.rs:371-376 | only renamed and reverted records matter for confirmed facts, their order and their undo requests |
| History.ReadOnConfirms | native/src/history.rs:184-223 | reading grown files on confirms, in the same order, what reading all sources again confirms |
| History.HistoryFile.Refresh | native/src/history.rs:309-378 | after every refresh, incremental or not, the cache agrees with a rebuild on payload, day, restored mark, undo request, order and the count of every day |
| Retry.RetryEntries.Insert | native/src/journal.rs:139-144 | the revision changes if and only if the records do |
| Retry.RetryEntries.Retain | native/src/journal.rs:152-161 | keeps exactly what the predicate keeps, with the old revision exactly when nothing went; a panic leaves a new revision |
| Retry.RetryEntryEdit.Drop | native/src/journal.rs:207-213 | the old revision comes back exactly when the records are as before the edit |
| Retry.RetryState.Save | native/src/journal.rs:327-343 | writes unless this revision was saved to this path, and then the file holds the current records |
| Retry.RetryState.Deferred | native/src/journal.rs:293-306 | waits exactly for a record of the same object that is not due, and draws a due time that lies too far ahead in |
| Retry.RetryState.Failure | native/src/journal.rs:307-326 | counts repetitions of one reason for one object and delays by a bounded power of two |
| Retry.RetryState.DelayDoubles | native/src/journal.rs:307-326 | the first delay is the base, each further one doubles it, up to the maximum and twenty doublings |
| Retry.Run | native/src/journal.rs:116-343 | over any sequence of edits, also forgotten ones, replacements and failed saves, each save went on to write, or found the file equal to the records, or had no path |
| Applications.ApplicationSwap.Publish | native/src/install.rs:576-611 | for every rename outcome and interference, the staged name holds nothing but the copy unless the swap counts as published |
| Applications.ApplicationSwap.Restore | native/src/install.rs:612-639 | after a successful restore the original is under its public name |
| Applications.ApplicationSwap.Drop | native/src/install.rs:645-652 | dropping an unfinished swap deletes at most the staged copy, and that unless the removal fails |
| Applications.FailedInstallation | native/src/install.rs:576-652 | publish, restore and drop in a row never delete the original or a foreign entry |
| Applications.LegacyApplication.Retire | native/src/install.rs:674-696 | moves only the classified application, to a free name, and says whether it did |
| Applications.LegacyApplication.Finish | native/src/install.rs:706-712 | deletes the backup if and only if it is the classified application, unchanged, and the removal does not fail |
| Lifecycle.LaunchHost.WaitForAbsence | native/src/lifecycle.rs:218-232 | success means the registration is gone, failure a refused poll or a timeout, after at least one and at most 150 polls |
| Lifecycle.LaunchHost.StopWith | native/src/lifecycle.rs:202-217 | the same for each answer to the bootout: only an accepted one makes a removal pending, and a denied one that takes effect leaves a stray |
| Lifecycle.LaunchHost.Stop | native/src/lifecycle.rs:202-217 | a stopped job is gone; a departing registration is among the pending removals, unless it was on its way out before or a denied bootout took the job down |
| Lifecycle.LaunchHost.Start | native/src/lifecycle.rs:58-92 | starting leaves the login setting as it was, fails only when a call was refused or the property list is missing, and leaves the job loaded, or kicked while on its way out |
| Lifecycle.LaunchHost.SetStartup | native/src/lifecycle.rs:99-160 | a login setting is applied and confirmed exactly when no call was refused and the property list exists; else it is undone, or reported as stuck after a second refusal |
| Install.Machine.RestoreJob | native/src/install.rs:938-985 | a job is loaded or stopped as recorded and its login setting restored, never bootstrapped on a departing registration; a registration that is on its way out and not pending is taken for the loaded job |
| Install.Machine.RollBack | native/src/install.rs:1118-1170 | reports success if and only if no rollback call was refused or timed out and every rename of the way forward was done; then login settings, three files and both applications are those of the snapshot, and so are the registrations if and only if none is on its way out |
| Install.Machine.Activate | native/src/install.rs:999-1172 | refused when the preparation failed, installed exactly when nothing failed, broken exactly when the rollback had a failure too or a rename was left undone unseen; otherwise everything is exactly as before if and only if no registration is left on its way out, and it is when no denied bootout took a job down; unless broken, nothing is left at the staged name but after a failed removal; files change only under the lock with all jobs down, and jobs start only without it and enabled |
| Install.Machine.DeniedStop | native/src/install.rs:949-966 | a denied bootout that took the worker down: the rollback reports success over a job that is on its way out, with no other call refused |
| Install.Sample | native/src/install.rs:1044-1052 | a machine on which that happens |
| DirectoryIo.Runtime.Update | native/src/directory_io.rs:422-450 | a check succeeds exactly in an unexpired, uncancelled scope before its deadline; progress moves the deadline, failure expires the scope |
| DirectoryIo.Runtime.Finish | native/src/directory_io.rs:459-497 | an entry goes with its last guard, or with its thread |
| DirectoryIo.Runtime.Sweep | native/src/directory_io.rs:201-226 | one pass of the watchdog interrupts exactly the due and the newly cancelled scopes |
| Deadlines.Always | native/src/directory_io.rs:168-240 | in every interleaving a live guard has its entry, an entry its living thread, no cancellation notice falls between check and wait, and no deadline is overslept |
| Deadlines.FromStart | native/src/directory_io.rs:168-240 | the same over every interleaving from the start of the process |
| Deadlines.Open | native/src/directory_io.rs:346-400 | entering a scope, nested or not, is the step of the machine, and its generation that of the entry |
| Deadlines.Watching | native/src/directory_io.rs:201-240 | a turn of the watchdog is the step of the machine, and it waits no longer than to the earliest due scope |
| Deadlines.ExpiryIsSticky | native/src/directory_io.rs:346-450 | once a scope expired or was cancelled, every check and progress report in it fails, whatever nests in between |
| Deadlines.CancellationReaches | native/src/directory_io.rs:346-450 | a scope that began under a token fails every check once that token was cancelled, over every interleaving |
| Deadlines.ScopeEnds | native/src/directory_io.rs:452-497 | a scope ends only with its last guard or its thread |
| Deadlines.SignalsReachRegistered | native/src/directory_io.rs:213-226 | the watchdog signals only registered, living threads |
| Deadlines.ExitClears | native/src/directory_io.rs:304-313 | a thread that ends leaves no entry, even with forgotten guards |
| Activity.BoundedFits | native/src/activity.rs:17-26 | display text stays within its bound and equals the text exactly when that fits |
| Activity.TruncationCollides | native/src/activity.rs:75-77 | truncated display texts cannot establish identity |
| Activity.State.TrimEvents | native/src/activity.rs:157-164 | drops the oldest rows exactly while a bound is exceeded, and ends because the byte count is exact |
| Activity.State.Report | native/src/activity.rs:67-128 | counts the first row of a known unresolved issue once more, else adds a row; all other rows stay, but for the oldest, which go while a bound is exceeded |
| Activity.State.RepeatsAlike | native/src/activity.rs:76-112 | what a report repeats: a whole, unresolved error or deferral that agrees in kind, phase, path, reason and error number, with one occurrence more |
| Activity.State.Resolve | native/src/activity.rs:129-156 | settles every unresolved row of the path and phase and nothing else |
| Activity.ResolvedSettled | native/src/activity.rs:142-154 | a resolution marks exactly the unresolved errors and deferrals of its whole path and phase, and leaves all other rows as they were |
| Activity.State.Envelope | native/src/activity_transport.rs:83-98 | the reply is the longest run of newest rows short enough, numbered without a gap after the dropped ones |
| Policies.AbsoluteIsClean | native/src/policy.rs:16-35 | the lexical absolute path has no empty, dot or dot-dot component |
| Policies.AbsoluteIsIdempotent | native/src/policy.rs:16-35 | normalizing the text of a normal path gives it back |
| Policies.Policy.MostSpecificIs | native/src/policy.rs:105-111 | the chosen root is above the path and none above it is longer |
| Policies.Policy.FindHiddenBoundary | native/src/policy.rs:128-144 | the loop finds the first hidden directory below the chosen root |
| Policies.Policy.Check | native/src/policy.rs:145-217 | the lexical branch with its loops decides exactly the acceptance predicate |
| Acceptance.AcceptedIff | native/src/policy.rs:145-217 | a path is accepted if and only if it lies outside the staging directories and the excluded trees, its names below a selected root are good, and the longest selected root above it leads to it past nothing hidden, skipped or excluded for that root |
| Acceptance.AcceptedDirectoryIff | native/src/policy.rs:130-134 | a directory is accepted if in addition it is not hidden itself or is that root |
| Acceptance.StagingIs | native/src/policy.rs:42-74 | the staging directories are those of Google Drive at a provider root of an account home |
| Policies.Policy.Closure | native/src/policy.rs:112-217 | every directory between an accepted directory and its most specific root is accepted under the same root |
| Policies.ConfigurationIsValid | native/src/index.rs:1639-1660 | what the job table assumes of its configuration follows from the policy |
| FilenameRepair.CheckKorean | native/src/filename_repair.rs:28-38 | the loop accepts exactly plain ASCII and Hangul with enough syllables |
| FilenameRepair.RepairSpan | native/src/filename_repair.rs:62-119 | the loop over both encodings repairs exactly when one reading is convincing and no other is lossless |
| RepairEvidence.RepairsIff | native/src/filename_repair.rs:62-119 | a span becomes a text if and only if it has four foreign characters, bytes behind it are evidence for that text by the stated counts, and no bytes behind it read losslessly as anything else |
| RepairEvidence.NamesLeftAlone | native/src/filename_repair.rs:6-9 | names of ASCII alone and names with unsafe characters stay as they are |
| FilenameRepair.RepairIsReversible | native/src/filename_repair.rs:72-119 | a repaired span is ASCII and Hangul, read losslessly from the span's bytes, which read losslessly in no other way |
| FilenameRepair.NameKeepsTheRest | native/src/filename_repair.rs:121-139 | each maximal single-byte span is kept or becomes ASCII and Hangul; all other characters keep value and order |
| FilenameRepair.RepairName | native/src/filename_repair.rs:121-139 | the loop over characters repairs exactly the maximal spans |
| FilenameRepair.RepairIsIdempotent | native/src/filename_repair.rs:121-139 | for every name a second pass changes nothing, from stated properties of normalization and of the codecs |
| FilenameRepair.NormalTargetIsFixed | native/src/filename_repair.rs:121-139 | for any normalization, a second pass changes nothing where the repaired text is normal already |

## Left out

- Crawl.BaselineComplete: assumes that `/` is no root, that bootstrap does not run during a recursive observation, that the reconciler keeps its promise, and that no commit deletes a re-created row while some baseline work it stood for does not stay due (`Crawl.SparesBaseline`); the first and the last are necessary (`TopDirectory.BootstrapKeepsIff`, `Recreation.OverflowDuringRootTurn`).
- Requests.RequestsSurvive: assumes the same of requests (`Crawl.SparesRequests`), also for shallow turns of recursive rows (`ShallowTurns.RequestIsLost`).
- Duty.BaselineKeptIff: baseline duty taken in the commit is stated request by request, each in the table it meets.
- Walk.QuietWalk: no root is `/`; starts from an empty table with the roots of one volume pending; observations take one turn and have no errors.
- Chunks.ChunkingRefinesReplacement: no other observation touches the store between the chunks, no nested root is missing, and the store has no entry for the root directory itself.
- Retention.Disk.Maintain: starts after the rotation of an over-long active journal; a raw segment and its compressed twin hold the same records.
- History.HistoryFile.Refresh: files are append-only between refreshes, and a file with unchanged metadata is unchanged.
- Install.Machine.Activate: the exact state is stated for jobs that run their property lists and are not on their way out when it begins, all else also for others; no other program touches the applications; menu processes, backup files and the index of the rolled-back version are steps that only succeed or fail.
- Applications.ApplicationSwap.Restore: an entry is identified by device and inode, which are not reused.
- Retry.RetryState.Save: no other process writes the retry file, and a failed write changes nothing.
- Deadlines.Always: signal masks, draining of pending signals and the reservation of the signal are left out.
- Policies.Policy.Closure: the branches that look at the file system are left out.
- Policies.ConfigurationIsValid: one root per volume, and scopes spelled below their root as the root is.
- FilenameRepair.RepairIsIdempotent: relies on properties of Normalization Form C that are stated, not derived (`FilenameRepair.Normalizes`, which `FilenameRepair.IdentityNormalizes` shows consistent), and on decoded text ending in ASCII only where the bytes do (`FilenameRepair.AsciiEnds`).
- FilenameRepair.RepairSpan: normalization and the UTF-8, windows-1252 and EUC-KR codecs are arbitrary functions.
- SQLite itself, gzip, fsync, file locks, sockets, FSEvents and CoreFoundation: only the abstract step each one makes is modelled.
- `configure_sources`, `reconcile_hidden_directories`, volume invalidation and revalidation of roots: they change the configuration, which is static here.
- The normalizer itself: it is an oracle with the promise stated above. A listing that it ends early after a failed rename while it reports completeness does not meet that promise.
- Restore requests and their mailbox, the keep-set filters of `retention.rs` and `restore_hold.rs`, status reports, coverage discovery, bundle hashing, the command line, the menu and the Python package.
