# alfaEdge Pulse, modelled in Dafny

alfaEdge Pulse is a monitoring app. Under its I/O sits a set of small stateful protocols whose
promises are about whole runs: a log sync that must lose nothing, a poll loop that must never run
twice, alerts that must match what was measured, calendars, merges and counters. This project models
those protocols and proves their promises for every input and every run.

| file | models |
|---|---|
| `bifrost_sync.dfy` | the checkpointed sync of Bifrost's request log |
| `poll_jobs.dfy` | the two-id loop hand-off and its watchdog |
| `alert_log.dfy` | the alert log and the shared edge trigger |
| `severity.dfy` | confirmed Warning/Critical severity of guests and datastores |
| `maintenance.dfy` | scheduled downtime windows |
| `uptime_consensus.dfy` | the cross-instance vote on Site Down |
| `instance_convergence.dfy` | import and catch-up between Uptime Kuma instances |
| `site_discovery.dfy`, `site_table.dfy` | the three-source merge, and the table update that survives outages |
| `backup_log.dfy` | the bulk backup log parser and its time correction |
| `disk_forecast.dfy` | the least-squares disk forecast |
| `host_ingest.dfy` | cumulative counters turned into OOM kills and disk I/O rows |
| `recurring_errors.dfy` | the recurring-error ledger and its three writers |
| `wrappers.dfy` | the shared `Option` type |

`dafny verify dfyconfig.toml` checks everything.

Code that works by changing things is modelled by classes and methods with loops; each is proved equal
to a specification (a function or a relation between old and new state), and the theorems are about
whole runs of that specification. The outside is a parameter: what a page of the remote log answers,
when a worker dies, what a source returned.

Assumptions taken from the source's own documentation:

- Bifrost: rows are never removed and keep their place in timestamp order, `total_count` is truthful,
  cycles do not overlap (one deduplicated job). Statuses are reduced to processing and final.
- Jobs: the queue refuses an id that is queued or started, kills a job at its timeout, and a tick is one
  step. All three loops use the same constants, 300 s, 420 s and 600 s.
- `confirmation_checks` and `alert_window_checks` are at least 1: the settings refuse negative values
  and 0 means the default.
- Windows satisfy what saving them checks, and times of day lie within one day.
- Kuma never reuses a monitor id, and nothing outside the passes changes sites or monitors.
- Check logs, metric rows and I/O rows are stored in time order; a device appears once in a report.

Where code and documentation disagree the model follows the code:

- `_reconcile_site_criticality` says every sibling is kept in sync; a sibling added during an incident is
  not (`NewSiblingStaysOut`, with the exact condition in `SiblingsAgreeAfter`).
- `last_window_end` says "the latest end of a window"; a one-time window that ended more than eight days
  ago is not seen (`OldOneTimeEndIsMissed`, exact condition in `SearchBoundIsExact`).
- `_pull_and_upsert` says the caller must not advance past the last row seen; that row need not be the
  latest when old rows appear during the pull (`LastRowCanGoBack`, exact condition in `PageGoesBackIff`).
- The sync's "first window" is that of the first cycle to finish, not of the first cycle
  (`FailedFirstCycleMovesTheOrigin`, `NothingBeforeTheOrigin`).
- A recurring error "recovers" though it still breaches when more than 500 errors do
  (`OneGroupTooMany`, exact condition in `FalseRecoveryIff`).
- `_handle_transition` self-heals when log rows are lost, not when the guest's own record is
  (`ForgettingTheDocument`, exact conditions in `LedgerStaysSound` and `EvaluationHealsIff`).

## Model

| member | source | states |
|---|---|---|
| `BifrostSync.RunIsComplete` | alfaedge_pulse/tasks/bifrost_sync.py:139-220 | Whole-run completeness: after any sequence of drained, page-capped and failed cycles over a log whose rows appear within 5 minutes of their timestamp, every row from the first window start up to `last_synced_through` minus 5 minutes is in the table, unless its own upsert raised. |
| `BifrostSync.RunCovers` | alfaedge_pulse/tasks/bifrost_sync.py:139-172 | The same from any store whose table already reaches its checkpoint: the induction over cycles. |
| `BifrostSync.CycleCovers` | alfaedge_pulse/tasks/bifrost_sync.py:145-172 | One cycle, whatever its two pulls meet, moves the checkpoint only as far as the table has no hole. |
| `BifrostSync.FailedFirstCycleMovesTheOrigin` | alfaedge_pulse/tasks/bifrost_sync.py:146-150 | Concrete run: while no cycle has finished, each new one backfills from its own start, so a row just inside the first (failed) cycle's window is never fetched; the window start that counts is that of the first cycle that finishes. |
| `BifrostSync.NothingBeforeTheOrigin` | alfaedge_pulse/tasks/bifrost_sync.py:139-220 | The other half, for all runs: when the cycles before the first to finish stored nothing and no pull from that one on hits the page cap, no row before its window start (its start less the backfill days, 30 if not set, less 5 minutes) is ever stored, not by the reconcile pulls either. |
| `BifrostSync.CheckpointMovesBackIff` | alfaedge_pulse/tasks/bifrost_sync.py:156-156 | Exactly when a cycle moves a stored checkpoint back: it finishes capped with its last stored row older than the checkpoint (or drained from a start before it); capped, by at most the 5-minute overlap. |
| `BifrostSync.DrainedCycleAdvances` | alfaedge_pulse/tasks/bifrost_sync.py:156-156 | After any earlier cycles no checkpoint is ahead of them, so a cycle that drains moves it to its own start, never back. |
| `BifrostSync.CheckpointMeans` | alfaedge_pulse/tasks/bifrost_sync.py:152-157 | Where every cycle leaves the checkpoint: unmoved if it does not finish, at its start if it drained, else at the timestamp of the last row its own pull stored, or where it was if it stored none. |
| `BifrostSync.CappedCheckpointIsLatest` | alfaedge_pulse/tasks/bifrost_sync.py:175-220 | While no row appears in its window, that last row is the latest the pull stored. |
| `BifrostSync.PageGoesBackIff` | alfaedge_pulse/tasks/bifrost_sync.py:183-217 | In a log that grows meanwhile the last row of the next page lies before the row read last iff more rows appeared before that one than the page holds. |
| `BifrostSync.LastRowCanGoBack` | alfaedge_pulse/tasks/bifrost_sync.py:183-217 | Concrete pages: 1000 old rows appear between two pages, and the last row stored is older than the first. |
| `BifrostSync.CappedCycleRises` | alfaedge_pulse/tasks/bifrost_sync.py:156-156 | On a log that has stopped growing, a finishing capped cycle moves the checkpoint strictly up, to the timestamp of a row, if a full pull spans more than the overlap. |
| `BifrostSync.SyncCatchesUp` | alfaedge_pulse/tasks/bifrost_sync.py:139-220 | Whole-run progress: of any more such cycles than there are seconds between the checkpoint and the last row, one drains its window. |
| `BifrostSync.PullCounts` | alfaedge_pulse/tasks/bifrost_sync.py:183-220 | The count a pull returns is the number of rows it stored, page by page without those whose upsert raised, and its last row is the last of them. |
| `BifrostSync.PullSkipsNothing` | alfaedge_pulse/tasks/bifrost_sync.py:175-220 | Offset paging over a log that grows anywhere in timestamp order: a drained pull has read every row visible when it began; a page-capped one every such row not after the last row it stored. |
| `BifrostSync.PageKeepsInvariant` | alfaedge_pulse/tasks/bifrost_sync.py:186-218 | The page loop's invariant: a row visible at the start and not handled yet still lies at or past the offset, since insertions only push rows up. |
| `BifrostSync.PullReachesSafePoint` | alfaedge_pulse/tasks/bifrost_sync.py:156-157 | Up to 5 minutes before the point the cycle may checkpoint at (start if drained, else the last stored row, else the old checkpoint), the pull has handled every row of its window. |
| `BifrostSync.FinalStaysFinal` | alfaedge_pulse/tasks/bifrost_sync.py:223-267 | Over any run of cycles that do not overlap, no stored row goes back from final to processing, none is lost and none changes its timestamp. |
| `BifrostSync.CycleAdvances` | alfaedge_pulse/tasks/bifrost_sync.py:152-157 | One cycle keeps every stored entry an exact earlier reading of its remote row, and every entry it changes was read in that cycle. |
| `BifrostSync.OpenRowsWereReread` | alfaedge_pulse/tasks/bifrost_sync.py:223-242 | After a cycle whose reconcile pull drained, every stored row still processing and aged between 2 minutes and 48 hours, unless its own upsert raised, was read in that cycle, and its remote row was still processing then. |
| `BifrostSync.ReconcileRereads` | alfaedge_pulse/tasks/bifrost_sync.py:223-242 | A drained reconcile pull has read, since it began, every stored row that it leaves open. |
| `BifrostSync.UsageLogSync.constructor` | alfaedge_pulse/tasks/bifrost_sync.py:145-149 | A store that has never synced: empty table, no checkpoint. |
| `BifrostSync.UsageLogSync.UpsertLog` | alfaedge_pulse/tasks/bifrost_sync.py:245-267 | Insert or overwrite under the row's id, so a row read twice is stored once. |
| `BifrostSync.UsageLogSync.PullAndUpsert` | alfaedge_pulse/tasks/bifrost_sync.py:175-220 | The page loop (offset, last seen, 500-page cap, per-row failures, API error) leaves exactly the table and returns exactly the triple of the pull the lemmas above are about. |
| `BifrostSync.UsageLogSync.FindOldestOpen` | alfaedge_pulse/tasks/bifrost_sync.py:227-239 | The least timestamp of the stored rows still open, None iff none is. |
| `BifrostSync.UsageLogSync.ReconcileOpenProcessing` | alfaedge_pulse/tasks/bifrost_sync.py:223-242 | The re-pull from the oldest open row, skipped when there is none. |
| `BifrostSync.UsageLogSync.RunSync` | alfaedge_pulse/tasks/bifrost_sync.py:139-172 | One cycle of the state machine the whole-run lemmas quantify over: an API error keeps the checkpoint, and the pages already committed stay; it reports success iff neither pull met one. |
| `PollJobs.AtMostOneLoop` | alfaedge_pulse/tasks/jobs.py:88-128 | In every state reachable by ticks, hand-offs, stops, timeouts, killed workers and swept records, at most one of the two job ids is queued or still polling. |
| `PollJobs.StepKeepsInv` | alfaedge_pulse/tasks/jobs.py:53-128 | Every single step keeps the inductive invariant behind it: every run owns the started record of its id, has not outlived its timeout, and a live loop began a whole loop bound after any other run. |
| `PollJobs.HandOffIsAlone` | alfaedge_pulse/tasks/poller.py:152-163 | When a run reaches its 300 s bound no other run is left: the one before it has hit its 420 s timeout. |
| `PollJobs.NoTickDeletesALiveLoop` | alfaedge_pulse/tasks/jobs.py:53-110 | At any point of any run, a watchdog tick leaves the record of every job still executing untouched. |
| `PollJobs.HandOffYieldsOnlyToLeftovers` | alfaedge_pulse/tasks/jobs.py:113-128 | A hand-off queues the successor unless a leftover started record holds its id; it never collides with a live job. |
| `PollJobs.TickRestartsDeadLoop` | alfaedge_pulse/tasks/jobs.py:96-110 | With no heartbeat and only over-age records a tick leaves exactly one fresh queued loop. |
| `PollJobs.TickMeans` | alfaedge_pulse/tasks/jobs.py:96-110 | What a tick leaves for any records: everything with a heartbeat; without it exactly the records younger than the stale age, unchanged, and a fresh loop iff there is none. |
| `PollJobs.WatchdogRecovers` | alfaedge_pulse/tasks/jobs.py:96-110 | Recovery in bounded time: from any reachable state with no worker left, through any interleaving of watchdog ticks, sweeps and passing time in which no worker takes a job, once 600 s and the heartbeat have passed the next tick leaves the loop queued. |
| `PollJobs.JobQueue.ClearStaleJob` | alfaedge_pulse/tasks/jobs.py:53-85 | Deletes the record iff it is at least 600 s since its start, or since its enqueueing if it never started; reports exactly that and changes no other record. |
| `PollJobs.JobQueue.StartLoopIfNeeded` | alfaedge_pulse/tasks/jobs.py:96-110 | Reports a start iff there was no heartbeat and every record was over age, and then leaves one fresh queued loop; else every younger record is as it was, and all are with a heartbeat. |
| `PollJobs.JobQueue.HandOffLoop` | alfaedge_pulse/tasks/jobs.py:113-128 | The id that is not the run's own is queued if it had no record; all records there were stay as they are. |
| `AlertLog.LedgerStaysSound` | alfaedge_pulse/tasks/poller.py:1269-1306 | Over any interleaving of evaluations with rows deleted or resolved from outside and documents deleted, the ledger is sound at every moment (at most one open alert per document and type, an open alert implies the stored flag) iff no document is deleted while it has an open alert. |
| `AlertLog.EvaluationHeals` | alfaedge_pulse/tasks/poller.py:1299-1306 | After any such run the next evaluation leaves an alert open iff the condition holds. |
| `AlertLog.EvaluationHealsIff` | alfaedge_pulse/tasks/poller.py:1299-1306 | The exact condition in any state of log and flag: healed iff the flag is stored (and, if the condition holds, at most one alert is open) or no alert is open. |
| `AlertLog.EventKeepsSoundIff` | alfaedge_pulse/tasks/poller.py:499-506 | One event keeps the ledger sound iff it does not delete a document with an open alert of any type. |
| `AlertLog.TransitionCounts` | alfaedge_pulse/tasks/poller.py:1269-1306 | What one transition adds to alerts, recoveries and open alerts of its own key, and that it adds nothing to any other. |
| `AlertLog.OutsideEditsOnlyClose` | alfaedge_pulse/tasks/poller.py:261-280 | Deleting or closing rows, one by one or for a disabled server, never opens an alert of any key. |
| `AlertLog.ForgettingTheDocument` | alfaedge_pulse/tasks/poller.py:499-506 | Where self-healing fails: a guest deleted with an open alert has two when it comes back critical, and keeps the old one when it comes back healthy. |
| `AlertLog.Ledger.constructor` | alfaedge_pulse/alerts/dispatch.py:105-116 | An empty log. |
| `AlertLog.Ledger.DispatchAlert` | alfaedge_pulse/alerts/dispatch.py:105-116 | One more open alert under the key, nothing else changed. |
| `AlertLog.Ledger.DispatchRecovery` | alfaedge_pulse/alerts/dispatch.py:155-166 | One more row, resolved from the start, nothing else changed. |
| `AlertLog.Ledger.HasOpenAlert` | alfaedge_pulse/alerts/dispatch.py:190-211 | True iff some row of the key is unresolved. |
| `AlertLog.Ledger.ResolveAlert` | alfaedge_pulse/alerts/dispatch.py:214-237 | Resolves exactly the open rows of that key, of no other type or document. |
| `AlertLog.ClosedCounts` | alfaedge_pulse/alerts/dispatch.py:214-237 | Resolving leaves no open alert of its key, and all other counts, of every key, as they were. |
| `AlertLog.Ledger.ResolveDisabled` | alfaedge_pulse/tasks/poller.py:261-280 | Resolves exactly the rows about servers, guests and datastores with the given names. |
| `AlertLog.ClosedForCounts` | alfaedge_pulse/tasks/poller.py:261-280 | Afterwards none of those documents has an open alert of any type, and every other key keeps its open count. |
| `AlertLog.DisabledResolves` | alfaedge_pulse/tasks/poller.py:274-280 | Row by row: resolved afterwards iff it was before or is about a Proxmox Server, Guest or Datastore of a given name; nothing else of it changes. |
| `AlertLog.Ledger.HandleTransition` | alfaedge_pulse/tasks/poller.py:1269-1306 | The edge trigger with its repair, in the branch order of the source, as the transition the lemmas above count. |
| `Severity.AlertsAreConfirmedRuns` | alfaedge_pulse/tasks/poller.py:527-582 | Over any reading history, with any other documents writing to the same log between the readings: Critical Resource alerts recorded equal the number of maximal runs at or above the critical line that reach `confirmation_checks`; recoveries equal the number of those runs that have ended. |
| `Severity.WarningsAreOnsets` | alfaedge_pulse/tasks/poller.py:527-582 | Resource Warning alerts equal the number of times "warning confirmed and critical not" begins, and no recovery is ever logged for them. |
| `Severity.FlagsAreConfirmed` | alfaedge_pulse/tasks/poller.py:1228-1266 | The incremental flags mean: critical iff the last `confirmation_checks` readings are all at or above critical; warning iff so for the warning line and not for critical. |
| `Severity.StreaksAreTrailingRuns` | alfaedge_pulse/tasks/poller.py:1253-1261 | Each stored streak is the exact length of the trailing run of readings at or above its line. |
| `Severity.RunCounts` | alfaedge_pulse/tasks/poller.py:1253-1266 | How one more reading changes the numbers of confirmed and of ended runs of a history. |
| `Severity.HistoryInStep` | alfaedge_pulse/tasks/poller.py:639-664 | While nobody else touches this document's alerts, one of each tier is open exactly while its flag is set. |
| `Severity.Reading` | alfaedge_pulse/tasks/poller.py:535-537 | A guest is judged by its worst metric: an upper bound of all that are present, and one of them. |
| `Severity.Resource.constructor` | alfaedge_pulse/tasks/poller.py:517-525 | A new record: no streaks, no flags. |
| `Severity.Resource.TrackSeverity` | alfaedge_pulse/tasks/poller.py:1228-1266 | Updates both streaks in place and returns the two exclusive flags of the specification. |
| `Severity.Resource.Upsert` | alfaedge_pulse/tasks/poller.py:639-664 | One reading: flags stored, then both tiers put through the edge trigger with the flags from before. |
| `Maintenance.NextWindow` | alfaedge_pulse/uptime_monitor/maintenance.py:108-117 | Despite the 8-day search: the least occurrence starting after the instant in the whole unbounded calendar, None iff there is none. |
| `Maintenance.LastWindowEnd` | alfaedge_pulse/uptime_monitor/maintenance.py:97-105 | The latest end within eight days; the latest end of the whole calendar whenever any repeating window exists. |
| `Maintenance.SearchBoundIsExact` | alfaedge_pulse/uptime_monitor/maintenance.py:97-105 | The eight-day answer is the true latest end iff some window repeats, or some one-time window ended within the eight days, or every one-time window with both times set ends later. |
| `Maintenance.OldOneTimeEndIsMissed` | alfaedge_pulse/uptime_monitor/maintenance.py:97-105 | Concrete input for the other case: a one-time window ended nine days ago. |
| `Maintenance.Occurrences` | alfaedge_pulse/uptime_monitor/maintenance.py:55-84 | Lists, once each and in order, exactly the calendar occurrences overlapping the range, past-midnight and 24-hour ones included. |
| `Maintenance.OccursMeans` | alfaedge_pulse/uptime_monitor/maintenance.py:55-84 | The calendar on the window fields: one-time once; daily from one time of day to the other, at most a day later; weekly likewise, starting on its weekdays, or those days whole; never with a time or all weekdays missing. |
| `Maintenance.ActiveWindow` | alfaedge_pulse/uptime_monitor/maintenance.py:87-94 | The first window covering the instant; None iff no occurrence of any window covers it. |
| `Maintenance.StartsWithinAWeek` | alfaedge_pulse/uptime_monitor/maintenance.py:39-41 | A repeating window has an occurrence starting in the seven days after any instant. |
| `Maintenance.EndedWithinAWeek` | alfaedge_pulse/uptime_monitor/maintenance.py:39-41 | And one that ended in the seven days before. |
| `Maintenance.HorizonSuffices` | alfaedge_pulse/uptime_monitor/maintenance.py:112-116 | Within the horizon of the search a window has an occurrence after the instant at or before any other such occurrence. |
| `Maintenance.DayInRange` | alfaedge_pulse/uptime_monitor/maintenance.py:73-82 | An overlapping occurrence starts on a day the loop visits: no earlier than the day before the range. |
| `Maintenance.WeekdayOf` | alfaedge_pulse/uptime_monitor/maintenance.py:33-33 | Days are numbered from a Monday. |
| `UptimeConsensus.RaisedOnlyOnEvidence` | alfaedge_pulse/tasks/uptime_kuma_poller.py:377-412 | A Site Down alert is recorded only outside every window, only when some instance votes, and only if every voter has a full window of checks, more than half Down, none in maintenance, all taken after every window end of the last eight days; afterwards the site is flagged, on all siblings unless they disagreed in an incident. |
| `UptimeConsensus.RaisedAndRecoveredIff` | alfaedge_pulse/tasks/uptime_kuma_poller.py:377-412 | Exactly when a step adds an alert and when a recovery, on the log itself: outside every window, down everywhere means some active sibling has n counted checks after the last window end and each that has them has more than half of its newest n Down; an alert iff so and not flagged (or the alert was lost), a recovery iff flagged and not so. |
| `UptimeConsensus.EvidenceAfterAllEnds` | alfaedge_pulse/tasks/uptime_kuma_poller.py:383-383 | With a repeating window those checks are younger than every window end there ever was. |
| `UptimeConsensus.SiblingsAgreeAfter` | alfaedge_pulse/tasks/uptime_kuma_poller.py:396-402 | Exactly when siblings agree after a step: they agreed before, or the step was outside every window and its verdict differs from the first sibling's flag. |
| `UptimeConsensus.AlertsAlternate` | alfaedge_pulse/tasks/uptime_kuma_poller.py:377-412 | Over any run of steps with a fixed sibling group, with other sites and monitors writing to the same log in between: flags agree, one alert is open while they are set and none otherwise, and every alert but the open one has its recovery. |
| `UptimeConsensus.IncidentFreezesFlags` | alfaedge_pulse/tasks/uptime_kuma_poller.py:377-402 | During an incident with an open alert, or while a window covers it, a step writes no flag and no alert, whatever the windows. |
| `UptimeConsensus.NewSiblingStaysOut` | alfaedge_pulse/tasks/uptime_kuma_poller.py:399-402 | Against "kept in sync": a sibling added during an incident keeps its own flag while it has no vote. |
| `UptimeConsensus.NewestAreNewest` | alfaedge_pulse/tasks/uptime_kuma_poller.py:343-349 | A verdict rests on the newest counted checks: nothing left out is newer than anything taken. |
| `UptimeConsensus.TallyDecides` | alfaedge_pulse/tasks/uptime_kuma_poller.py:384-397 | Equal, non-zero totals mean: somebody votes and nobody votes against. |
| `UptimeConsensus.UptimeStore.RecordSiteCheck` | alfaedge_pulse/tasks/uptime_kuma_poller.py:297-330 | One check per Up or Down reading, none for other readings; the label of each status code, Maintenance inside a window; the log stays in time order. |
| `UptimeConsensus.UptimeStore.QueryChecks` | alfaedge_pulse/tasks/uptime_kuma_poller.py:340-349 | The newest checks outside maintenance and after the last window end. |
| `UptimeConsensus.UptimeStore.InstanceVerdict` | alfaedge_pulse/tasks/uptime_kuma_poller.py:333-353 | None without a full window of checks, else whether more than half are Down. |
| `UptimeConsensus.BallotMeans` | alfaedge_pulse/tasks/uptime_kuma_poller.py:333-353 | A sibling votes iff it is active and the log has n counted checks of it, and votes Down iff more than half of those with fewer than n after them are. |
| `UptimeConsensus.UptimeStore.Tally` | alfaedge_pulse/tasks/uptime_kuma_poller.py:384-397 | Critical iff at least one active instance votes and all that vote say Down. |
| `UptimeConsensus.UptimeStore.SetFlags` | alfaedge_pulse/tasks/uptime_kuma_poller.py:399-402 | Every sibling gets the flag, no other site changes. |
| `UptimeConsensus.UptimeStore.ReconcileSite` | alfaedge_pulse/tasks/uptime_kuma_poller.py:377-412 | One step for one site is the step the lemmas above speak of; checks are only read. |
| `InstanceConvergence.Fleet.Converge` | alfaedge_pulse/uptime_monitor/api.py:239-312 | After any number of passes in which instances did not answer or creations failed at any step, two error-free passes leave every enabled instance with the same site names and every supported monitor, orphaned ones included, with a row, no row twice; a third pass creates nothing. |
| `InstanceConvergence.ThreePasses` | alfaedge_pulse/uptime_monitor/api.py:239-312 | For any three passes in a row: the first imports everything, the second makes the names equal without adding any, the third changes nothing. |
| `InstanceConvergence.ExactlyOneRow` | alfaedge_pulse/uptime_monitor/api.py:198-200 | Each supported monitor of an imported instance then has exactly one local row. |
| `InstanceConvergence.TurnComposes` | alfaedge_pulse/tasks/uptime_kuma_poller.py:253-255 | An import followed by a catch-up: the instance then has the names of all enabled ones, the others keep theirs, no import is lost, and nothing happens if there was nothing to do. |
| `InstanceConvergence.PassOneMore` | alfaedge_pulse/tasks/uptime_kuma_poller.py:226-229 | The pass invariant is kept by each instance's turn. |
| `InstanceConvergence.Fleet.AutoImport` | alfaedge_pulse/uptime_monitor/api.py:182-219 | One row for every supported monitor of the instance that had none, each a copy of its monitor; nothing at all if none was missing. |
| `InstanceConvergence.Fleet.ImportOne` | alfaedge_pulse/uptime_monitor/api.py:186-217 | A row for one monitor, if it is supported and has none; nothing otherwise. |
| `InstanceConvergence.Fleet.CreateSite` | alfaedge_pulse/uptime_monitor/api.py:50-98 | A monitor with a fresh id and its row, both with the template's definition; nothing when the monitor cannot be added; the monitor taken back, or left as an orphan, when the row cannot be saved. |
| `InstanceConvergence.Fleet.Templates` | alfaedge_pulse/uptime_monitor/api.py:278-286 | Exactly one template per name of the other enabled instances: the oldest row. |
| `InstanceConvergence.Fleet.CatchUp` | alfaedge_pulse/uptime_monitor/api.py:256-312 | The instance gains exactly the missing names but those whose creation failed, each copied from the oldest row of that name; nothing if none is missing. |
| `InstanceConvergence.Fleet.CopyTemplate` | alfaedge_pulse/uptime_monitor/api.py:288-310 | One missing site from its template: one more name with its monitor and row, or one more error and no row. |
| `InstanceConvergence.Fleet.Pass` | alfaedge_pulse/tasks/uptime_kuma_poller.py:226-229 | One pass over the enabled instances; when nothing failed in it, it is the pass of the lemmas above, and otherwise it still keeps every row. |
| `InstanceConvergence.Fleet.Visit` | alfaedge_pulse/tasks/uptime_kuma_poller.py:246-255 | One instance's turn: import, then catch up; nothing if it does not answer. |
| `InstanceConvergence.Fleet.Exists` | alfaedge_pulse/uptime_monitor/api.py:198-198 | Whether the table has a row for that instance and monitor id. |
| `SiteDiscovery.OrderDoesNotMatter` | alfaedge_pulse/site_discovery/sync.py:307-425 | Any permutation of the NPM list gives every domain the same row: status, owner, server, forward target and guest. |
| `SiteDiscovery.Resolve` | alfaedge_pulse/site_discovery/sync.py:307-425 | The loops over NPMs, proxy hosts, DNS names and agent reports compute the merge that is defined on the set of NPMs, hence independent of their order. |
| `SiteDiscovery.OwnerIffOneMatch` | alfaedge_pulse/site_discovery/sync.py:342-353 | A domain several NPMs list has an owner iff exactly one of them has its Cloudflare target among its public IPs; that one is the owner and gives server and forward target. |
| `SiteDiscovery.ListedStatus` | alfaedge_pulse/site_discovery/sync.py:327-415 | The exact status of every listed domain on the inputs: ambiguous iff several list it and not one of them has its target; not in Cloudflare iff one lists it and nothing answers; mismatch iff one lists it and the answered target is not among its known IPs; else active iff its forward host is a guest's or an agent reported it, and unmatched if not. |
| `SiteDiscovery.UnlistedRow` | alfaedge_pulse/site_discovery/sync.py:385-425 | A domain no NPM lists has a row iff an address record of that very name points at a guest's public address, or else an agent reported it; and all fields of that row. |
| `SiteDiscovery.AgentsOnKnownRow` | alfaedge_pulse/site_discovery/sync.py:406-415 | What all reports together do to a row of another source: note it as seen, and give an unmatched one the guest of the first report. |
| `SiteDiscovery.ResolvedRowsAreSane` | alfaedge_pulse/site_discovery/sync.py:327-425 | What a status means in every resulting row: active has a guest, unmatched has none, an owned active or unmatched row belongs to an NPM that lists the domain and, where known, has its target IP, ambiguous has no owner, not-in-Cloudflare has no answering record. |
| `SiteDiscovery.AgentKeepsOwner` | alfaedge_pulse/site_discovery/sync.py:406-415 | No sequence of agent reports changes owner, server or forward target of a known domain. |
| `SiteDiscovery.LookupEndsTheChain` | alfaedge_pulse/site_discovery/sync.py:242-262 | The lookup ends, CNAME loops or not, at the first address within five hops, else at the name where the chain leaves Cloudflare, else at the name after the last hop; found and proxied come from the first name. |
| `SiteDiscovery.AnswerMeans` | alfaedge_pulse/site_discovery/sync.py:250-253 | A name's own records answer it, else the nearest wildcard with records, else nothing. |
| `SiteDiscovery.FirstAddressMeans` | alfaedge_pulse/site_discovery/sync.py:258-260 | The address is that of the first A or AAAA record, none iff there is only CNAME. |
| `SiteDiscovery.AnyProxiedMeans` | alfaedge_pulse/site_discovery/sync.py:256-257 | Proxied iff some record of the first name is. |
| `SiteDiscovery.NearestWildcardAnswers` | alfaedge_pulse/site_discovery/sync.py:265-275 | The nearest wildcard above a name that has records answers; names without any are passed over. |
| `SiteDiscovery.CfLookup` | alfaedge_pulse/site_discovery/sync.py:242-262 | The hop loop returns what following the chain gives. |
| `SiteDiscovery.GuestForFinds` | alfaedge_pulse/site_discovery/sync.py:289-304 | A guest is found iff one has the address or, for a host name, one has the name; addresses win over names, and within either a guest on the proxy's own server wins whenever there is one. |
| `SiteDiscovery.EnterNpm` | alfaedge_pulse/site_discovery/sync.py:318-325 | One candidate per domain and NPM: the first proxy host that names the domain. |
| `SiteDiscovery.CollectCandidates` | alfaedge_pulse/site_discovery/sync.py:317-325 | The candidates of a domain are exactly the reachable NPMs that list it. |
| `SiteDiscovery.Choose` | alfaedge_pulse/site_discovery/sync.py:329-349 | The owner by count of candidates and of target matches equals the owner defined on sets. |
| `SiteDiscovery.ResolveProxies` | alfaedge_pulse/site_discovery/sync.py:327-383 | One row per listed domain, each the row of that domain alone. |
| `SiteDiscovery.ResolveProxy` | alfaedge_pulse/site_discovery/sync.py:327-383 | The row of one domain from its candidates. |
| `SiteDiscovery.AddDirect` | alfaedge_pulse/site_discovery/sync.py:385-403 | Adds exactly the non-wildcard names, not covered yet, with an address record at a guest's public IP; covered ones keep their row. |
| `SiteTable.OutageKeepsRows` | alfaedge_pulse/site_discovery/sync.py:440-463 | Over any sequence of syncs in each of which Cloudflare or the row's own NPM failed, the row keeps every field but `last_seen` and is never deleted. |
| `SiteTable.BlindSyncKeepsRow` | alfaedge_pulse/site_discovery/sync.py:442-463 | One sync that could not read Cloudflare changes or deletes no existing row; one that could not read an NPM none that it owns. |
| `SiteTable.UnprotectedRowsFollow` | alfaedge_pulse/site_discovery/sync.py:443-463 | A row with no outage of Cloudflare or its own NPM ends up as in a full sync, rewritten or deleted; a new domain is always added. |
| `SiteTable.ProtectedRowsStay` | alfaedge_pulse/site_discovery/sync.py:443-463 | Every other row keeps its fields, and is marked as seen iff the merge has its domain. |
| `SiteTable.FullSyncIsExact` | alfaedge_pulse/site_discovery/sync.py:439-463 | A fully successful sync leaves exactly the merged rows, whatever the table held before. |
| `SiteTable.RepeatedSyncChangesOnlyLastSeen` | alfaedge_pulse/site_discovery/sync.py:439-463 | Repeating it changes only `last_seen`. |
| `SiteTable.SiteStore.RunSync` | alfaedge_pulse/site_discovery/sync.py:433-463 | The update is the table step of the lemmas above: per domain, what is written, kept or deleted; the count returned is that of the rows gone. |
| `SiteTable.SiteStore.Upsert` | alfaedge_pulse/site_discovery/sync.py:443-455 | Every found domain is written or, when protected, only seen again; all other rows are untouched. |
| `SiteTable.SiteStore.DeleteGone` | alfaedge_pulse/site_discovery/sync.py:457-463 | Deletes exactly the rows neither found nor owned by a failed NPM, and counts them. |
| `BackupLog.ParseRendered` | alfaedge_pulse/tasks/poller.py:862-919 | Round trip: parsing any rendered bulk job returns one result per closed guest section, in order, with status, size and end time, whatever noise is interleaved (except a time line straight after a finish line). |
| `BackupLog.ParseSection` | alfaedge_pulse/tasks/poller.py:882-917 | One section yields its result and leaves the rest to be parsed as if it stood alone. |
| `BackupLog.TimeZoneDoesNotMatter` | alfaedge_pulse/tasks/poller.py:834-859 | Shifting every printed time by any one offset leaves the results unchanged when the first "Backup started at" line is readable. |
| `BackupLog.TimeZoneMattersIff` | alfaedge_pulse/tasks/poller.py:834-919 | The exact condition: unchanged iff the shift is zero, or that line is readable, or no result takes its time from the log. |
| `BackupLog.TrueTimesComeBack` | alfaedge_pulse/tasks/poller.py:834-919 | End to end: a rendered job whose sections ended at given true times, printed by a host whose clock is any amount ahead, parses to exactly those times, with status and size, in order. |
| `BackupLog.OffsetIsClockLead` | alfaedge_pulse/tasks/poller.py:851-858 | With a readable first "Backup started at" line, start time plus offset is the time it prints. |
| `BackupLog.NoClockNoOffset` | alfaedge_pulse/tasks/poller.py:851-859 | Without one the offset is 0. |
| `BackupLog.ShiftedOffset` | alfaedge_pulse/tasks/poller.py:851-859 | The detected offset moves by exactly the shift, iff the clock line is readable. |
| `BackupLog.OffsetShows` | alfaedge_pulse/tasks/poller.py:904-915 | A different offset changes the results iff some closed section takes its printed end time. |
| `BackupLog.DetectOffset` | alfaedge_pulse/tasks/poller.py:834-859 | The search loop returns the offset the lemmas use, 0 when the first such line is unreadable or there is none. |
| `BackupLog.ParseBulkLog` | alfaedge_pulse/tasks/poller.py:862-919 | The line loop returns the results the lemmas use. |
| `DiskForecast.GrowthIsSeen` | alfaedge_pulse/host_health/api.py:217-249 | If usage never falls over time-ordered samples and ends higher than it began, at a later time, the trend is growing with a strictly positive slope and a forecast not in the past. |
| `DiskForecast.RisingTogether` | alfaedge_pulse/host_health/api.py:239-239 | Strict Chebyshev sum inequality: two rising series that both end above their start have a positive covariance about the mean. |
| `DiskForecast.GrowthIsLeastSquares` | alfaedge_pulse/host_health/api.py:225-239 | The reported growth is the slope of the least-squares line: no line has a smaller sum of squared residuals, and none of another slope as small a one. |
| `DiskForecast.ForecastMeans` | alfaedge_pulse/host_health/api.py:226-249 | Nothing below the minimum of samples; growing iff the growth is positive, then the days in which it fills what is left at the latest sample, 0 if it is full. |
| `DiskForecast.LineIsForecastExactly` | alfaedge_pulse/host_health/api.py:225-249 | On exactly linear data the slope is the line's, the trend is its sign, and the forecast is the very day the line reaches the total (0 if already full). |
| `DiskForecast.InsufficientIff` | alfaedge_pulse/host_health/api.py:225-237 | "Insufficient data" iff all samples were taken at one instant. |
| `DiskForecast.SpreadIsZeroIff` | alfaedge_pulse/host_health/api.py:235-236 | The fit's denominator is never negative, and zero iff all times are equal. |
| `DiskForecast.CentreIsFree` | alfaedge_pulse/host_health/api.py:239-239 | The numerator does not depend on where the second series is centred. |
| `HostIngest.NeverOvercounts` | alfaedge_pulse/host_health/ingest.py:886-943 | Over any samples, gaps and restarts the summed OOM kills, of the host and of its container alike, never exceed the real ones, and fall short iff some step did. |
| `HostIngest.ExactIffCountable` | alfaedge_pulse/host_health/ingest.py:886-943 | Without a restart the sum is exact iff every step that saw kills had a gap of 5 to 900 s and the counter reported at both ends. |
| `HostIngest.MissingCounterLosesKills` | alfaedge_pulse/host_health/ingest.py:827-833 | Concrete samples: gaps in range, no restart, one without the counter, and kills are lost. |
| `HostIngest.MemoryLog.StoreMemorySample` | alfaedge_pulse/host_health/ingest.py:886-943 | Appends one row with both kill counts, swap rates, their validity and the throttled share, all against the previous row as far as the gap allows. |
| `HostIngest.RatesValidIff` | alfaedge_pulse/host_health/ingest.py:935-939 | Swap rates are marked valid iff the gap is 5 to 900 s and neither swap counter is missing at either end or went backwards; then rate times gap is the counter's difference, never negative. |
| `HostIngest.ThrottledShare` | alfaedge_pulse/host_health/ingest.py:940-942 | The throttled share lies between 0 and 100, is 100 iff the whole gap was throttled, and below that gives the throttled time back. |
| `HostIngest.ThrottledIff` | alfaedge_pulse/host_health/ingest.py:940-942 | It is stored iff the gap is 5 to 900 s and the counter is there at both ends and did not go backwards. |
| `HostIngest.RatesMeanDeltas` | alfaedge_pulse/host_health/ingest.py:987-995 | The rates of a rated disk row, times its gap, are its counter differences; utilisation lies between 0 and 100 and is 100 iff the device was busy throughout. |
| `HostIngest.StoredDeltasTelescope` | alfaedge_pulse/host_health/ingest.py:946-1019 | After any polls, over any stretch of a disk's rated rows, the stored deltas of all eight counters add up to the counters' own difference, across idle and unkept polls. |
| `HostIngest.PollsKeepChains` | alfaedge_pulse/host_health/ingest.py:957-985 | Every rated row is rated against the last stored row of its device, within the gap limits. |
| `HostIngest.BusiestAreKept` | alfaedge_pulse/host_health/ingest.py:998-1003 | At most six rows; rated devices first, none dropped for a less busy one; unrated ones only when every rated one is kept, the busiest of them, and no room is left unused. |
| `HostIngest.SortSorts` | alfaedge_pulse/host_health/ingest.py:998-1002 | The ranking is descending and a permutation. |
| `HostIngest.SortIsStable` | alfaedge_pulse/host_health/ingest.py:998-1002 | Equally busy devices keep the order of the report. |
| `HostIngest.JudgedRow` | alfaedge_pulse/host_health/ingest.py:961-996 | What a device contributes: rates only against its latest row and only if something happened; its row carries the report's counters. |
| `HostIngest.JudgedIff` | alfaedge_pulse/host_health/ingest.py:961-996 | Exactly what becomes of a device: first seen iff its newest row cannot be compared (gap, a missing or reset counter) or there is none; rated iff it can and reads, writes or busy time moved; else skipped. |
| `HostIngest.JudgedAreListed` | alfaedge_pulse/host_health/ingest.py:961-996 | Every device so judged is in its list. |
| `HostIngest.Classify` | alfaedge_pulse/host_health/ingest.py:960-996 | Splits a report into rated and first-seen devices, dropping idle and nameless ones. |
| `HostIngest.IoLog.StoreIoSamples` | alfaedge_pulse/host_health/ingest.py:946-1019 | Appends exactly the chosen rows, counters and rates, and returns their number, at most six. |
| `HostIngest.IoLog.InsertRows` | alfaedge_pulse/host_health/ingest.py:1005-1018 | One row per chosen device, in order. |
| `RecurringErrors.AnyInterleavingKeepsInv` | alfaedge_pulse/tasks/log_monitor.py:88-137 | Across any interleaving of `run_check`, `resolve_error`, `set_error_ignored`, alerts of other monitors and outside edits of the log: ignored implies not critical, an open alert implies critical, at most one alert is open per error. |
| `RecurringErrors.AfterCheckAllThreeAgree` | alfaedge_pulse/tasks/log_monitor.py:88-137 | Right after a check, critical, open and found-breaching (after the 500-group limit) are one and the same set. |
| `RecurringErrors.CheckKeepsInv` | alfaedge_pulse/tasks/log_monitor.py:88-137 | One check keeps the invariant and makes the three sets equal. |
| `RecurringErrors.WritersKeepInv` | alfaedge_pulse/log_monitor/api.py:305-363 | So do the two manual writers. |
| `RecurringErrors.ResolvedErrorMustRepeat` | alfaedge_pulse/log_monitor/queries.py:186-197 | Once an error was marked resolved, through whatever happens after, a check that alerts it again has `threshold` occurrences later than the resolution, inside the window. |
| `RecurringErrors.IgnoredErrorStaysSilent` | alfaedge_pulse/log_monitor/api.py:338-363 | Once ignored, until un-ignored, an error is never critical and no alert is ever logged for it, through any checks and writes. |
| `RecurringErrors.FoundMeans` | alfaedge_pulse/tasks/log_monitor.py:67-88 | Below the group limit exactly the errors not ignored that occurred `threshold` times in the window, after their resolution if any, are found, with that count. |
| `RecurringErrors.CheckUpdatesRecord` | alfaedge_pulse/tasks/log_monitor.py:91-125 | A check stores the window's count and the largest ever seen, counts one alert iff one is logged, and leaves the ignored mark and the resolution alone. |
| `RecurringErrors.WritersMean` | alfaedge_pulse/log_monitor/api.py:305-363 | Both manual writers take the error out of critical and close its alert; resolving logs a recovery iff one was open, ignoring never, un-ignoring touches only the mark. |
| `RecurringErrors.WritersAreLocal` | alfaedge_pulse/log_monitor/api.py:305-363 | No other error and no other monitor's alerts are touched. |
| `RecurringErrors.FalseRecoveryIff` | alfaedge_pulse/tasks/log_monitor.py:121-135 | An error that still breaches is logged as recovered iff it was critical with an open alert and the query did not return it, which happens only at the 500-group limit. |
| `RecurringErrors.OneGroupTooMany` | alfaedge_pulse/tasks/log_monitor.py:79-86 | It does happen: with 501 errors breaching, an answer of the query leaves one out, and a critical one with an open alert is logged as recovered. |
| `RecurringErrors.FoundAreNotIgnored` | alfaedge_pulse/log_monitor/queries.py:198-202 | The query never returns an ignored signature. |
| `RecurringErrors.ErrorBook.constructor` | alfaedge_pulse/tasks/log_monitor.py:88-90 | No records yet, on a given alert log. |
| `RecurringErrors.ErrorBook.AlertError` | alfaedge_pulse/tasks/log_monitor.py:91-119 | Marks one error critical, raises its peak, and alerts iff it was not critical or has lost its open alert. |
| `RecurringErrors.ErrorBook.RelieveError` | alfaedge_pulse/tasks/log_monitor.py:121-135 | Clears one error; logs a recovery iff an alert was open. |
| `RecurringErrors.ErrorBook.CloseAlert` | alfaedge_pulse/log_monitor/api.py:327-333 | Closes an open alert, with or without a recovery row, and does nothing when none is open. |
| `RecurringErrors.ErrorBook.AlertAll` | alfaedge_pulse/tasks/log_monitor.py:91-119 | The alert pass: every found error is alerted once as if alone, all others are untouched. |
| `RecurringErrors.ErrorBook.RecoverAll` | alfaedge_pulse/tasks/log_monitor.py:121-135 | The recover pass: every critical, not ignored error that was not found recovers once, all others are untouched. |
| `RecurringErrors.ErrorBook.RunCheck` | alfaedge_pulse/tasks/log_monitor.py:88-137 | Both passes together, error by error. |
| `RecurringErrors.ErrorBook.ResolveError` | alfaedge_pulse/log_monitor/api.py:305-334 | The record after a manual resolution, its alert closed with a recovery if one was open. |
| `RecurringErrors.ErrorBook.SetErrorIgnored` | alfaedge_pulse/log_monitor/api.py:338-363 | Ignoring clears critical and closes the alert without a recovery; un-ignoring changes nothing else. |

## Left out

- Network, SSH, Socket.IO, HTTP and ClickHouse clients, permissions, sending and wording of alerts, batches and digests: plumbing around the modelled state.
- The frontend, install, patches, AI reports and usage SQL: aggregation with only easy claims.
- The host CPU/RAM alerts of `sync_server` and Host Unreachable: their "was" input is not the stored flag alone, so the run-count and ledger properties do not apply to them.
- Crashes between committing a site flag and resolving its alert: a reconcile step is atomic, for one site with a fixed sibling group at a time.
- UptimeConsensus.NewSiblingStaysOut: two siblings and an alert window of one check; the general condition is `SiblingsAgreeAfter`.
- InstanceConvergence.Fleet.CreateSite: url, host name and port are one target text.
- Outage protection of ambiguous site rows: they have no owning NPM, so nothing protects them.
- SiteDiscovery.NearestWildcardAnswers: the code's rule (nearest wildcard walking up), not the closest-encloser rule of section 3.3.1 of RFC 4592.
- The free-text note of a site row, host names with empty labels, and addresses of guests that do not parse.
- BackupLog.ParseBulkLog: lines come already classified; the text patterns and the size units are not modelled.
- DiskForecast.LineIsForecastExactly: over exact reals; rounding of the reported figures is not modelled.
- HostIngest.MemoryLog.StoreMemorySample: rates are exact reals, without the rounding to two digits; sizes, pressure and top processes are copied fields and not modelled.
- HostIngest.IoLog.StoreIoSamples: rates are exact reals, without rounding; the stored row keeps the counter differences beside them, which the source leaves implicit.
- RecurringErrors.ErrorBook.ResolveError: the refusal of a signature with no occurrence in 30 days leaves everything unchanged and is not modelled; nor are titles, sites and users.
- BifrostSync.UsageLogSync.UpsertLog: of a usage row only id, timestamp, status and time of reading; token and cost fields are copied.
- `poller_queue` fallback, the poller stall alert, `intervals` and `describe` of maintenance windows: short and shallow.
- Time zones: every instant is an integer on one clock.
