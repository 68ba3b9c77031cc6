# Verified models of iRexPro's hard parts

iRexPro connects user accounts to MetaTrader 5 terminals, evaluates trading research
and serves web and mobile clients. This project models the parts of it whose
correctness is not obvious from reading one function, and proves what they keep over
all inputs, all interleavings or all runs. `dafny verify dfyconfig.toml` checks
everything.

**The direct MT5 connector.** It executes leased broker commands through a SQLite
journal and must not dispatch one twice, wherever it crashes.
`Journal` is the durable state, with the statements the code commits and the class
that runs them. `Connector` is `run_connector` as a machine: one configuration is the
committed journal, the program point and the trace of what became visible outside;
one input is the next answer, exception or crash. `ConnectorSafety` proves the
invariants and the theorems over all runs, `CommandService` what becomes of a command and
where the contents of events come from. `ConnectorProcess` is the same loop as a
program with its `try`/`except`/`else`, proved to follow the machine step by step, so
that the theorems hold of whole lives of a journal file. `SharedJournal` puts any
number of processes on one file: it shows by concrete steps how two live processes
dispatch a command twice and report it wrongly, and proves that with one live process at
a time, and only then, the guarantees hold. `LateRaise` adds to the machine that
`complete` raises after its UPDATE was executed. `Backoff` is the supervised
restart loop, `HostWorker` the hosted worker's session table, `IdentitySearch` the
search of the pairing response, `DealHistory` the reconstruction of trades from deals and
`DealOrder` what their order has to do with it.

**Research scripts.** `Folds` is the chronological splitter, `Holdout` the sealed
holdout updater, `FirstHit` the vectorised first-touch labels against a plain scan.

**Clients.** `Base64Url` (with `Base64Encoding` for the way back) and `Utf8` are the
hand-written decoders, stated against sections 4 and 5 of RFC 4648 and section 3 of
RFC 3629. `SingleFlight` is the 401 recovery of the API client, `TokenRotation` the mobile session with its secure store,
`Eligibility` the verifier of eligibility views.

`Sorting` and `Wrappers` are shared. Code that updates state in place is a class or a
method with a loop whose contract is an independent specification; that specification
is what the lemmas are about. For each main operation a lemma says what it computes in
terms of its input alone, without the functions it is computed with.

Where a promise of the code or its documentation turned out to be conditional, the
exact condition is a theorem of its own:

- The journal class calls itself an exactly-once guard. With at most k live processes on
  one journal it is one if and only if k <= 1 (`AtMostOnceIffOneLive`), and the same bound
  holds for the agreement of reports (`ReportsAgreeIffOneLive`); the failing runs start
  from an empty journal.
- Its text says that an interrupted row becomes UNCERTAIN on the next access; the code, and
  the model, do this when the journal is opened.
- FAILED does not say that the broker was untouched: the dispatch had returned exactly if
  the terminal write of its success raised (`FailedHidesReturnIff`).
- A FAILED that contradicts the journal is submitted exactly if `complete` raises after its
  UPDATE was executed, `fail` then goes through, which commits SUCCEEDED, and the upload is
  sent (`ReportsAgreeIff`; `LateRaiseMisreports` is such a run). The dispatches keep their
  guarantees even then.
- A leased command is answered under its own id exactly if its id is in the journal or its
  key is not (`AnsweredUnderOwnIdIff`); otherwise never, however often it is leased
  (`KeyHitIsNeverAnswered`).
- `build_folds` terminates for all sizes exactly with a positive embargo or without
  equal events (`TerminationCondition`). `BuildFolds` asks only that it terminates on its input.
- A launch that raises after its child has started orphans the child, and leasing a
  connector that is already active loses one; a tick does neither exactly under the stated
  conditions (`LosesIff`), and after any run nobody is left running exactly if no tick did
  either (`RunLosesIff`, `NobodyLeftIff`).
- `_first_hit` is right exactly for rows of at most 301 seconds
  (`RightUpToTheDefaultPosition`); the code uses 300.
- The base64url decoder accepts more than an encoder writes, and exactly which segments
  are canonical is stated (`CanonicalSegment`). Two byte strings decode to one text exactly
  if their code points agree after merging surrogate pairs (`SameStringIff`).
- A rotated-away refresh token stays stored exactly when the reply to its rotation is lost,
  or the new pair is not saved and the old token not deleted (`RestoreLeavesStaleIff`,
  `LogoutLeavesStaleIff`, over runs `StaleIffStranded`). A logout that keeps the session
  shows the storage error for this, except after a lost reply, which is shown as a
  transient error; and a further logout never shows the storage error again
  (`SecondLogoutHidesStorageError`).
- Of outages alone a lost refresh reply is the one that costs a session
  (`OutageKeepsSession`). A refresh token whose version the server has not advanced is erased
  or given up exactly when a rejected access token meets an unreadable refresh token, or the
  refresh token is rejected as expired (`RestoreErasesCurrentIff`, `LogoutForgetsOnlyDeadSessions`).
- The order in which the terminal lists deals does not show in a trade exactly if its tied
  first entries and tied last exits agree (`ListingDoesNotShowIff`).
- A 401 that arrives after a recovery was released starts another one, though the token is
  new by then (`StartsRecoveryIff`, `LateAnswerRecoversAgain`).

## Model

| member | source | states |
|---|---|---|
| Journal.StatementsKeepConstraints | services/mt5-connector/irexpro_mt5_connector/journal.py:34-53 | every statement keeps the primary key and the unique idempotency key |
| Journal.InsertAnswersFromJournal | services/mt5-connector/irexpro_mt5_connector/journal.py:93-119 | `begin` answers with a row that is in the journal under the id or key asked for; a fresh EXECUTING row exactly when neither was there; the fallback row is never the answer |
| Journal.CommandJournal.constructor | services/mt5-connector/irexpro_mt5_connector/journal.py:29-55 | opening turns every EXECUTING row UNCERTAIN and changes nothing else |
| Journal.CommandJournal.NextHeartbeatSequence | services/mt5-connector/irexpro_mt5_connector/journal.py:60-81 | the stored counter advances by one, from 1, and is the answer |
| Journal.CommandJournal.FindExisting | services/mt5-connector/irexpro_mt5_connector/journal.py:93-102 | lookup by id, then by key |
| Journal.CommandJournal.InsertExecuting | services/mt5-connector/irexpro_mt5_connector/journal.py:104-119 | the insert, or the rollback and the row already there |
| Journal.CommandJournal.FinishCommand | services/mt5-connector/irexpro_mt5_connector/journal.py:121-167 | only an EXECUTING row becomes terminal; the answer is the row as stored |
| ConnectorSafety.StepKeepsTerminalRows | services/mt5-connector/irexpro_mt5_connector/journal.py:121-151 | no step removes a row, rekeys it, changes a terminal row or lowers the counter |
| ConnectorSafety.InvRun | services/mt5-connector/irexpro_mt5_connector/runtime.py:154-205 | the invariant of journal, program point and trace holds after every run |
| ConnectorSafety.AtMostOnceDispatch | services/mt5-connector/irexpro_mt5_connector/runtime.py:157-200 | over every run with any leases, failures, crashes and restarts, no command id and no idempotency key is dispatched twice |
| ConnectorSafety.ReportsAgree | services/mt5-connector/irexpro_mt5_connector/runtime.py:82-98 | all results submitted for one id are equal, equal to its journal row, and never EXECUTING |
| ConnectorSafety.TerminalRowsAbsorb | services/mt5-connector/irexpro_mt5_connector/runtime.py:191-198 | a terminal row is the same after any further run, so a failed upload never relabels a success |
| ConnectorSafety.JournalTruth | services/mt5-connector/irexpro_mt5_connector/journal.py:83-151 | SUCCEEDED holds the one value dispatch returned, FAILED a raised message, UNCERTAIN means a process ended owning the row, no row means never dispatched |
| ConnectorSafety.NothingExecutingBetweenCommands | services/mt5-connector/irexpro_mt5_connector/runtime.py:157-200 | a live process that owns no command sees no EXECUTING row |
| ConnectorSafety.GuardedDispatch | services/mt5-connector/irexpro_mt5_connector/runtime.py:157-180 | heartbeat sequences increase across restarts, one is sent between any two dispatches; every dispatched command agrees with the settings in each of the five bound fields, and the live account in its three |
| CommandService.DispatchedWasLeased | services/mt5-connector/irexpro_mt5_connector/runtime.py:157-180 | over every run, a dispatched command was leased, unchanged, and its account was shown by the terminal |
| CommandService.FreshCommandIsServed | services/mt5-connector/irexpro_mt5_connector/runtime.py:157-200 | a command with the paired fields and a new id and key: one heartbeat with the next sequence, one dispatch, the row SUCCEEDED with the value or FAILED with the message, reported as stored; no other row changes |
| CommandService.KnownCommandIsReported | services/mt5-connector/irexpro_mt5_connector/runtime.py:82-98 | a command leased again after it ended is reported as it ended and not dispatched |
| CommandService.UnpairedIsRefused | services/mt5-connector/irexpro_mt5_connector/protocol.py:98-116 | any of the five fields, or of the three of the live account, being different ends the process without a dispatch |
| ConnectorSafety.FailedAfterSuccess | services/mt5-connector/irexpro_mt5_connector/runtime.py:179-190 | from every reachable dispatch: if it returns and the terminal write raises, the command is stored and reported FAILED |
| ConnectorSafety.FailedHidesReturnIff | services/mt5-connector/irexpro_mt5_connector/runtime.py:179-190 | over every run, the dispatch of a command whose row is FAILED had returned if and only if the terminal write of its success raised |
| ConnectorSafety.KeyHitIsNeverAnswered | services/mt5-connector/irexpro_mt5_connector/runtime.py:82-98 | an id whose key belongs to another row is neither dispatched nor reported, however often it is leased again |
| ConnectorSafety.AnsweredUnderOwnIdIff | services/mt5-connector/irexpro_mt5_connector/journal.py:93-119 | a command leaving `begin` is dispatched or reported under its own id iff its id is in the journal or its key is not; otherwise the row with the key is reported |
| ConnectorProcess.Process.RunConnector | services/mt5-connector/irexpro_mt5_connector/runtime.py:154-205 | the loop as a program: its journal and trace are those of the machine, and it ends down |
| ConnectorProcess.Process.HandleCommand | services/mt5-connector/irexpro_mt5_connector/runtime.py:164-198 | the handling of one leased command takes exactly the machine's steps |
| ConnectorProcess.Process.DispatchAndReport | services/mt5-connector/irexpro_mt5_connector/runtime.py:179-198 | `try`, `except` and `else` around dispatch and complete |
| ConnectorProcess.JournalLife | services/mt5-connector/irexpro_mt5_connector/runtime.py:134-205 | one process after the other on one file is one run of the machine: at most once, heartbeats in order, and the file left behind bears out every event |
| LateRaise.ReportsAgreeIff | services/mt5-connector/irexpro_mt5_connector/runtime.py:179-198 | when `complete` may raise with its UPDATE executed or committed: over every run, all reports agree with the journal iff no `fail` goes through after such a raise and has its FAILED sent |
| LateRaise.LateRaiseMisreports | services/mt5-connector/irexpro_mt5_connector/journal.py:121-151 | from the empty journal, either kind of late raise leads to FAILED submitted with the value of a SUCCEEDED row |
| LateRaise.LateRunsDispatchOnce | services/mt5-connector/irexpro_mt5_connector/runtime.py:157-200 | late raises cost neither at-most-once dispatch nor heartbeat order |
| LateRaise.LateRunIsRun | services/mt5-connector/irexpro_mt5_connector/runtime.py:179-198 | the journal after any such run is that of a run without late raises, and so is the trace, but for reports relabelled FAILED |
| SharedJournal.AtMostOnceWithoutAdoption | services/mt5-connector/irexpro_mt5_connector/journal.py:93-119 | any interleaving of any number of processes dispatches at most once if no `begin` answers EXECUTING for a row it did not insert |
| SharedJournal.TwoProcessesDispatchTwice | services/mt5-connector/irexpro_mt5_connector/journal.py:96-102 | one live process inserting a row and another in `begin` with the same command both dispatch it |
| SharedJournal.TwoDispatchFromNothing | services/mt5-connector/irexpro_mt5_connector/runtime.py:157-180 | a run of two live processes from the empty journal that dispatches one command twice |
| SharedJournal.SecondOpenBreaksReports | services/mt5-connector/irexpro_mt5_connector/journal.py:83-91 | opening the journal beside a running command makes SUCCEEDED reported without its value over an UNCERTAIN row |
| SharedJournal.TwoDisagreeFromNothing | services/mt5-connector/irexpro_mt5_connector/journal.py:83-91 | a run of two live processes from the empty journal whose report contradicts the journal |
| SharedJournal.ExclusiveIsOneProcess | services/mt5-connector/irexpro_mt5_connector/runtime.py:134-205 | with one live process at a time a shared run is a run of the single machine and never adopts |
| SharedJournal.AtMostOnceWhenExclusive | services/mt5-connector/irexpro_mt5_connector/runtime.py:157-200 | so at-most-once dispatch and heartbeat order carry over |
| SharedJournal.ReportsAgreeWhenExclusive | services/mt5-connector/irexpro_mt5_connector/runtime.py:82-98 | so does the agreement of all reports with the journal |
| SharedJournal.AtMostOnceIffOneLive | services/mt5-connector/irexpro_mt5_connector/runtime.py:157-200 | with at most k processes live at any time, every run dispatches at most once iff k <= 1 |
| SharedJournal.ReportsAgreeIffOneLive | services/mt5-connector/irexpro_mt5_connector/runtime.py:82-98 | with at most k processes live at any time, every run keeps reports and journal in agreement iff k <= 1 |
| Backoff.RejectedStatusIsFinal | services/mt5-connector/irexpro_mt5_connector/client.py:211-220 | an API answer that is no success is the last attempt and is raised, unless it is 408, 425, 429 or 5xx; after these there is another attempt unless the stop event is set |
| Backoff.DoubledIs | services/mt5-connector/irexpro_mt5_connector/runtime.py:258-259 | n doublings multiply by 2^n |
| Backoff.DelayIs | services/mt5-connector/irexpro_mt5_connector/runtime.py:225-259 | the delay with base and cap spelled out: b0 = max(0.1, initial), M = max(b0, maximum), min(M, b0 * 2^j) |
| Backoff.FailedStreakIs | services/mt5-connector/irexpro_mt5_connector/runtime.py:228-259 | j is the number of attempts in a row just before that did not reach READY, 0 if the attempt reached it |
| Backoff.NextDelay | services/mt5-connector/irexpro_mt5_connector/runtime.py:254-259 | capped doubling is the closed form min(M, b0 * 2^j) for the next j |
| Backoff.StreakDelaysGrow | services/mt5-connector/irexpro_mt5_connector/runtime.py:228-259 | delays of a streak never shrink and stay between base and cap |
| Backoff.RunSupervised | services/mt5-connector/irexpro_mt5_connector/runtime.py:225-264 | every delay is the closed form for the consecutive not-ready failures before it; the loop goes on exactly after transient and terminal errors without the stop event, how many delays there are, and what is raised |
| HostWorker.StartedAreAccountedFor | services/mt5-connector/irexpro_mt5_connector/host_worker.py:437-569 | children started = active + reaped + lost + orphaned, and = active + reaped iff none is lost or orphaned |
| HostWorker.LosesIff | services/mt5-connector/irexpro_mt5_connector/host_worker.py:437-568 | the lease loop loses a child iff it leases an active connector, and orphans one iff a launch raises after the child started |
| HostWorker.LaunchDecides | services/mt5-connector/irexpro_mt5_connector/host_worker.py:535-569 | table, ledger and next handle after each of the three outcomes of a launch |
| HostWorker.FillingUsesTheBacklog | services/mt5-connector/irexpro_mt5_connector/host_worker.py:496-506 | when the lease loop ends the table is full, or has every connector whose launch works and that was offered before an error or an empty answer |
| HostWorker.FillingAddsOnlyOffered | services/mt5-connector/irexpro_mt5_connector/host_worker.py:496-506 | it removes no session, and every other one in the table has just been launched from the backlog |
| HostWorker.TickRenewsWhatIsDue | services/mt5-connector/irexpro_mt5_connector/host_worker.py:482-506 | a session that stays is renewed iff its heartbeat is due and the renewal works; so none whose renewals work goes an interval without one |
| HostWorker.Supervisor.ReapExited | services/mt5-connector/irexpro_mt5_connector/host_worker.py:523-533 | exactly the exited children leave the table |
| HostWorker.Supervisor.LaunchAssignment | services/mt5-connector/irexpro_mt5_connector/host_worker.py:535-569 | a failed launch leaves the table alone but orphans a child that had started; a launch over an active connector loses exactly that child |
| HostWorker.Supervisor.LeaseAssignments | services/mt5-connector/irexpro_mt5_connector/host_worker.py:496-506 | the lease loop ends on every finite backlog even if all launches fail, never exceeds the bound, and which children it loses or orphans |
| HostWorker.Supervisor.TickOnce | services/mt5-connector/irexpro_mt5_connector/host_worker.py:482-521 | table, ledger and presence heartbeat after one tick, and when it loses or orphans no child |
| HostWorker.Supervisor.Shutdown | services/mt5-connector/irexpro_mt5_connector/host_worker.py:586-597 | who is terminated, who is waited for after the second look, who is killed; every child of the table has exited, ended while waited for, or been killed; the table ends empty |
| HostWorker.OutageOnlyReaps | services/mt5-connector/irexpro_mt5_connector/host_worker.py:482-506 | a tick in which every call fails only removes exited children |
| HostWorker.FillingKeepsSessions | services/mt5-connector/irexpro_mt5_connector/host_worker.py:496-506 | leasing others never touches a session |
| HostWorker.RunLosesIff | services/mt5-connector/irexpro_mt5_connector/host_worker.py:482-569 | after every number of ticks: all children accounted for, at most max_sessions active, none lost (orphaned) iff no tick so far leased an active connector (had a launch raise late) |
| HostWorker.NobodyLeftIff | services/mt5-connector/irexpro_mt5_connector/host_worker.py:576-597 | after a run and its shutdown every child ever started has been reaped or shut down iff no tick did either |
| HostWorker.RunForever | services/mt5-connector/irexpro_mt5_connector/host_worker.py:576-597 | the program goes through the states its ticks lead to, never with more than max_sessions, ends with the shutdown of the last table, and leaves nobody running under exactly that condition |
| HostWorker.ExitCodeIsAccepted | services/mt5-connector/irexpro_mt5_connector/host_worker.py:571-574 | every return code gives an error code that matches the pattern of heartbeat_assignment |
| HostWorker.ExitCodeTells | services/mt5-connector/irexpro_mt5_connector/host_worker.py:571-574 | the code is SESSION_EXITED: and the return code in decimal, clamped to six digits |
| IdentitySearch.FindConnectorIdentity | services/mt5-connector/irexpro_mt5_connector/client.py:149-179 | on any finite, shared or cyclic graph the search ends, succeeds iff a dictionary within six steps carries all three names, and returns that of the first in breadth-first order |
| IdentitySearch.CarriedIsIdentity | services/mt5-connector/irexpro_mt5_connector/client.py:150-172 | a dictionary carries an identity iff token, connector and broker connection are the non-empty strings under their names, or under their aliases where the names hold none |
| DealHistory.GetHistory | services/mt5-connector/irexpro_mt5_connector/mt5_terminal.py:625-672 | each entered and left position is reported once with its own trade, in the order the positions were first met, and nothing else is; each trade is what the deals say |
| DealHistory.TradeIsExactly | services/mt5-connector/irexpro_mt5_connector/mt5_terminal.py:638-671 | a trade has symbol, direction and time of a first entry, time and reason of a last exit, the exits' volume, volume-weighted prices of entries and of exits, and the sums of profit, commission and swap of its deals |
| DealHistory.Group | services/mt5-connector/irexpro_mt5_connector/mt5_terminal.py:625-630 | positions in the order first met, each with its deals in input order, position 0 skipped |
| DealHistory.TradedIffEnteredAndLeft | services/mt5-connector/irexpro_mt5_connector/mt5_terminal.py:639-642 | a position has a trade iff one of its deals enters and one leaves |
| DealHistory.Conservation | services/mt5-connector/irexpro_mt5_connector/mt5_terminal.py:665-669 | profit, commission and swap of the trades add up to those of all deals of entered and left positions |
| DealHistory.TradePrices | services/mt5-connector/irexpro_mt5_connector/mt5_terminal.py:646-655 | the open price lies within the prices of the entries and the close price within those of the exits, for positive volumes |
| DealHistory.TradeTimes | services/mt5-connector/irexpro_mt5_connector/mt5_terminal.py:643-667 | a trade opens at its first entry and closes at its last exit |
| DealHistory.InputOrderDoesNotMatter | services/mt5-connector/irexpro_mt5_connector/mt5_terminal.py:637-671 | with distinct (time_msc, ticket) a permutation of the deals gives the same trades |
| DealOrder.ListingDoesNotShowIff | services/mt5-connector/irexpro_mt5_connector/mt5_terminal.py:637-671 | every listing of the same deals gives the same trade iff there is none, or tied first entries agree on symbol, direction and time and tied last exits on time and reason |
| Folds.TerminationCondition | scripts/research/rolling_causal_evaluator.py:93-122 | the loop ends for all sizes iff the embargo is positive or no two events are equal |
| Folds.NeverPasses | scripts/research/rolling_causal_evaluator.py:120 | without embargo a second copy of an event is never passed |
| Folds.BuildFolds | scripts/research/rolling_causal_evaluator.py:93-122 | whenever the loop ends: one numbered fold for each round up to the one that ends it, for the values `start` takes; every event from train_size on is tested or skipped for the embargo of a round; with positive embargo or distinct events each window is behind the one before |
| Folds.RoundsAreExactly | scripts/research/rolling_causal_evaluator.py:96-122 | the first fold starts at train_size, the next behind the first event equal to the last one tested, and the loop ends where no event is left or admitted |
| Folds.FoldIsExactly | scripts/research/rolling_causal_evaluator.py:98-105 | a fold tests the first test_size events from its start on that are not before the cutoff plus the embargo, or all if they are fewer |
| Folds.TrainIsExactly | scripts/research/rolling_causal_evaluator.py:98-102 | it trains on the events before its start whose outcome is known at the cutoff, each as often and in the order they occur |
| Folds.TestSetsAreDisjoint | scripts/research/rolling_causal_evaluator.py:103-105 | no position is in the windows of two folds, equal events included, and their events are apart by the embargo |
| Folds.TrainingIsCausal | scripts/research/rolling_causal_evaluator.py:100-102 | training events come before the fold and their outcomes are known at the cutoff |
| Folds.CandidatesAreASuffix | scripts/research/rolling_causal_evaluator.py:103-104 | on sorted events the embargo filter is a suffix |
| Holdout.ReadCachedContiguousRows | scripts/research/update_v10_future_holdout.py:37-94 | the hour walk returns the specified rows |
| Holdout.WalkIsBehind | scripts/research/update_v10_future_holdout.py:84-89 | it returns only rows behind the frontier |
| Holdout.WalkIsOrdered | scripts/research/update_v10_future_holdout.py:65-94 | strictly later one after the other, if the cached hours are |
| Holdout.WalkJumpsNoGap | scripts/research/update_v10_future_holdout.py:67-74 | every hour passed is closed or cached |
| Holdout.WalkSource | scripts/research/update_v10_future_holdout.py:75-89 | every row returned stems from an hour passed |
| Holdout.FirstHourIs | scripts/research/update_v10_future_holdout.py:57-59 | the walk begins with the hour of the minute after the frontier |
| Holdout.LastClosedHourIs | scripts/research/update_v10_future_holdout.py:60-63 | it ends with the last hour that is over |
| Holdout.WalkIsExactly | scripts/research/update_v10_future_holdout.py:65-94 | a row is returned iff it is in an open hour the walk comes to and later than the frontier and all rows of the open hours before |
| Holdout.IncomingIsExactly | scripts/research/update_v10_future_holdout.py:173-220 | exactly which rows a refresh adds: those behind the boundary the cache offers, and the download only for a file without such rows |
| Holdout.WrittenIsExactly | scripts/research/update_v10_future_holdout.py:217-230 | from any file: of every stamp the row that came last is written, except behind the boundary those later than as many others as the target |
| Holdout.Updater.Merge | scripts/research/update_v10_future_holdout.py:219-222 | new rows behind the boundary replace by timestamp or go to the end |
| Holdout.Updater.Run | scripts/research/update_v10_future_holdout.py:172-248 | the file after a run with any failure, when a run refuses, and that a written counter tells the truth about the file |
| Holdout.RefreshAppends | scripts/research/update_v10_future_holdout.py:182-230 | one refresh keeps the old rows, only appends new ones, stays within the target, and freezes at it |
| Holdout.RefreshIsCanonical | scripts/research/update_v10_future_holdout.py:217-230 | from any file it leaves a sorted one without repeated timestamps, within the target |
| Holdout.AppendOnlyThenFrozen | scripts/research/update_v10_future_holdout.py:172-230 | over any runs, failures and counter files: old rows fixed, new rows a growing sequence, never above the target, frozen there even without the counter |
| Holdout.UntouchedOrCanonical | scripts/research/update_v10_future_holdout.py:172-230 | from any file: untouched, or canonical for good |
| FirstHit.ArrayFormIsScan | scripts/research/build_quote_path_labels_fast.py:38-51 | outcome and seconds of the array form are those of a left-to-right scan |
| FirstHit.RightUpToTheDefaultPosition | scripts/research/build_quote_path_labels_fast.py:43-44 | the array form is right for every row of length n iff n is at most 301 |
| FirstHit.NarrowBarrierIsTouchedFirst | scripts/research/build_quote_path_labels_fast.py:92-100 | a touch of a wider barrier is a touch of a narrower one, no later |
| FirstHit.HitsAgreeWithExtremes | scripts/research/build_quote_path_labels_fast.py:79-100 | worst, last and best return are ordered; a hit is reported iff an extreme reaches the barrier |
| FirstHit.LabelIsExactly | scripts/research/build_quote_path_labels_fast.py:53-101 | from the quotes alone: when the row is dropped; the number of quotes; for long (bought at the ask, sold at the bids) and short (the reverse) the best, worst and last return in basis points, and the first barrier reached for 0.5, 1 and 2 |
| FirstHit.LastPositionIs | scripts/research/build_quote_path_labels_fast.py:66-79 | the reversed argmax is the last valid second, one of the last thirty |
| FirstHit.EntryIsCausal | scripts/research/build_quote_path_labels_fast.py:59-64 | the entry quote depends on the six seconds before the decision alone |
| FirstHit.LabelIsLocal | scripts/research/build_quote_path_labels_fast.py:53-101 | the label depends on nothing but seconds d-6 to d+299, all within the day's array |
| Base64Url.DecodeBase64UrlBytes | apps/mobile/src/lib/account-security-logic.ts:802-825 | null exactly on a lone six-bit group or a foreign character, otherwise the whole bytes of the bit stream |
| Base64Url.OneCharacter | apps/mobile/src/lib/account-security-logic.ts:814-822 | one loop round: the waiting bits stay in order, buffer < 2^bits between rounds, never 2^13 within one |
| Base64Url.DecodesOneWay | apps/mobile/src/lib/account-security-logic.ts:797-825 | at most one answer meets the specification |
| Base64Url.ReadsNothingElse | apps/mobile/src/lib/account-security-logic.ts:787-812 | a character has a value iff it is in one of the alphabets, and then its place there |
| Base64Url.AlphabetIs | apps/mobile/src/lib/account-security-logic.ts:787 | the two alphabets by their blocks |
| Base64Url.CompactDropsPadding | apps/mobile/src/lib/account-security-logic.ts:803 | padding is dropped, everything else stays in its order |
| Base64Encoding.RoundTrip | apps/mobile/src/lib/account-security-logic.ts:797-825 | decoding either alphabet, padded or not, gives back any byte sequence |
| Base64Encoding.CanonicalText | apps/mobile/src/lib/account-security-logic.ts:802-825 | re-encoding what the decoder makes of unpadded text gives the text back iff the bits it dropped are zero |
| Base64Encoding.CanonicalSegment | apps/mobile/src/lib/account-security-logic.ts:802-825 | any accepted segment is the encoding of its bytes in a given alphabet and padding iff all characters are of that alphabet, the padding is the right one and the left-over bits are zero |
| Utf8.Utf8BytesToString | apps/mobile/src/lib/account-security-logic.ts:832-875 | an answer exactly for concatenated shortest forms of 0..0x10FFFF, and then their UTF-16 form |
| Utf8.Continuation | apps/mobile/src/lib/account-security-logic.ts:844-852 | an answer exactly when all continuation bytes are there, with their bits |
| Utf8.PrefixCode | apps/mobile/src/lib/account-security-logic.ts:832-875 | shortest forms are a prefix code |
| Utf8.EncodingIsInjective | apps/mobile/src/lib/account-security-logic.ts:832-875 | the bytes determine the code points |
| Utf8.Utf16IsInjectiveOnScalars | apps/mobile/src/lib/account-security-logic.ts:857-868 | the string determines the scalar values, so decoding gives them back |
| Utf8.SurrogatesCollide | apps/mobile/src/lib/account-security-logic.ts:859-862 | an encoded surrogate pair and the encoded character give one string |
| Utf8.SameStringIff | apps/mobile/src/lib/account-security-logic.ts:857-868 | two code point sequences decode to one string iff they agree after merging adjacent high and low surrogates |
| SingleFlight.AtMostOneOutstanding | packages/api-client/src/index.ts:456-458 | in every interleaving at most one recovery is outstanding |
| SingleFlight.WaitersGoOn | packages/api-client/src/index.ts:455-463 | a waiting request can resume, or waits for the outstanding recovery, which can move |
| SingleFlight.WaitersSeeOneVerdict | packages/api-client/src/index.ts:456-462 | all waiters of a recovery resume with the verdict it finished with |
| SingleFlight.AtMostTwoFetches | packages/api-client/src/index.ts:410-463 | every request fetches once or twice |
| SingleFlight.RetryReadsTheTokenAfterRecovery | packages/api-client/src/index.ts:422-425 | a retry follows the success of a recovery it waited for; every fetch carries the token current at that moment, or its request's own Authorization header |
| SingleFlight.ExemptPathsNeverRecover | packages/api-client/src/index.ts:447-453 | refresh, login and register never start or join a recovery |
| SingleFlight.RecoveriesAreBounded | packages/api-client/src/index.ts:455-458 | never more recoveries than answered requests |
| SingleFlight.StartsRecoveryIff | packages/api-client/src/index.ts:447-458 | in every run a recoverable 401 starts a recovery iff all earlier ones have been released, whatever token it was sent with |
| SingleFlight.LateAnswerRecoversAgain | packages/api-client/src/index.ts:455-461 | two requests sent with one token can cause two recoveries, which reaches the bound |
| SingleFlight.MoveDecides | packages/api-client/src/index.ts:432-463 | what every answer, network error and resumption makes of a request, the three exempt paths spelled out |
| SingleFlight.VerdictDecides | packages/api-client/src/index.ts:459-463 | over every run: a failed recovery ends its request with the 401, a rejected one with the rejection, a successful one with what the second fetch brings |
| SingleFlight.Client.AfterResponse | packages/api-client/src/index.ts:447-463 | the code after a fetch is the machine's move |
| SingleFlight.Client.AfterRecovery | packages/api-client/src/index.ts:459-463 | so is the code after the await |
| TokenRotation.RestoreLeavesStaleIff | apps/mobile/src/context/auth-context.tsx:76-166 | restoreSession leaves a rotated-away refresh token stored iff it rotates it and the reply is lost, or saving and deleting both fail |
| TokenRotation.LogoutLeavesStaleIff | apps/mobile/src/context/auth-context.tsx:168-236 | exactly when logout leaves one; a kept session has none stored or shows the storage error iff no rotation reply was lost; with that error memory holds the newest token |
| TokenRotation.LogoutKeepsNewestIff | apps/mobile/src/context/auth-context.tsx:168-236 | against the server, other devices aside: a kept session has the newest pair stored or the storage error shown iff no reply to a call the server carried out was lost |
| TokenRotation.LogoutForgetsOnlyDeadSessions | apps/mobile/src/context/auth-context.tsx:168-236 | when logout clears without a message, the server has moved past the stored refresh token unless the first call was rejected and that token was unreadable or expired, and past the token in memory unless that had expired |
| TokenRotation.StaleIffStranded | apps/mobile/src/context/auth-context.tsx:76-236 | over any run, whatever fails, the store ever holds a rotated-away token iff some operation strands one |
| TokenRotation.StaleOnlyAfterStorageErrorOrLostReply | apps/mobile/src/context/auth-context.tsx:76-236 | with working deletes it is stored only after a logout that showed the storage error or a lost rotation reply |
| TokenRotation.RestoreSignsInIff | apps/mobile/src/context/auth-context.tsx:76-166 | restoreSession signs in iff the stored access token is taken, or it is missing or rejected and the refresh token is rotated, saved and its successor taken; what memory and store hold then |
| TokenRotation.RestoreShows | apps/mobile/src/context/auth-context.tsx:76-166 | exactly which message it shows |
| TokenRotation.RestoreStores | apps/mobile/src/context/auth-context.tsx:91-162 | what it leaves stored without signing in: a transient failure keeps the tokens or the saved pair, anything else deletes both as far as deleting works |
| TokenRotation.LogoutShows | apps/mobile/src/context/auth-context.tsx:168-236 | exactly which message logout shows; without one nobody is signed in; with one what memory and store hold |
| TokenRotation.RestoredSessionIsCurrent | apps/mobile/src/context/auth-context.tsx:91-162 | a restored session has the server's version in memory and in the stored access token, and in the stored refresh token if that was used; otherwise that one is as it was |
| TokenRotation.RestoreKeepsCurrentIff | apps/mobile/src/context/auth-context.tsx:76-166 | other devices aside, a current refresh token stays current through restoreSession iff its rotation is answered and saved, if it happens, and no rejection has it deleted |
| TokenRotation.OutageKeepsSession | apps/mobile/src/context/auth-context.tsx:97-132 | with live tokens and working storage, outages cost a current, readable refresh token iff it is sent and the reply is lost |
| TokenRotation.RestoreErasesCurrentIff | apps/mobile/src/context/auth-context.tsx:108-126 | restoreSession erases a refresh token of an unadvanced version iff the delete works and a rejected access token meets an unreadable refresh token, or the refresh token is rejected as expired |
| TokenRotation.SecondLogoutHidesStorageError | apps/mobile/src/context/auth-context.tsx:168-236 | with a rotated-away token stored, no further logout shows the storage error; one that keeps the session shows the transient error and the token stays |
| TokenRotation.AuthContext.RestoreSession | apps/mobile/src/context/auth-context.tsx:76-166 | the program, early returns included, ends in the specified state, not loading, signed in and showing a message exactly under the stated conditions |
| TokenRotation.AuthContext.SignOut | apps/mobile/src/context/auth-context.tsx:168-236 | likewise for logout |
| TokenRotation.AuthContext.Save | apps/mobile/src/lib/secure-storage.ts:26-33 | two writes, the second of which may fail alone |
| Eligibility.IsEligibilityStatusView | packages/api-client/src/eligibility.ts:152-208 | accepts iff each key is disclosed once, consents match and are distinct, consented and missing keys partition the keys, and canProceed is the stated conjunction |
| Eligibility.CountingCoversOnce | packages/api-client/src/eligibility.ts:152-159 | counting suffices: as many disclosures and distinct keys as keys means each exactly once |
| Eligibility.CollectConsents | packages/api-client/src/eligibility.ts:163-181 | the consent loop fails iff a consent mismatches or repeats, and collects exactly their keys |
| Eligibility.SameSortedIsSameSet | packages/api-client/src/eligibility.ts:191-201 | comparing sorted lists without repetition compares sets |
| Eligibility.ExactKeys | packages/api-client/src/eligibility.ts:37-41 | hasExactKeys holds iff the keys are exactly those expected |
| Sorting.SortSorts | scripts/research/update_v10_future_holdout.py:223 | the sort orders |
| Sorting.SortKeepsElements | scripts/research/update_v10_future_holdout.py:223 | the sort neither loses nor invents |
| Sorting.SortIsStable | services/mt5-connector/irexpro_mt5_connector/mt5_terminal.py:638 | what the order cannot tell apart stays in the order it had |
| Sorting.OneSortedOrder | services/mt5-connector/irexpro_mt5_connector/mt5_terminal.py:638 | elements the order can tell apart can be sorted in one way |

## Left out

- HTTP, SQLite, keyring, subprocess, MetaTrader and pandas internals: calls answer what the environment chooses; a statement commits or raises as a whole, except that `LateRaise` has `complete` raise after its UPDATE. An insert, `fail` or counter update that is committed and still raises ends the process, and is modelled as not committed.
- The fields of a command beyond its identity, and the shapes `validate_command` checks before a lease is handed over.
- `Connector.ErrorJson`: the error message stands for its JSON encoding.
- `mark_uncertain` is covered by `FinishCommand`; nothing in the package calls it.
- Several live processes on one journal beyond what goes wrong and exactly when nothing does.
- Whether a running process is live (it always answers something): the proofs are about safety, not about the time a step takes.
- `Backoff.RunSupervised`: exact reals, no rounding of the delay; running out of attempts stands for the stop event at the loop head.
- Host worker: session directories and secrets; a child whose stdin could not be opened is terminated, and counts as orphaned like any other that started before its launch raised.
- `close_all`, order placement and modification; in `get_history` Decimal rounding and the names of reasons and directions, which stand for the codes.
- `metrics` and `load_events`: sums and parsing beside the folds; events are taken as sorted.
- `fill_forward_cache`: its effect is the content of the cache the walk then reads.
- The manifest fields other than `complete` and `holdout_sha256`; `hash` stands for SHA-256, `parse` for the timestamp parser, the market calendar is a set of closed hours.
- `decode_day` and the counts of observed ticks; prices are positive exact reals, so float rounding and infinities do not occur.
- JavaScript's bit operators on small numbers are written as arithmetic; the bounds proved keep them within 32 bits.
- `SingleFlight` starts each move where an `await` resumes; response bodies and caching are not modelled.
- restoreSession and logout running at the same time, a crash of the app inside one of them, and the pending broker context that clearTokens also deletes.
- The scalar shape checks of eligibility views and the other validators of that file.
- Web and admin user interfaces, the API server, migrations and workflows.
