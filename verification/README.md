# PopuGate: verified models

PopuGate runs Telegram proxy engines in Docker containers and manages their ports, traffic
accounting, upstream proxies, secrets and updates.  This project models its state machines
and algorithms in Dafny and proves what they promise, over every run, every interleaving or
every input.  `dafny verify dfyconfig.toml` checks all of it.

Each part has a specification module with functions, transition systems and theorems, and,
where the code changes state step by step, a module with classes and methods of the same
shape as the source, each tied to the specification.

| part | modules |
|---|---|
| zero-downtime reload | `SwingRouting`, `SwingHost` |
| traffic ledger | `OctetSums`, `TrafficLedger`, `TrafficHistory`, `TrafficGlobal`, `TrafficTotals`, `TrafficOverlap`, `TrafficTables` |
| engine update | `EngineUpdate`, `EngineServices` |
| upstream failover and Middle-Proxy gate | `Upstreams`, `UpstreamHost` |
| proxy lines and bulk names | `UpstreamTypes`, `Text`, `HostPort`, `ProxyLine`, `Dashes`, `BulkName`, `BulkParts` |
| shell quoting | `ShellQuote` |
| message splitting | `MessageSplit` |
| scheduler persistence | `Scheduling`, `SchedulerHost` |
| API-port allocation | `ApiPorts` |
| last enabled secret | `Secrets`, `SecretHost` |
| version order | `VersionOrder` |

## How the system is abstracted

- A container is named after its port, so the running containers are a set of ports; NAT
  rules are a set of (from, to) pairs.  Docker, iptables, HTTP and file outcomes are
  parameters or nondeterministic events.
- A table is a map from its key to a row.  Where operations are interleaved step by step
  (`SwingRouting`, `EngineUpdate`, `TrafficOverlap`, the statements of `Upstreams` and `Secrets`, the writes
  of `Scheduling`), one SQL statement or transaction is one atomic step; elsewhere a whole
  operation is one, as the premises say.  Statements succeed, except where a failing outcome is
  a parameter (a failed flag or snapshot read, a rolled-back instance flush, a refused port
  update).
- Listings ordered by id are sequences that name every row once; the theorems hold for every order.
- Counters are non-negative mathematical integers, except in the quota percentage and the
  version numbers, where the 64-bit width matters and is modelled.
- Strings are sequences of Unicode characters; bulk names count UTF-8 bytes.
- Time is nondeterministic: deadlines and cache expiry may strike at any step, and a drain
  waits for any number of readings.

## Premises

- Reload availability: primaries are at least 100 apart,
  none lies in another's swing window, swing ports are real ports, no reload of an instance
  starts while an earlier one of it is under way or draining, its container listing and its flip
  succeed, and so does its query of the rules while a drained primary that would not stop still
  runs (otherwise that may fail).  The reload code itself enforces none of these.
  `OverlapKeepsServiceIff`, `ReloadKeepsServiceIffRuleLands`, `FailedListingInterruptsService` and
  `FailedQueryInterruptsIff` say exactly when each loss costs the service, and
  `RestartSettlesOnPrimary` when an ignored failure of a stop or a start does.
  Alternation also needs drained containers to stop when told to; availability does not.
- Engine update: settings are read and saved successfully, except a run's own first save
  after its context is over; the version settings are not edited during an update and the
  stale flag is reset only at startup (`FailedReadAdmitsASecond`, `EditUnderARunIsLost`,
  `ResetUnderARunAdmitsASecond`).
- Upstreams and secrets: an operation finishes before the next begins, for the theorems over
  operations (`StaleRecoveryOpensTheGate`, `LateSuccessIsOverruled`,
  `OverlappingTogglesLoseAll`); `FailCountIsTrailing` needs no such premise.  What overlap costs
  is exact in `LateRecoveryIsHarmlessIff`, `LateDisableIsJustifiedIff` and, for requests to disable
  secrets, `OverlapKeepsOneIff`.
- Traffic, whole-flush theorems (`LedgerClosedForm`, `LedgerAccountsForEverything`,
  `AlwaysCovered`, `RunIsBalanced`, `GlobalEqualsLedger`): no flush overlaps another flush or a
  reset.  The code does not ensure it: the scheduler flushes every minute, stopping the proxy
  flushes too, and resets come from handlers and tasks.  `TrafficOverlap` drops the premise:
  double entry needs it nowhere, the covering of snapshots only between a positive read and
  its commit (`UncutRowsStayCovered`, `CutReadUncoversIff`), and the closed form only that
  flushes of one instance take turns between read and commit and read successfully
  (`ClosedFormUnderOverlap`, `AccountingUnderOverlap`, exactly: `RowFollowsIff`).
  `ResetDuringAFlush`, `OverlappingFlushesCountTwice` and `FailedReadCountsAgain` are traces that
  break them.
- Scheduler: for `RunStaysInSync` and `RunsAsLastAsked`, requests do not overlap, which no lock
  ensures; `OverlapInSyncIff` says what holds when they do (`OverlappingRequestsDisagree`).
- Global traffic: every instance scraped and committed, no counter falling or vanishing.

## Where documentation and code differ

- The bulk-name comment promises at most 32 characters and distinct names for distinct
  credentials (internal/service/upstream_service.go:622-629).  The first holds exactly for
  short enough ports (`NameFits`, `DecimalNameFits`), the second exactly for distinct 32-bit hashes
  (`SameNameIffSameHash`, `CredentialsCanCollide`).
- The splitter's comment promises chunks of at most 4000 characters
  (internal/bot/bot.go:499-501); a single longer line stays whole, so the promise holds exactly
  for texts all of whose lines keep to the limit (`ChunksFitIffLinesFit`, `OneLongLine`); and a
  text over the limit yields no chunk exactly when it is an even number of newlines
  (`SplitMessage`, `OnlyEvenNewlinesAreSilent`).
- The setting `use_middle_proxy` is read in three ways: the upstream service takes every value
  but "false" for on (internal/service/upstream_service.go:57-71), the engine only "true" and
  unset (internal/store/settings_store.go:223-229), and the guard refuses only "true"
  (internal/api/handler/config_handler.go:228-244).  The engine is safe in all cases
  (`EngineAlwaysAccepts`); the service's reading is not (`StrictGateKeptIff`).
- Quota alerts are meant to be cleared when traffic is reset (internal/store/alert_store.go:35-39),
  but nothing calls that; a secret alerted at 100 percent is never disabled for its quota
  again (`SparedForGood`).
- `Apply` saves its guard flag under a context of its own so that no second update can start
  (internal/service/telemt_update_service.go:270-280), but reads it under the caller's, and
  ignores a failed read (`FailedReadAdmitsASecond`).
- The periodic expiry check reads dates only (internal/service/traffic_service.go:450), while
  extending a secret writes a time of day (internal/service/secret_service.go:382), which only
  the batch behind the API reads: an extended secret never expires by itself
  (`ExtendedSecretsOutliveTheCheck`, `PassesAgreeIff`).
- A failed read of the stored snapshots is ignored (internal/service/traffic_service.go:309) and
  counts every counter again from zero (`FailedReadCountsAgain`).
- Resetting a secret's traffic clears its stored snapshot with its bytes
  (internal/store/traffic_store.go:288-303), so unless the engine restarts the next flush counts
  the engine's whole counter again (`ResetComesBack`, `ResetIsUndoneIff`).
- The backfill of API ports knows no upper end (internal/store/instance_store.go:148-183):
  its new numbers are ports exactly while enough free ones are left (`NewPortsArePortsIff`).
- A task that is off by default and enabled with its default schedule is off again after a
  restart (`EnabledTaskIsOffAfterRestart`).
- The bracketed IPv6 parser also accepts a port directly behind the bracket, without the
  colon its comment shows (`BracketForm` with `colon` false).

## Model

| member | source | states |
|---|---|---|
| SwingRouting.AlwaysAvailable | internal/service/container_service.go:456-639 | in every state of every interleaving of reload steps over the fleet, the port new connections of every instance reach is a running container, also when starts, configuration writes or stops fail |
| SwingRouting.RunKeepsInv | internal/service/container_service.go:768-802 | the inductive invariant behind it: per instance at most one swing container, rules only to a running one, every job coherent with the routing, at most one job |
| SwingRouting.StepTouchesOneInstance | internal/service/container_service.go:768-802 | a step of one instance's reload leaves ports, rules and jobs of every separated instance alone |
| SwingRouting.ResolutionMatchesRouting | internal/service/container_service.go:357-390 | the resolvers name the port connections reach if and only if no swing container runs without a rule to it |
| SwingRouting.ReachableResolution | internal/service/container_service.go:655-660 | the same in every reachable state |
| SwingRouting.CompletedReloadsAlternate | internal/service/container_service.go:456-586 | an instance with no reload pending has exactly one container; it is on the side it started on exactly after an even number of completed reloads |
| SwingRouting.StopLeavesNothing | internal/service/container_service.go:207-230 | from either settled side and for each outcome: no container is left if and only if the active one is stopped, no rule if and only if there was none or its ignored removal meets it |
| SwingRouting.StartEndsOnPrimary | internal/service/container_service.go:283-332 | a successful start runs the primary; it serves if and only if every rule iptables fails to show or remove leads to a container that still runs |
| SwingRouting.RestartSettlesOnPrimary | internal/service/container_service.go:207-332 | stop then start settles on the primary if and only if a swing container stops and its rule goes at either attempt, and loses service if and only if it stops and its rule stays |
| SwingRouting.ReplayReload | internal/service/container_service.go:589-639 | closed form of one undisturbed reload, for every outcome of listing, rule query, rule removal, configuration, start and flip |
| SwingRouting.DecisionTable | internal/service/container_service.go:456-518 | target and draining side for every listing and rule seen: with a container to drain on the other side; with none the target is the primary, whatever else is listed |
| SwingRouting.IdleReloadStartsPrimary | internal/service/container_service.go:511-517 | a reload of an instance none of whose containers runs, whatever else runs and whatever rules there are, ends with its primary running, nothing draining, the jobs as before; connections reach a container if and only if every rule left leads to one, which within the swing window means the only rule was the one removed |
| SwingRouting.UnstoppedDrainLeavesBoth | internal/service/container_service.go:543-586 | a drained container that will not stop ends the job all the same and leaves both running, with the rule from the primary side, without one from the swing side |
| SwingRouting.ReloadKeepsServiceIffRuleLands | internal/service/container_service.go:543-586 | because the flip's error is ignored, service survives the drain, from either side, if and only if iptables succeeds and, on the way to the swing side, the swing port is a real port; from the primary side a primary above 55535 always loses it |
| SwingRouting.OverlapKeepsServiceIff | internal/service/container_service.go:768-802 | a second reload begins while the first drains, from either side: service goes on through every step if and only if the first one's stop comes before the second one's launch, and the instance is back on its side; otherwise no container is left, and from the swing side the rule stays |
| SwingRouting.FailedListingInterruptsService | internal/service/container_service.go:456-518 | after a listing that fails and counts as empty, from either side, service goes on if and only if the instance is on a swing port other than the one found free, or the rule cannot be removed |
| SwingRouting.FailedQueryInterruptsIff | internal/service/container_service.go:473-484 | a failed query of the rules interrupts service if and only if a drained primary that would not stop still runs beside the active swing container |
| SwingRouting.FirstRunning | internal/service/container_service.go:357-367 | the first running swing port of the window, or none below it |
| SwingRouting.FreeSwingPort | internal/service/container_service.go:421-442 | the first port of the window that is free together with its metrics port and not running; the window's first port when there is none |
| SwingRouting.FreeSwingPortIsLowest | internal/service/container_service.go:421-442 | in numbers: of the hundred ports from 10000 above the primary the lowest free with the one 100 above it and not running, else the first |
| SwingHost.GetActiveSwingPort | internal/service/container_service.go:357-367 | found exactly when a swing container runs, then the lowest one |
| SwingHost.ResolveActivePorts | internal/service/container_service.go:382-390 | service port of the active side; metrics port 100 above the lowest swing port listed, else the instance's own |
| SwingHost.ResolveSwingMetricsPort | internal/service/traffic_service.go:173-182 | the traffic service's own search: 100 above the lowest swing port listed, else the instance's own metrics port, as the container service says |
| SwingHost.MetricsOfReachedContainer | internal/service/container_service.go:382-390 | in every settled state that is the metrics port of the container connections reach |
| SwingHost.ContainerHost.FindFreeSwingPort | internal/service/container_service.go:421-442 | the search loop finds the first usable swing port and its metrics port |
| SwingHost.ContainerHost.HasPortRedirect | pkg/netutil/iptables.go:385-403 | an impossible port is an error, a failed query finds nothing |
| SwingHost.ContainerHost.AddPortRedirect | pkg/netutil/iptables.go:325-352 | adds the pair unless a port is out of range or iptables fails to add a rule it does not see |
| SwingHost.ContainerHost.RemovePortRedirect | pkg/netutil/iptables.go:355-382 | removes the pair unless a port is out of range or iptables fails; a rule it fails to see stays without an error |
| SwingHost.ContainerHost.CleanStalePortRedirects | internal/service/container_service.go:400-410 | removes exactly the primary's rules into its window, except those iptables fails to show or to remove |
| SwingHost.ContainerHost.ResolveSwingRoutingState | internal/service/container_service.go:456-518 | decides as the protocol's resolve step and changes the rules as it does, whether the query and the removal work or not |
| SwingHost.ContainerHost.RunInstance | pkg/dockerutil/client.go:238-283 | removes an old container of the name, then adds the new one if it starts |
| SwingHost.ContainerHost.StartSwingDraining | internal/service/container_service.go:543-586 | flips the rule as the protocol does and names the side to drain |
| SwingHost.ContainerHost.Drain | internal/service/container_service.go:543-586 | waits through exactly the readings that show connections, at most one every 5 seconds for three minutes, then stops the container however the wait ended |
| SwingHost.ContainerHost.ReloadInstance | internal/service/container_service.go:589-639 | an undisturbed reload ends where replaying the protocol's events ends |
| SwingHost.ContainerHost.DropActiveRedirect | internal/service/container_service.go:223-227 | removes the rule to the swing port found, or to the window's first port, if iptables does |
| SwingHost.ContainerHost.StopInstance | internal/service/container_service.go:207-230 | stops the active container and removes its rule, as `AfterStop`, for each outcome of its two listings, the stop and the removal |
| SwingHost.ContainerHost.StartInstance | internal/service/container_service.go:283-332 | as `AfterStart`, with the rules that could not be removed left; refused without a matching secret before anything is touched |
| TrafficHistory.LedgerClosedForm | internal/service/traffic_service.go:282-347 | persisted bytes of a user on an instance are, per direction, the sum of the last values of the maximal non-decreasing runs of the recorded counters |
| TrafficHistory.FoldClosedForm | internal/service/traffic_service.go:282-288 | the same for folding any sequence of counters into one row |
| TrafficHistory.RowIsFold | internal/store/traffic_store.go:182-203 | after any run of flushes a row is the fold of the counters stored for it |
| TrafficHistory.LedgerAccountsForEverything | internal/service/traffic_service.go:282-347 | after any run of flushes that stored the counters of an engine's scrapes for a row, however traffic, engine restarts and scrapes interleaved: bytes of that row + what the next scrape adds + what was lost = bytes carried |
| TrafficHistory.NothingLostWithoutRestarts | internal/service/traffic_service.go:282-288 | without restarts that row stands at the counter as last scraped: its bytes are its snapshot, at most the bytes carried |
| TrafficHistory.AlwaysCovered | internal/store/traffic_store.go:289-303 | between whole flushes and resets, bytes are at least the snapshot in every row of every state |
| TrafficHistory.ResetIsUndoneIff | internal/store/traffic_store.go:289-303 | the flush after a reset makes the row what it would have been without it if and only if its bytes were its snapshot and the counter has not fallen since |
| TrafficHistory.ResetComesBack | internal/service/traffic_service.go:282-347 | so without an engine restart the next flush of a ledger run undoes every reset of the row |
| TrafficOverlap.AlwaysBalances | internal/service/traffic_service.go:213-329 | with any flushes overlapping step by step, failed reads, scrapes and commits included: history plus what the flushes under way still owe it is the ledger, label by label |
| TrafficOverlap.QuietStatesBalance | internal/service/traffic_service.go:213-329 | so whenever no flush is under way, history and ledger agree |
| TrafficOverlap.UncutRowsStayCovered | internal/store/traffic_store.go:289-303 | however flushes and resets interleave, a row counts at least its snapshot as long as no reset of it falls between a positive read of it and the commit |
| TrafficOverlap.UncutGlobalStaysCovered | internal/store/traffic_store.go:35-53 | the same for the global row |
| TrafficOverlap.CutReadUncoversIff | internal/store/traffic_store.go:289-303 | after a reset between read and commit the row is covered exactly when the snapshot read was zero or the counter has restarted since |
| TrafficOverlap.CutGlobalUncoversIff | internal/store/traffic_store.go:48-53 | posting the global row after a reset since the flush began leaves it covered if and only if there is nothing to post, what was read was zero, or the counters have fallen since |
| TrafficOverlap.CommitCoversIff | internal/store/traffic_store.go:182-203 | the exact condition for any commit: nothing moved, the counter has restarted, or the row still counts what was read |
| TrafficOverlap.ResetDuringAFlush | internal/store/traffic_store.go:289-295 | a trace from the empty tables: 100 counted, a counter of 150 read, a reset, the commit: 50 bytes under a snapshot of 150 |
| TrafficOverlap.CommitObservesIff | internal/service/traffic_service.go:331-347 | a commit writes what a flush at that moment would if and only if the snapshot it was computed against and the row's own give the same deltas |
| TrafficOverlap.RowFollowsIff | internal/service/traffic_service.go:290-329 | from any state of any interleaving, as long as a row is not reset, it stays the fold of what is committed to it if and only if every commit of it meets that condition |
| TrafficOverlap.TurnsKeepAgreement | internal/service/traffic_service.go:290-329 | while reads of an instance succeed and none of it is pending when another commits, what flushes have read of a row is what the row says, and every commit of it meets that condition |
| TrafficOverlap.ClosedFormUnderOverlap | internal/service/traffic_service.go:290-329 | in every interleaving, since the start or a reset between flushes of the instance, the closed form holds as long as the row is not reset, reads of the instance succeed and none is pending when another commits |
| TrafficOverlap.AccountingUnderOverlap | internal/service/traffic_service.go:282-347 | and with it: bytes + what the next scrape adds + what was lost = bytes carried |
| TrafficOverlap.OverlappingFlushesCountTwice | internal/service/container_service.go:1266-1271 | a trace from the empty tables: two flushes read before either commits, and the row counts the counter twice |
| TrafficOverlap.FailedReadCountsAgain | internal/service/traffic_service.go:309-310 | a trace from the empty tables: a failed read of the snapshots, which is ignored, counts an unmoved counter a second time |
| TrafficOverlap.FailedReadIsHarmlessIff | internal/service/traffic_service.go:309-310 | a failed read does no harm if and only if, in each direction, the row has no snapshot or the counter has fallen below it |
| TrafficOverlap.SoloFlushIsFlushed | internal/service/traffic_service.go:213-246 | the steps of one flush with nothing in between are the whole flush of the ledger model |
| TrafficLedger.RunIsBalanced | internal/service/traffic_service.go:213-329 | double entry over any run of flushes, failed scrapes and rolled-back instances included: every label's history rows sum to its ledger bytes over all instances, the empty label's also to the grand total |
| TrafficLedger.EmptyLabelIsGrandTotal | internal/service/traffic_service.go:266-280 | with no user of an empty label, the empty-label rows sum to the grand total alone |
| TrafficLedger.FlushTallies | internal/service/traffic_service.go:290-329 | what a flush adds to the ledger is what it accumulates, in total and per label |
| TrafficGlobal.GlobalEqualsLedger | internal/store/traffic_store.go:35-45 | with every instance scraped and committed and no counter falling, the global counter equals the ledger's grand total after any run |
| TrafficGlobal.SeenIsGrandTotal | internal/service/traffic_service.go:213-246 | in such a flush the sum of all live counters is the new grand total |
| TrafficTotals.GlobalClosedForm | internal/service/traffic_service.go:266-280 | over any run of flushes, failed scrapes and commits and restarts included, the global bytes are per direction the sum of the last values of the non-decreasing runs of the counters scraped in all, and the snapshot is the last of them |
| TrafficTotals.TotalRow | internal/service/traffic_service.go:266-280 | a flush that sees a connection or moves anything writes first one row with an empty label, the connections seen and the bytes the ledger grew by; else it writes none |
| TrafficTotals.ConnectionsAreBooked | internal/service/traffic_service.go:290-329 | over any run of flushes the history holds every connection count scraped |
| TrafficTables.FlushUsers | internal/store/traffic_store.go:182-203 | the upsert loop adds each delta and overwrites each snapshot, touching no other row |
| TrafficTables.ComputeUserDeltas | internal/service/traffic_service.go:331-347 | one entry, with both deltas and snapshots, exactly for the users that moved against the snapshots given |
| TrafficTables.SumLive | internal/service/traffic_service.go:290-329 | the loop sums both directions over all users |
| TrafficTables.MergeDeltas | internal/service/traffic_service.go:257-264 | merging deltas into the accumulator, in any visiting order |
| TrafficTables.HistoryRows | internal/store/traffic_store.go:206-236 | one row per label that moved, plus the total with an empty label |
| TrafficTables.TrafficStore.FlushInstanceTraffic | internal/store/traffic_store.go:168-180 | commits the instance's rows or leaves the table as it was |
| TrafficTables.TrafficStore.UpdateGlobal | internal/store/traffic_store.go:35-45 | adds to the global bytes and overwrites the snapshot |
| TrafficTables.TrafficStore.ResetTraffic | internal/store/traffic_store.go:289-295 | zeroes bytes and snapshots of exactly the rows of one label, and keeps the rows |
| TrafficTables.FlushOneInstance | internal/service/traffic_service.go:290-329 | one instance's step on the store and the accumulator is the specification's |
| TrafficTables.Flush | internal/service/traffic_service.go:213-246 | a flush nothing overlaps is a `Flushed` step of the ledger |
| TrafficTables.FlushAccumulator.FlushGlobal | internal/service/traffic_service.go:266-280 | updates the global row from the snapshot read when the flush began and appends the history batch, or nothing when there is nothing |
| EngineUpdate.OneRunOneBuild | internal/service/telemt_update_service.go:245-298 | in every reachable state at most one run is live, a build runs exactly while it is the one registered, and the cancel handle is that of the live run |
| EngineUpdate.CleanupClearsOwnHandle | internal/service/telemt_update_service.go:306-318 | a run's cleanup never clears another run's handle |
| EngineUpdate.BuildsWhatWasAsked | internal/service/telemt_config.go:41-117 | an update's build is for the pair it was asked for, however refreshes of the shared cache interleave |
| EngineUpdate.HowAnUpdateEnds | internal/service/telemt_update_service.go:300-384 | when a run ends nothing is updating, no handle is left, and the saved pair is the new one exactly when the build succeeded, else the previous one |
| EngineUpdate.CancelledUpdateChangesNothing | internal/service/telemt_update_service.go:300-384 | an update cancelled, or out of time, before it has saved its pair never registers or ends a build and leaves the previous pair |
| EngineUpdate.FlagCanComeDown | internal/service/telemt_update_service.go:306-318 | from every state of the invariant some path of at most 45 steps, none an operator's, brings the updating flag down: it is never stuck |
| EngineUpdate.FlagMeansRun | internal/service/telemt_update_service.go:245-298 | outside an `Apply` that has just set it, the flag is up exactly while a run is live |
| EngineUpdate.RunKeepsInv | internal/service/telemt_update_service.go:245-407 | the inductive invariant over every interleaving of Apply, run, Cancel, manual builds, CancelBuild and cache refreshes |
| EngineUpdate.ApplyGoesThrough | internal/service/telemt_update_service.go:245-298 | with no build in its way and no flag read, Apply's five steps raise the flag and start the run with its own handle |
| EngineUpdate.ApplyIsTurnedAway | internal/service/telemt_update_service.go:258-275 | seeing the flag or a registered build, Apply ends there and changes nothing |
| EngineUpdate.HandBuildExcludes | internal/service/docker_service.go:165-180 | a build by hand keeps every update and every other build away while it lasts and leaves no trace when it ends |
| EngineUpdate.ColdCacheReloads | internal/service/telemt_config.go:41-89 | an expired cache is filled from the settings as they are then, unset ones falling back, before anything is read from it |
| EngineUpdate.FailedReadAdmitsASecond | internal/service/telemt_update_service.go:258-267 | the flag is read under the caller's context and a failed read is ignored: an Apply whose caller is gone starts a second run whenever no build is registered |
| EngineUpdate.UninterruptedRun | internal/service/telemt_update_service.go:300-384 | a run nobody interferes with ends in `AfterRun`, for each outcome |
| EngineUpdate.ResetUnderARunAdmitsASecond | internal/service/telemt_update_service.go:141-153 | resetting the flag under a live run admits a second one, whose handle the first one's cleanup then takes |
| EngineUpdate.EditUnderARunIsLost | internal/api/handler/config_handler.go:117-166 | a version edit made while an update builds is overwritten when the build fails |
| EngineServices.EngineHost.BeginBuild | internal/service/docker_service.go:165-180 | refused exactly while a build is registered |
| EngineServices.EngineHost.BuildRunning | internal/service/docker_service.go:196-200 | whether a build is registered |
| EngineServices.EngineHost.BuildEngine | internal/service/docker_service.go:58-134 | builds what the configuration said, by the first attempt made that succeeds unless an earlier one ended the build; refused while another build is registered; unregisters in either case |
| EngineServices.EngineHost.CancelBuild | internal/service/docker_service.go:185-193 | succeeds exactly while a build is registered, ends its context, and leaves it registered |
| EngineServices.IsSafeGitRef | internal/service/docker_service.go:373-389 | safe exactly when not empty and, by code point, of letters, digits and "-./_" only |
| EngineServices.EngineHost.Refresh | internal/service/telemt_config.go:41-89 | leaves a warm cache alone, else reloads version, commit and repository with their fallbacks, keeping each that cannot be read |
| EngineServices.EngineHost.TelemtVersion | internal/service/telemt_config.go:91-96 | the cached version after a refresh |
| EngineServices.EngineHost.InvalidateCache | internal/service/telemt_config.go:113-117 | makes the next read reload |
| EngineServices.EngineHost.Apply | internal/service/telemt_update_service.go:245-298 | starts a run exactly when version and commit are safe, no run is seen up and nobody builds, with flag, handle and a fresh context; otherwise changes nothing, as a path of the protocol |
| EngineServices.EngineHost.Cancel | internal/service/telemt_update_service.go:397-407 | succeeds exactly with a handle; ends the context of its run and of no other; repeating it changes nothing more |
| EngineServices.EngineHost.ResetStaleUpdate | internal/service/telemt_update_service.go:141-153 | clears the flag, as the protocol's step |
| EngineServices.EngineHost.RunUpdateBackground | internal/service/telemt_update_service.go:300-384 | ends where `UninterruptedRun` says the protocol ends: flag down, no handle, the new pair exactly after a build of an uncancelled run |
| Upstreams.FailCountIsTrailing | internal/store/upstream_store.go:164-224 | after any sequence of statements fail_count is the number of failures since the last success, manual disable or automatic recovery, and an auto-disabled row is not enabled |
| Upstreams.TrailingMeans | internal/store/upstream_store.go:164-181 | `Trailing` is the length of the longest suffix of failures |
| Upstreams.OnlyThreeFailuresDisable | internal/service/upstream_service.go:102-131 | over any run of operations an upstream is auto-disabled only when its last three recorded results are failures |
| Upstreams.SwitchedOffStaysOff | internal/service/upstream_service.go:293-317 | over any run of operations an upstream switched off by hand is not put to use again, by no round of checks in particular, until it is switched on by hand or its name is inserted anew |
| Upstreams.CheckAllIsRowwise | internal/service/upstream_service.go:165-194 | a round of checks does to each row what `CheckedRow` says, independently of the others and of the order |
| Upstreams.RoundLeavesNoFailing | internal/service/upstream_service.go:181-194 | after a round every enabled upstream has fail_count below 3 |
| Upstreams.EngineAlwaysAccepts | internal/service/upstream_service.go:57-85 | over any run, whatever is written for the setting, the engine never has Middle-Proxy on with an enabled shadowsocks upstream |
| Upstreams.GateKeepsUnused | internal/service/upstream_service.go:133-163 | while the service reads Middle-Proxy as on, no operation puts a shadowsocks upstream to use |
| Upstreams.StrictGateKeptIff | internal/api/handler/config_handler.go:228-244 | the service's own reading of the setting is kept by every operation except exactly a write of another value than "true" and "false" while shadowsocks is in use |
| Upstreams.StaleRecoveryOpensTheGate | internal/service/upstream_service.go:133-163 | a recovery decided on a stale row, overtaken by three operations, enables shadowsocks under Middle-Proxy |
| Upstreams.LateRecoveryIsHarmlessIff | internal/service/upstream_service.go:133-163 | whatever was listed and whatever happened since, a late recovery breaks the engine's condition if and only if it was admitted and its upstream is shadowsocks by then with the engine's setting on |
| Upstreams.LateSuccessIsOverruled | internal/service/upstream_service.go:102-131 | a success between reading the count and disabling does not save the upstream |
| Upstreams.LateDisableIsJustifiedIff | internal/service/upstream_service.go:102-131 | whatever is recorded before it executes, a disable follows three failures if and only if the count it meets is still three |
| UpstreamHost.UpstreamService.Add | internal/service/upstream_service.go:207-239 | adds exactly a valid, admitted, new upstream |
| UpstreamHost.UpstreamService.Update | internal/service/upstream_service.go:257-278 | rewrites an existing upstream, keeping its name and enabled state |
| UpstreamHost.UpstreamService.Toggle | internal/service/upstream_service.go:293-317 | on the row: off clears enabled state, automatic state and count; on sets enabled, clears automatic state and keeps the count, and is refused exactly for a blocked shadowsocks row; kind and all other rows stay |
| UpstreamHost.UpstreamService.AddMultiple | internal/service/upstream_service.go:726-768 | one invalid entry rejects the batch; else each new admitted name gets an enabled row of its first entry's kind, rows that were there stay, and the blocked names are returned |
| UpstreamHost.NewAreInserted | internal/store/upstream_store.go:229-262 | the names inserted are the batch's names that were not taken before |
| UpstreamHost.NewInOrder | internal/store/upstream_store.go:229-262 | entry by entry, in order: returned as inserted if its name is neither in the table nor an earlier entry's |
| UpstreamHost.UpstreamService.Remove | internal/service/upstream_service.go:281-290 | deletes an existing row only |
| UpstreamHost.UpstreamService.Test | internal/service/upstream_service.go:320-337 | records the result of a manual test |
| UpstreamHost.UpstreamService.EnsureShadowsocksAllowed | internal/service/upstream_service.go:77-85 | refuses exactly shadowsocks while the setting is not "false" |
| UpstreamHost.UpstreamService.HandleFailover | internal/service/upstream_service.go:102-131 | disables exactly an enabled row with three failures |
| UpstreamHost.UpstreamService.HandleAutoRecovery | internal/service/upstream_service.go:133-163 | re-enables unless the listed type is blocked |
| UpstreamHost.UpstreamService.CheckUpstream | internal/service/upstream_service.go:165-178 | issues the statements of one check |
| UpstreamHost.UpstreamService.CheckAllUpstreams | internal/service/upstream_service.go:181-194 | on every row of the listing: switched off by hand it is skipped; a success clears the count and puts an automatically disabled row back unless blocked; the third failure in a row takes an enabled one out |
| UpstreamHost.UpstreamService.CreateMultiple | internal/store/upstream_store.go:229-262 | inserts in order, ignoring taken names, and returns what it inserted |
| UpstreamHost.UpstreamService.UpdateHealth | internal/store/upstream_store.go:164-181 | zeroes or increments the count of the named row |
| UpstreamHost.UpstreamService.Configure | internal/api/handler/config_handler.go:228-244 | refuses "true", and only that, while an enabled shadowsocks upstream exists |
| UpstreamHost.UpstreamService.UseMiddleProxy | internal/store/settings_store.go:223-229 | the engine's reading of the setting: on when unset or "true" |
| ProxyLine.AcceptsExactlyTheGrammar | internal/service/upstream_service.go:513-620 | the parser returns an upstream if and only if the line is a printed line of the grammar with white space around it, and then what that line means |
| ProxyLine.PrintedLineParses | internal/service/upstream_service.go:513-573 | printing then parsing, for every well-formed line and any padding |
| ProxyLine.ParsedLinePrints | internal/service/upstream_service.go:513-573 | every accepted line is a printed one |
| ProxyLine.BracketFormParses | internal/service/upstream_service.go:577-596 | the bracketed IPv6 form, with and without the colon before the port, gives back its fields |
| ProxyLine.ColonFormParses | internal/service/upstream_service.go:601-620 | the host:port:user:pass form gives back its fields, colons in the password included |
| ProxyLine.NotationsAgree | internal/service/upstream_service.go:533-562 | credentials in front of and behind the same host:port parse alike |
| ProxyLine.BracketNotationsAgree | internal/service/upstream_service.go:577-596 | the same for a bracketed IPv6 host |
| ProxyLine.SchemesByName | internal/service/upstream_service.go:513-531 | socks5:// and no scheme make a socks5 upstream, socks4:// a socks4 one, of weight 10 |
| ProxyLine.UrlIsKept | internal/service/upstream_service.go:518-521 | a line that starts with ss:// is kept whole |
| ProxyLine.FieldsByNotation | internal/service/upstream_service.go:533-620 | what each notation puts into address, user name and password |
| ProxyLine.PlainLinesAccepted | internal/service/upstream_service.go:533-620 | a host and port free of ":", "@" and brackets are accepted with and without a user, in front or behind |
| ProxyLine.BracketedLinesAccepted | internal/service/upstream_service.go:577-596 | a bracketed host with its port is accepted with and without the colon between them, and with a user behind |
| HostPort.SplitHostPortIff | internal/service/upstream_service.go:567-570 | the address check accepts exactly host:port and [host]:port without stray brackets or colons, and returns those parts |
| Dashes.CollapseDashes | internal/service/upstream_service.go:714-719 | the replace-until-stable loop ends and equals the one-pass squeeze of dash runs |
| Dashes.ReplaceKeepsSqueeze | internal/service/upstream_service.go:714-719 | one round of replacement does not change the squeeze |
| BulkName.NameShape | internal/service/upstream_service.go:630-649 | for every upstream the name is prefix, collapsed middle and hash; no double and no outer dash |
| BulkName.DecimalNameShape | internal/service/upstream_service.go:630-649 | for a decimal port: prefix, host if any, port and hash joined by single dashes |
| BulkName.NameEnds | internal/service/upstream_service.go:630-649 | every name ends with a dash and the eight-digit identity hash |
| BulkName.NameFits | internal/service/upstream_service.go:630-649 | for every upstream the name has at most 32 bytes if and only if prefix and collapsed port between dashes have at most 24 |
| BulkName.DecimalNameFits | internal/service/upstream_service.go:630-649 | for a decimal port: if and only if prefix and port have at most 22, hence for every port of at most 18 digits |
| BulkName.SameNameIffSameHash | internal/service/upstream_service.go:687-698 | same kind, host and port: one name if and only if the 32-bit hashes agree; a shared name always means a shared hash |
| BulkName.CredentialsCanCollide | internal/service/upstream_service.go:622-629 | the promised distinctness of names fails: user names with "Aa" and "BB" at the same place share hash and name |
| BulkName.IdentityDetermines | internal/service/upstream_service.go:687-698 | the NUL-separated identity itself loses nothing but the weight |
| BulkName.UpstreamIdentityHash | internal/service/upstream_service.go:687-698 | the loop computes the wrapped polynomial, printed in eight digits |
| BulkName.SanitizeHostSegment | internal/service/upstream_service.go:702-712 | the loop's result is the squeezed, trimmed host |
| BulkName.GenerateBulkUpstreamName | internal/service/upstream_service.go:630-649 | the steps compute `NameOf` |
| BulkParts.NameStarts | internal/service/upstream_service.go:630-649 | every name begins with the prefix of its kind and a dash |
| BulkParts.SanitizedKeeps | internal/service/upstream_service.go:702-712 | a sanitized host keeps the host's ASCII letters and digits in order, with single dashes between them and nothing else |
| BulkParts.HostIsKept | internal/service/upstream_service.go:630-649 | a sanitized host that fits into what the rest leaves of 32 bytes is kept whole, else all of it that fits, less at most one dash |
| BulkParts.HostAndPort | internal/service/upstream_service.go:651-685 | host and port are the two parts of the address, or all of it and 0 |
| BulkParts.ShadowsocksHostAndPort | internal/service/upstream_service.go:396-411 | of a shadowsocks URL: the two parts of what stands between the last @ and the first of # / ? behind it |
| BulkParts.IdentityInFull | internal/service/upstream_service.go:687-698 | what is hashed: kind, address, user name, password, interface and, if any, URL, with NUL between them |
| BulkParts.HashSpellsPolynomial | internal/service/upstream_service.go:687-698 | the eight digits spell the polynomial in 31 over the identity's bytes, as 32 bits hold it |
| BulkParts.Utf8Decodes | internal/service/upstream_service.go:694-697 | the bytes of a character are its UTF-8 encoding: they decode to its code point |
| ShellQuote.CommandRoundTrip | internal/service/update_service.go:724-730 | for every list of strings the shell reads the built command line back as exactly that list |
| ShellQuote.EscapedReads | internal/service/replication_service.go:218-220 | a quoted string extends the token under way by exactly that string |
| ShellQuote.MountIsWords | internal/service/update_service.go:695-709 | each mount argument is one word: its paths joined by colons, with :ro when read-only |
| ShellQuote.RecreateArgumentsRoundTrip | internal/service/update_service.go:632-722 | all container flags, image and command as placed in the recreate script are read as the words of the flags, the image and the command |
| ShellQuote.WordsInFull | internal/service/update_service.go:632-693 | those words in full: each setting of the old container under its own option, in order, none for what is not set; the restart policy "no" counts as not set |
| ShellQuote.MountsInFull | internal/service/update_service.go:695-709 | the words of the mounts: a volume by name, a bind by path, read-only where it was |
| ShellQuote.PortsInFull | internal/service/update_service.go:711-722 | the words of the published ports: address (0.0.0.0 when empty), container port and host port |
| ShellQuote.BuildContainerFlags | internal/service/update_service.go:649-693 | the steps append every flag in order, each only when it has a value |
| ShellQuote.AppendPortFlags | internal/service/update_service.go:711-722 | the loop appends the flags of the published ports in order |
| ShellQuote.CommandLinesDiffer | internal/service/update_service.go:724-730 | different lists give different lines |
| ShellQuote.BuildCmdString | internal/service/update_service.go:724-730 | the loop joins the quoted strings by blanks |
| ShellQuote.AppendMountFlags | internal/service/update_service.go:695-709 | the loop appends the flags of bind and volume mounts in order |
| MessageSplit.SplitMessage | internal/bot/bot.go:502-551 | text = gap, chunk, gap, ..., gap with gaps of newlines only; chunks non-empty and at most 4000 long unless one longer line; all chunks within the limit if and only if all lines are; no chunk if and only if the text is an even number of newlines; with all paragraphs within the limit cuts are at paragraph breaks only and no two neighbours would fit together |
| MessageSplit.SplitLines | internal/bot/bot.go:516-533 | a paragraph over the limit is read line by line without losing more than newlines, and leaves no new pair of neighbours that could have been one |
| MessageSplit.ChunksFitIffLinesFit | internal/bot/bot.go:499-551 | the limit of 4000 is kept by all chunks of a split if and only if it is kept by all lines of the text |
| MessageSplit.OneLongLine | internal/bot/bot.go:516-533 | a text that is one line of 4001 characters has a longer chunk |
| MessageSplit.OnlyEvenNewlinesAreSilent | internal/bot/bot.go:507-551 | all paragraphs are empty if and only if the text is an even number of newlines; over the limit those are the texts without a chunk |
| MessageSplit.NothingElseIsLost | internal/bot/bot.go:502-551 | every character but newlines is sent, once, in order |
| Scheduling.RunStaysInSync | internal/service/scheduler_service.go:99-141 | after any requests that do not overlap, every task on by default runs on exactly the schedule a restart would give it |
| Scheduling.OverlapInSyncIff | internal/service/scheduler_service.go:123-141 | whatever requests interleave their writes, a task on by default ends in sync if and only if the last save and the last apply want the same of it |
| Scheduling.OverlappingRequestsDisagree | internal/service/scheduler_service.go:99-141 | one request to enable and one to disable, both read before either writes: the store says on and the task is off |
| Scheduling.UpdateIsTwoWrites | internal/service/scheduler_service.go:123-141 | a request on its own is its save and its apply, one after the other |
| Scheduling.UpdateInSyncIff | internal/service/scheduler_service.go:123-141 | live and rebuilt agree after an update except exactly when a task off by default was enabled with its default schedule |
| Scheduling.RunsAsLastAsked | internal/service/scheduler_service.go:63-141 | from a fresh start and for requests that do not overlap, a task on by default runs exactly if last asked to, on the schedule last asked for |
| Scheduling.StoreKeepsWish | internal/store/scheduler_store.go:65-87 | dropping overrides that equal the default loses nothing of what was asked |
| Scheduling.EnabledTaskIsOffAfterRestart | internal/scheduler/scheduler.go:103-124 | enabling a task that is off by default does not survive a restart |
| Scheduling.ReschedulingTurnsOn | internal/service/scheduler_service.go:110-126 | only changing such a task's schedule turns it on |
| SchedulerHost.Scheduler.StartWith | internal/scheduler/scheduler.go:90-137 | afterwards a task has a live entry, on its stored or else its built-in schedule, exactly when it can run, is on by its override or else by default, and cron accepts that schedule; no other entry is live |
| SchedulerHost.Scheduler.AddOrUpdateTask | internal/scheduler/scheduler.go:147-169 | replaces the task's entry and leaks none |
| SchedulerHost.Scheduler.RemoveTask | internal/scheduler/scheduler.go:172-180 | removes the task's entry and nothing else |
| SchedulerHost.Scheduler.AddTaskToCron | internal/scheduler/scheduler.go:277-287 | adds one entry if cron accepts the expression |
| SchedulerHost.Scheduler.ApplyTaskRuntime | internal/service/scheduler_service.go:63-96 | the live entry becomes what the override says |
| SchedulerHost.Scheduler.UpdateTask | internal/service/scheduler_service.go:99-141 | an inadmissible request changes nothing; else store and live entry become what the request, the stored override and the built-in setting say together, field by field, and no other task's change |
| ApiPorts.InstanceStore.BackfillAPIPorts | internal/store/instance_store.go:148-183 | ends; only missing ports are filled, first fit, in order and free of every port in use; all are filled unless a row's update fails, and then exactly the rows before it, which the count counts |
| ApiPorts.InstanceStore.Skip | internal/store/instance_store.go:169-171 | the first number not in use |
| ApiPorts.InstanceStore.CollectUsed | internal/store/instance_store.go:154-165 | exactly the ports in use, and the start of the scan |
| ApiPorts.NewPortsAreUnique | internal/store/instance_store.go:143-147 | a new port differs from every port, metrics port and other API port |
| ApiPorts.NewPortsAreLow | internal/store/instance_store.go:148-183 | with n instances every new port is from 19091 on, above every port assigned before, and below max(19091, highest assigned + 1) plus 3n |
| ApiPorts.FillingKeeps | internal/store/instance_store.go:148-183 | ports, metrics ports and API ports already assigned stay as they are |
| ApiPorts.FilledTwice | internal/store/instance_store.go:147-147 | a table with no port missing is left as it is |
| ApiPorts.NewPortsArePortsIff | internal/store/instance_store.go:148-183 | all new numbers are ports if and only if the rows filled are no more than the free ports from the start of the scan to 65535 |
| ApiPorts.HighPortsRunOver | internal/store/instance_store.go:154-165 | next to an API port 65535 no port is free, and every new number exceeds the range |
| Secrets.LastSecretStays | internal/service/secret_service.go:93-161 | from any state with an enabled secret, every run of Add, Clone, Import, unforced Remove, Toggle, BulkToggle, DisableExpired, CheckExpirations and CheckQuotas leaves one enabled |
| Secrets.SweepLeaves | internal/service/traffic_service.go:434-467 | a sweep leaves enabled what it does not hit, or the last listed one when it hits all |
| Secrets.SweepIsSafe | internal/service/traffic_service.go:406-467 | a sweep empties no table, enables nothing, and spares a hit only as the sole survivor |
| Secrets.SweepSwitchesOff | internal/service/traffic_service.go:406-467 | on the rows: what is due is switched off and nothing else changes, but if all that is enabled is due the one listed last stays on |
| Secrets.BatchIsSweep | internal/store/secret_store.go:234-271 | for the same expired secrets in the same order the store's batch expiry equals the sweep |
| Secrets.PassesAgreeIff | internal/store/secret_store.go:234-300 | the periodic check and the batch, each with its own reader and listing order, leave the same table if and only if they see the same secrets expired and spare the same one where that is all, or the batch spares just the one the check cannot read |
| Secrets.PassesAgreeOnDates | internal/service/traffic_service.go:434-467 | in one order they agree at every moment when no enabled secret has an expiry only the batch can read |
| Secrets.ExtendedSecretsOutliveTheCheck | internal/service/secret_service.go:369-385 | a secret with a time of day as expiry, as every extension writes, is never disabled by the periodic check; the batch disables it unless it hits all |
| Secrets.BulkRefusalIff | internal/store/secret_store.go:546-592 | bulk disabling is accepted if and only if the labels, duplicates counted, are fewer than the enabled secrets; exact for distinct labels |
| Secrets.DuplicateIsRefused | internal/store/secret_store.go:546-592 | naming one of two enabled secrets twice is refused although harmless |
| Secrets.PercentTests | internal/service/traffic_service.go:381-403 | for every total: pct >= 100 iff the product 100 * total, wrapped to int64, is at least 100 * quota, and likewise for 80 |
| Secrets.PercentIsExact | internal/service/traffic_service.go:381-403 | while 100 * total fits an int64: pct >= 100 iff total >= quota, pct >= 80 iff 5 * total >= 4 * quota |
| Secrets.PercentTurnsNegative | internal/service/traffic_service.go:381-403 | up to twice that range the quota test is right if and only if there is no overflow or the quota is not used up |
| Secrets.Wraps | internal/service/traffic_service.go:381-403 | the wrapped product is the one int64 that differs from it by a multiple of 2 to the 64th |
| Secrets.QuotaCheckDisables | internal/service/traffic_service.go:349-419 | a check disables exactly the enabled, not yet alerted secrets whose wrapped product reaches the quota, which are those at or over it while the product fits, save a sole survivor |
| Secrets.AlertedIsNeverDisabledAgain | internal/service/traffic_service.go:349-368 | no quota check changes a secret already alerted |
| Secrets.SparedForGood | internal/store/alert_store.go:35-39 | a secret spared as the last one stays enabled over its quota through every later check |
| Secrets.OverlapKeepsOneIff | internal/service/secret_service.go:139-161 | however any number of requests to disable a secret interleave their counts and updates, one secret is still enabled in the end if and only if no request passed its count when, with those under way, it took all that was enabled |
| Secrets.OneAtATimeNeverOverdraws | internal/service/secret_service.go:146-155 | with no other request under way the count is guard enough |
| Secrets.OverlappingTogglesLoseAll | internal/service/secret_service.go:139-161 | two requests that have both counted two before either writes disable both |
| SecretHost.SecretService.Remove | internal/service/secret_service.go:93-113 | deletes exactly that row, unless it is the last enabled secret |
| SecretHost.SecretService.Toggle | internal/service/secret_service.go:139-161 | sets exactly that row's enabled state; refuses to disable while at most one is enabled |
| SecretHost.SecretService.BulkToggle | internal/service/secret_service.go:596-611 | both guards, then exactly the rows named, and only their enabled state |
| SecretHost.SecretService.BulkToggleEnabled | internal/store/secret_store.go:546-592 | the counting loop and the update loop of the store |
| SecretHost.SecretService.CheckExpirations | internal/service/traffic_service.go:434-467 | the loop over the listing is the sweep: exactly the enabled secrets whose date is past are switched off, but the last listed when that is all of them |
| SecretHost.SecretService.CheckQuotas | internal/service/traffic_service.go:406-419 | the loop over the listing is the sweep: exactly the enabled, not yet alerted secrets whose wrapped product reaches the quota are switched off and marked, but the last listed stays on when that is all of them |
| SecretHost.SecretService.CheckSecretQuota | internal/service/traffic_service.go:349-403 | one row as listed: over quota and not alerted, it is disabled unless last, and marked either way |
| SecretHost.SecretService.DisableExpired | internal/store/secret_store.go:234-271 | collects, drops the last when all would go, disables the rest: exactly those past their date or time of day, but the last listed when that is all of them |
| SecretHost.SecretService.ImportSecrets | internal/service/secret_service.go:532-575 | within the maximum of 1000: what is there stays, each new label among the valid entries becomes an enabled secret with the quota and expiry of its first entry |
| SecretHost.SecretService.Add | internal/service/secret_service.go:43-90 | adds exactly one enabled secret with a new valid label below the maximum of 1000 |
| SecretHost.SecretService.Clone | internal/service/secret_service.go:430-480 | copies an existing secret, its enabled state included |
| VersionOrder.NewerIsStrictOrder | internal/service/docker_update_service.go:160-212 | irreflexive, asymmetric and transitive over all strings |
| VersionOrder.NeitherNewerIffSame | internal/service/docker_update_service.go:160-212 | neither is newer if and only if numbers and pre-release are the same |
| VersionOrder.TrailingZeroIsNothing | internal/service/docker_update_service.go:185-202 | a trailing ".0" changes no comparison |
| VersionOrder.LeadingVIsNothing | internal/service/docker_update_service.go:160-166 | one "v" in front changes no comparison, on either side |
| VersionOrder.PartReads | internal/service/docker_update_service.go:185-202 | a part is blanks, a sign, a number and anything else; the number counts with its sign, and for zero beyond int64 |
| VersionOrder.FollowsSemanticVersioning | internal/service/docker_update_service.go:160-212 | on X.Y.Z with or without a "v" in front and a pre-release behind: items 2 and 3 of section 11 of Semantic Versioning 2.0.0, pre-releases compared as text |
| VersionOrder.NumericPreReleasesInOrderIff | internal/service/docker_update_service.go:204-212 | of two numbers behind the same pre-release text the larger is newer if and only if the smaller is at most the larger without its extra trailing digits |
| VersionOrder.NumbersInPreReleasesAreText | internal/service/docker_update_service.go:204-212 | so item 4 of that section is not followed: rc.10 comes before rc.9 |
| VersionOrder.HugeNumbersReadAsZero | internal/service/docker_update_service.go:185-202 | a number beyond int64 compares as zero |
| VersionOrder.CompareNumericParts | internal/service/docker_update_service.go:185-202 | the loop's sign is that of the first difference, missing parts counting as zero |
| VersionOrder.IsVersionNewer | internal/service/docker_update_service.go:160-176 | answers yes exactly when `Newer` holds, and no when either is empty |

## Left out

- ReloadZeroDowntime's goroutines, mutexes and contexts: its interleavings are those of the transition system, not Go's memory model.
- Container crashes and process crashes in the middle of an update, and the proxy restart after a successful build.
- SwingHost.ContainerHost.AddPortRedirect: the rules are a set; a second copy of a rule, which a failed existence check can add, is not modelled.
- TrafficHistory.ResetComesBack: whether the engine's scraped counter drops when its quota is reset is the engine's own and is not modelled.
- SwingHost.ContainerHost.Drain: how many of the 36 ticks the timer leaves room for is a parameter.
- EngineServices.EngineHost.BuildEngine: what each attempt to obtain an image meets is a parameter; a build started by hand is a pair of protocol steps.
- EngineServices.EngineHost.RunUpdateBackground: the settings are read successfully; failing reads are modelled in `Refresh` only.
- TrafficTables.Flush: timestamps of history rows are omitted and connection counts are taken as given; history cleanup is not modelled.
- TrafficTables.Flush: counters are unbounded, so int64 wrap-around of totals is not modelled.
- UpstreamHost.UpstreamService.AddMultiple: validation of an entry is a flag of the entry; weights, interfaces and dual-stack fields are not modelled.
- UpstreamHost.UpstreamService.CheckAllUpstreams: the connectivity tests are a set of names that answer; hot reloads and notifications are not modelled.
- ProxyLine.AcceptsExactlyTheGrammar: error messages are not characterised beyond the lines that are refused.
- BulkName.NameShape: invalid UTF-8 in hosts is not modelled.
- ShellQuote.CommandRoundTrip: the reader rejects unquoted special characters instead of giving their meaning; the echo lines of the script are not covered; strings a shell cannot hold (NUL) are not excluded.
- ShellQuote.RecreateArgumentsRoundTrip: memory and CPU limits are taken as formatted; that the words of a longer entrypoint do not all reach the `--entrypoint` option is Docker's reading, not the shell's.
- SchedulerHost.Scheduler.UpdateTask: which cron expressions are valid is a parameter, the validated ones among the accepted; running tasks, timeouts and history are not modelled.
- SecretHost.SecretService.CheckQuotas: the warning at 80 percent changes no secret and is left to `PercentIsExact`; engine notification is not modelled.
- SecretHost.SecretService.Add: key generation and validation are a flag; connection limits, tags, notes and archiving do not affect the rule.
- SecretHost.SecretService.CheckExpirations: an expiry text is given as what its readers make of it (none, a date, a time of day, unreadable); parsing the layouts is not modelled.
- TrafficOverlap.AlwaysBalances: history writes succeed, and resets are left out, which clear the ledger and not the history.
- Forced removal of secrets and the bot's own removal, which bypass the last-secret rule by design.
- JWT, CORS, rate limiting, backup, self-update download, geoblocking, resource monitoring, bot commands, templates and audit: plumbing whose models would only add easy members.
