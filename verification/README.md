# AgentTower, modelled in Dafny

AgentTower is a daemon that discovers tmux panes in containers, registers agents on them, and turns log lines into
events.  This project models the state machines at its core and proves what they keep over every input, every run
and every interleaving.  `dafny verify dfyconfig.toml` checks all of it.

| module | models |
|---|---|
| `Panes`, `PaneReconcile`, `PaneTable`, `PaneScan`, `ScanErrors` | one pane scan: the questions asked, the rows built, the fate of every prior row, the write, the errors reported |
| `PaneRows`, `ScanFindings` | what every row shows after a scan, and what the scan reports, in terms of tmux's answers |
| `Registry`, `RegistryLaws`, `AgentRules` | the agent registry's transactions, what each of them keeps, refuses and writes |
| `Transactions`, `AgentHistory`, `AuditLog`, `Overtaking`, `ScanWindow`, `SwarmParents` | scans, registrations, setters and audit appends as steps of one system, in any order |
| `FlipRun`, `OverlapRun`, `ParentDepth` | particular runs of that system |
| `Debounce`, `DebounceEvents` | the windowed collapser of activity records, and its events field by field |
| `EventQuery`, `EventColumns` | keyset pagination, and its order and pages on the three columns |
| `Cursor`, `CursorText`, `Base64`, `Json`, `Text` | the cursor token down to its characters and bytes |
| `Scans`, `ScanThreads`, `ScanOutcomes` | the scan registry, any number of handler and worker threads on it, and what their answers mean |
| `Idempotency`, `SendInput`, `SendOutcomes` | the dedupe store, `app.send_input` on top of it, and when a send succeeds |
| `Locks` | per-key locks, `acquire_in_order`, and waiting |
| `Excerpt`, `RateLimit` | byte-safe truncation; the bad-lookup limiter |
| `OrderedDicts` | Python's ordered dictionaries |

Code that changes things step by step is a class or a method with loops, proved equal to a specification function; the
theorems are about runs of those functions.  Clock values, random ids, the adapter's answers, whether an append or a
transaction fails, and whether a lock comes in time are inputs.

What is not true of the code, and the exact condition under which it is:

- A pane scan reads the active containers and the inactive ones in two queries.  Its promise to reconciliation fails
  exactly when a container with a socket is read as active and then as inactive (`PaneScan.GuaranteeIff`); a pane that
  tmux lists then ends inactive (`PaneScan.ListedButCascaded`, in a run: `FlipRun.FlipHidesListedPane`), and scanning
  again is not a fixpoint (`PaneTable.FixpointIff`).  Only then can a row be inactivated twice, or inactivated or touched
  as well as upserted (`PaneTable.OneActionEach`).
- `panes_newly_active` counts upserts and `panes_reconciled_to_inactive` counts list entries, so a key can be counted
  twice by either: by the first when two panes share a key (`Panes.KeysCollide`), by the second when an active row's
  socket was scanned without it and its container is in the cascade (`PaneTable.TwiceIff`).  The counters balance exactly
  when there are as many of the one as of the other (`PaneTable.CountersBalanceIff`); a run in which they do not is
  `FlipRun.FlipUnbalancesCounters`.  A log attachment on a row listed twice is audited twice (`RegistryLaws.StaleAudits`).
- Having a parent does not imply the role swarm (`SwarmParents.ParentedSlave`).  A step keeps that implication exactly
  when it is not a `set_role` that changes the role of an agent with a parent (`SwarmParents.SwarmKeptIff`), and an agent
  with a parent is swarm exactly when no `set_role` made the last change of its role (`SwarmParents.ParentedSwarmIff`).
- The audit log can disagree with the commit order when a registration overlaps a `set_role` of the same agent
  (`Overtaking.LogCanDisagree`, in a run: `OverlapRun.OverlapBreaksLog`).  Where appends work, an agent's rows in the log
  chain exactly when each was appended before any later one of that agent (`Overtaking.LogChainsIff`).
- Registering with a log attachment takes agent and path locks while it holds the database; other operations take them
  before it.  Waiting is free of cycles exactly when no two operations do that with the same lock (`Locks.CycleFreeIff`).
- The cursor round trip changes a timestamp that holds a surrogate pair as two code points (`Cursor.RoundTripIff`).
- The schema admits an empty `observed_at`, after which no cursor can be made.  A walk over a fixed table is rejected
  exactly when a page that is not the last ends at such a row, or at an id out of the cursor's range
  (`EventQuery.WalkOverFixedTable`; a table: `EventQuery.EmptyTimestampRejects`).
- A cursor by event id alone governs one page; the next resumes by key.  The walk is exact exactly when every matching
  row with a later id has a later key, and matching rows with a later key but no later id come only after a full first
  page (`EventQuery.IdCursorExactIff`); else it skips a row or comes back to one (`EventQuery.IdCursorSkipsAndRepeats`).
- `ScanCapExceeded` and a done event on a running scan are reachable only under small caps
  (`ScanThreads.CapUnreachableIff`, `ScanThreads.DoneIsFinishedIff`).
- Not every running scan can finish.  One can exactly when the registry still lists its record and its worker has not
  died of an exception in turning the result into a dictionary (`ScanThreads.FinishableIff`); runs that lose a worker and
  runs that evict a running record are `ScanThreads.WorkerDies` and `ScanThreads.SomeRunningEvicted`.  Under the shipped
  caps one dead worker blocks its kind of scan for good: every call is answered with the dead record
  (`ScanThreads.DeadBlocksKind`, `ScanThreads.DefaultCaps`).
- `is_rate_limited` documents a sliding window; the code restarts a fixed one, which admits up to twice the threshold.
  Its bound fails exactly when a restart falls within the stretch and the two sides add up past the threshold
  (`RateLimit.SlidingBoundIff`, `RateLimit.TwiceThresholdIsReached`).

## Model

| member | source | states |
|---|---|---|
| `Panes.SanitizeText` | src/agenttower/tmux/parsers.py:47-76 | the loop gives the cleaned text cut to the limit, and reports truncation exactly when the cleaned text was longer |
| `Panes.FitTwice` | src/agenttower/tmux/parsers.py:59-76 | stored text is within its limit, has no control character, and is stored again unchanged |
| `Panes.KeysCollide` | src/agenttower/discovery/pane_reconcile.py:227-232 | panes whose ids differ in a dropped control character get the same row key |
| `Panes.BuildUpsert` | src/agenttower/discovery/pane_reconcile.py:200-247 | the row and the truncation notes of a parsed pane, field by field in order |
| `Panes.NotedIff` | src/agenttower/discovery/pane_reconcile.py:210-222 | a field is shortened if and only if a note says so, to exactly its limit, and the note names the socket, the pane, the field and its full length |
| `Panes.SightAll` | src/agenttower/discovery/pane_reconcile.py:74-91 | the rows of every successful socket, in scan order, and nothing for failed ones |
| `Panes.RowsForKeys` | src/agenttower/discovery/pane_reconcile.py:81-91 | a socket's rows are on that socket, and a key is among them if and only if some pane sanitizes to it |
| `PaneReconcile.Reconcile` | src/agenttower/discovery/pane_reconcile.py:54-197 | for every key, how many times it is inactivated and touched, as a sum over the independent reasons; the upserts in order; every counter |
| `PaneReconcile.Successful` | src/agenttower/discovery/pane_reconcile.py:74-105 | an active row is listed once if and only if its socket was scanned without it; the count of newly active upserts |
| `PaneReconcile.Failed` | src/agenttower/discovery/pane_reconcile.py:111-121 | a row is touched once if and only if its socket failed in a reachable container |
| `PaneReconcile.Unavailable` | src/agenttower/discovery/pane_reconcile.py:127-133 | every row of an unreachable container outside the cascade is touched once |
| `PaneReconcile.Cascade` | src/agenttower/discovery/pane_reconcile.py:138-145 | every row of a cascade container is inactivated once if active and touched once if not |
| `PaneReconcile.Disappeared` | src/agenttower/discovery/pane_reconcile.py:155-173 | the same for rows whose socket a scanned, reachable container no longer has |
| `PaneReconcile.UpsertedIff` | src/agenttower/discovery/pane_reconcile.py:81-91 | a key is upserted if and only if a successful scan of its socket listed it |
| `PaneTable.PaneStore.ApplyWriteSet` | src/agenttower/state/panes.py:233-295 | the table after upserts, touches and inactivations, in that order |
| `PaneTable.AppliedAt` | src/agenttower/state/panes.py:244-295 | which rows exist and are active afterwards; first sightings are kept; rows with no action are untouched |
| `PaneTable.InactivatedIff` | src/agenttower/discovery/pane_reconcile.py:98-173 | a row is inactivated if and only if it was active and its socket was scanned without it, or its container is in the cascade, or its socket is gone |
| `PaneTable.OneActionEach` | src/agenttower/discovery/pane_reconcile.py:74-173 | counting its upserts, however many, as one action, and every inactivation and touch, a key gets at most two; two if and only if its row is active or listed and its socket was scanned in a container that counts as unavailable or is in the cascade; at most one under the scan's promise |
| `PaneTable.FailedScanKeeps` | src/agenttower/discovery/pane_reconcile.py:111-121 | a failed scan of its socket changes nothing of a row but its scan time |
| `PaneTable.OtherContainersKept` | src/agenttower/discovery/pane_reconcile.py:159-173 | nor does a scan that did not reach its container; a reachable container with an empty socket directory gets no write |
| `PaneTable.FixpointIff` | src/agenttower/discovery/pane_reconcile.py:89-173 | reconciling again with the same outcomes finds nothing to do if and only if no pane of a cascade container was listed |
| `PaneTable.TwiceIff` | src/agenttower/discovery/pane_reconcile.py:98-145 | a key is listed for inactivation at most twice, and twice if and only if its row was active, its socket was scanned without it, and its container is in the cascade |
| `PaneTable.CountersOff` | src/agenttower/discovery/pane_reconcile.py:93-185 | for every scan, by how much active after differs from active before + newly active - inactivated: the rows inactivated twice less the upserts that count a key again |
| `PaneTable.CountersBalanceIff` | src/agenttower/discovery/pane_reconcile.py:93-185 | for every scan, active after = active before + newly active - inactivated if and only if as many upserts count a key again as rows are inactivated twice |
| `PaneTable.DistinctKeysBalance` | src/agenttower/discovery/pane_reconcile.py:178-185 | when the upserted keys are distinct, if and only if no row is inactivated twice |
| `PaneRows.CleanedByCharacter` | src/agenttower/tmux/parsers.py:59-76 | character by character: a tab or a newline becomes a space, other control characters go, everything else stays |
| `PaneRows.FitIsLongest` | src/agenttower/tmux/parsers.py:72-76 | a text is cut only where it is over its limit, and then to the limit |
| `PaneRows.UpsertOfPane` | src/agenttower/discovery/pane_reconcile.py:223-247 | the row a pane is written as: its own numbers, process and focus, and each text cut to its own limit |
| `PaneRows.ListedRowShows` | src/agenttower/state/panes.py:244-278 | after a scan a listed row shows the last pane listed with its key, is active unless also inactivated, and keeps its first sighting |
| `PaneRows.TouchedIff` | src/agenttower/discovery/pane_reconcile.py:111-173 | a prior row is touched if and only if, outside the cascade, its socket failed or its container could not be asked, or it is inactive and its container is in the cascade or its socket is gone |
| `PaneRows.StampedIff` | src/agenttower/state/panes.py:244-295 | a prior row is stamped by a scan if and only if it is upserted, touched or inactivated, and otherwise is unchanged |
| `PaneRows.OutcomeOfLast` | src/agenttower/discovery/pane_service.py:395-426 | the outcome at a socket is that of its last query: all its panes, those before malformed output, or a failure |
| `PaneRows.MetadataAt` | src/agenttower/discovery/pane_service.py:245-273 | the container name and the bench user that rows get |
| `PaneRows.SkippedAre` | src/agenttower/discovery/pane_reconcile.py:180-183 | the containers counted as skipped are those of the cascade that have a prior row |
| `PaneScan.ScanOneContainer` | src/agenttower/discovery/pane_service.py:356-428 | the outcome of every listed socket, when tmux counts as unavailable, how many sockets were scanned, every failure with its container, socket and code, and the abort when Docker is gone |
| `PaneScan.ScanSockets` | src/agenttower/discovery/pane_service.py:395-426 | the socket loop: outcomes and failures in listing order, and whether any succeeded |
| `PaneScan.Collect` | src/agenttower/discovery/pane_service.py:237-273 | the outcomes of all containers, their metadata, the containers that could not be asked, the counts and the failures in order |
| `PaneScan.ResultsAt` | src/agenttower/discovery/pane_service.py:270-270 | every outcome collected is that of a container scanned, and none is lost |
| `PaneScan.ScanLocked` | src/agenttower/discovery/pane_service.py:218-299 | a scan from its two readings to its write set, counts and error details, with the container filter; what it observed is, socket by socket, the rows and notes of the panes tmux listed; degraded if and only if there is a detail; the details hold exactly the truncations made; nothing when Docker is gone |
| `PaneScan.NoFailuresIff` | src/agenttower/discovery/pane_service.py:245-273 | a scan has no failure to report if and only if every container could be asked and no query raised |
| `ScanFindings.SelectedIff` | src/agenttower/discovery/pane_service.py:225-244 | without a filter every container is scanned, in order; with one, those with its id |
| `ScanFindings.SelectedIdsIff` | src/agenttower/discovery/pane_service.py:225-244 | a filter narrows the cascade to its own container |
| `ScanFindings.StopsIff` | src/agenttower/discovery/pane_service.py:356-426 | the scan stops if and only if a query it gets to found Docker gone |
| `ScanFindings.UnavailableIff` | src/agenttower/discovery/pane_service.py:245-273 | a container is unavailable if and only if it could not be asked, or has sockets and none gave panes |
| `ScanFindings.ReportedIff` | src/agenttower/discovery/pane_service.py:245-273 | a failure is reported if and only if a query of a scanned container failed as it says, with the socket's path |
| `ScanFindings.CountsAdd` | src/agenttower/discovery/pane_service.py:237-273 | the counts of two stretches of containers add up, and their failures are in order |
| `ScanFindings.CountsOfOne` | src/agenttower/discovery/pane_service.py:245-273 | what one container adds to the counts |
| `PaneScan.EveryTruncationReported` | src/agenttower/discovery/pane_service.py:283-288 | whatever failed, the error details of a scan hold exactly the truncations it made, because no socket path is empty |
| `ScanErrors.MergeErrorDetails` | src/agenttower/discovery/pane_service.py:661-714 | the details: each failure with the truncations of the socket it names, then one detail for every other socket with truncations, in order of first truncation |
| `ScanErrors.NoteReportedIff` | src/agenttower/discovery/pane_service.py:672-714 | the merge of any failures and truncations holds a truncation if and only if it is one of them, and no failure is filed under its scope or one that names its socket is |
| `ScanErrors.DetailOfFailure` | src/agenttower/discovery/pane_service.py:661-714 | the first details are the failures in order, with their container, socket and code, each holding exactly the texts cut at the socket it names |
| `ScanErrors.DetailOfTruncations` | src/agenttower/discovery/pane_service.py:661-714 | every other detail is of a socket with no failure filed there, and holds exactly the texts cut there |
| `ScanErrors.FirstCode` | src/agenttower/discovery/pane_service.py:283-295 | there are details if and only if something failed or was cut, and the scan's error code is that of its first failure, or of malformed output when nothing failed |
| `PaneScan.GuaranteeIff` | src/agenttower/discovery/pane_service.py:225-273 | no outcome for a cascade container and no success for an unavailable one, if and only if no container that listed a socket is read as inactive by the second query |
| `PaneScan.ListedButCascaded` | src/agenttower/discovery/pane_reconcile.py:138-145 | otherwise an active pane that is listed is upserted and inactivated, and ends inactive |
| `Registry.AgentService.RegisterAgent` | src/agenttower/agents/service.py:220-563 | a refused registration, or one whose attachment raises, changes neither tables nor log; a committed one changes the agent table as the transaction says and appends its role row and then the deferred attachment row, each if its append works |
| `Registry.AgentService.InsertWithSavepointRetry` | src/agenttower/agents/service.py:570-641 | the row goes in under the first of five drawn ids that is free; with none free nothing changes |
| `Registry.AgentService.Create` | src/agenttower/agents/service.py:366-414 | creation with its defaults, and each refusal: a parent without the role swarm, one that does not exist, is inactive or is no slave |
| `Registry.AgentService.Reregister` | src/agenttower/agents/service.py:415-484 | re-registration: absent fields keep their values, the parent may not differ, and a row is due only when the role changes |
| `Registry.AgentService.SetRole` | src/agenttower/agents/service.py:868-989 | `set_role` with all its refusals, none of which changes anything |
| `Registry.AgentService.SetLabel` | src/agenttower/agents/service.py:991-1055 | `set_label`: refusals change nothing, and no audit row is ever written |
| `Registry.AgentService.SetCapability` | src/agenttower/agents/service.py:1057-1120 | `set_capability`: refusals change nothing, and no audit row is ever written |
| `Registry.AgentService.SafeAppend` | src/agenttower/agents/service.py:643-680 | a failing append is swallowed |
| `Registry.CascadeInBatches` | src/agenttower/state/agents.py:274-296 | batches of a hundred keys deactivate exactly the agents on the keys, and change nothing else of any agent |
| `Registry.SeeInBatches` | src/agenttower/state/agents.py:247-271 | and stamp exactly the agents on the panes observed, with the scan's time |
| `Registry.ScanAgents` | src/agenttower/discovery/pane_service.py:453-471 | a scan's two updates together, for every agent: who is active and who was seen afterwards, and that nothing else changed |
| `Registry.CascadeToStale` | src/agenttower/state/log_attachments.py:212-250 | every active attachment on a listed pane goes stale and no other changes; each is returned as often as its pane is listed |
| `Registry.CommitScan` | src/agenttower/discovery/pane_service.py:448-503 | all or nothing: the panes; for every agent, active afterwards if and only if active before and not on a pane inactivated, last seen now if and only if on a pane upserted, no other field changed; likewise every log attachment; the scan's own row with its counters, error code and details; the attachments to audit, with their multiplicity |
| `RegistryLaws.RegisterTwice` | src/agenttower/agents/service.py:415-484 | the same registration sent again finds its agent, changes nothing and leaves no audit row |
| `RegistryLaws.ScanKeeps` | src/agenttower/discovery/pane_service.py:448-471 | whatever write set is committed, on whatever reading, no active agent is left on an inactive pane |
| `RegistryLaws.StaleAudits` | src/agenttower/discovery/pane_service.py:473-531 | an attachment that goes stale is audited once, and a second time if and only if its row is inactivated twice |
| `AgentRules.PermissionsByRole` | src/agenttower/agents/permissions.py:22-29 | only a master sends, to slaves and swarm members; only those two receive |
| `AgentRules.RequestRefused` | src/agenttower/agents/service.py:243-308 | the refusals a request and the pane table already decide, by the first cause that holds |
| `AgentRules.NewcomerRefused` | src/agenttower/agents/service.py:366-407 | on a pane without an agent a registration is refused if and only if one of the newcomer's causes holds, with the code of the first |
| `AgentRules.ReturningRefused` | src/agenttower/agents/service.py:415-445 | on an agent's own pane, likewise: another parent, a parent without the role swarm, a failed attach |
| `AgentRules.SetRoleRefused` | src/agenttower/agents/service.py:891-941 | `set_role` is refused if and only if one of its causes holds, with the code of the first |
| `AgentRules.SettersRefused` | src/agenttower/agents/service.py:1011-1040 | a label or a capability is refused for an unknown agent or an inactive one, and for nothing else |
| `AgentRules.NewcomerWritten` | src/agenttower/agents/service.py:366-414 | every field of a new agent, under the first drawn id that is free; every other agent as before |
| `AgentRules.ReturningWritten` | src/agenttower/agents/service.py:446-484 | every field of an agent that registers again, what is reported, and when it is audited; every other agent as before |
| `AgentRules.SetRoleWritten` | src/agenttower/agents/service.py:942-989 | the role and its permissions change and no other field; a change is reported and audited only if there is one |
| `AgentRules.SettersWritten` | src/agenttower/agents/service.py:991-1120 | the label changes and no other field, or the capability and no other |
| `Transactions.RegistrySound` | src/agenttower/agents/service.py:356-365 | in every interleaving an active agent's pane row exists and is active, a pane has at most one agent, permissions are those of the role, and a swarm member has a parent that exists |
| `Transactions.StepKeeps` | src/agenttower/discovery/pane_service.py:448-471 | every single committed step keeps that, from any state that has it |
| `Transactions.AuditTrail` | src/agenttower/agents/service.py:410-484 | in every interleaving each agent's audit rows chain in commit order, starting from no role, and replaying them gives its current role |
| `Transactions.NoParentCycle` | src/agenttower/agents/service.py:390-407 | in every interleaving no chain of parents returns to where it began |
| `Transactions.ParentNeverChanges` | src/agenttower/agents/service.py:418-426 | an agent once created stays, with its pane and its parent, through any further steps |
| `Transactions.MasterOnlyBySetRole` | src/agenttower/agents/service.py:891-963 | an agent becomes master only by a confirmed `set_role` while it and its container are active, and the row says so |
| `AgentHistory.EveryFieldHasItsWriters` | src/agenttower/state/agents.py:247-296 | in every interleaving each field of each agent changes only by its own writers: a registration for its pane, the setter of that field, a scan that lists its pane |
| `AgentHistory.ScanWriters` | src/agenttower/discovery/pane_service.py:448-471 | a scan's commit as a step: for every agent who is active and who was seen afterwards, and no other field changed |
| `AgentHistory.ActiveIff` | src/agenttower/state/agents.py:274-296 | in every interleaving an agent is inactive if and only if a scan's commit listed its pane after its last registration |
| `AgentHistory.ParentWasActiveSlave` | src/agenttower/agents/service.py:734-754 | a new agent's parent was an active slave in the state before |
| `AgentHistory.PermissionsInRuns` | src/agenttower/agents/permissions.py:22-29 | in every interleaving the permissions stored are those of the role |
| `SwarmParents.SwarmKeptIff` | src/agenttower/agents/service.py:868-989 | a step keeps every agent with a parent a swarm member if and only if it is not a `set_role`, on an active agent with a parent, to a role that may be set |
| `SwarmParents.ParentedSwarmIff` | src/agenttower/agents/service.py:415-445 | in every interleaving an agent with a parent is a swarm member if and only if no `set_role` made the last change of its role |
| `SwarmParents.ParentedSlave` | src/agenttower/agents/service.py:957-962 | for any two ids a run that ends with the one a slave under the other |
| `ParentDepth.AnyLine` | src/agenttower/agents/service.py:734-754 | any distinct ids in any order are a line of ancestors in some run that creates no other agent |
| `ParentDepth.DepthUnbounded` | src/agenttower/agents/service.py:734-754 | for every length some run has a line of ancestors of that length |
| `AuditLog.EveryRowAccounted` | src/agenttower/agents/service.py:525-544 | in every interleaving the rows committed are those in the log, those still to be appended and those lost to failed appends, counted exactly |
| `AuditLog.OrderKeptIff` | src/agenttower/agents/service.py:970-979 | an append keeps an agent's rows in commit order if and only if it takes the earliest pending one |
| `AuditLog.LogReplays` | src/agenttower/agents/service.py:537-544 | if an agent's rows are appended in turn, its rows in the log chain, and replay to its role once none is pending |
| `Overtaking.SerialLog` | src/agenttower/agents/service.py:537-544 | in particular when calls run one at a time and appends work |
| `Overtaking.OnlyRegisterOvertakes` | src/agenttower/agents/service.py:905-979 | two rows of one agent are pending together only when one is a registration's and the other a setter's |
| `Overtaking.LogChainsIff` | src/agenttower/agents/service.py:525-544 | in every interleaving whose appends work, an agent's rows in the log chain if and only if every append of one of its rows took the earliest pending one |
| `Overtaking.LogCanDisagree` | src/agenttower/agents/service.py:309-321 | from any state where a `set_role` and a registration can both change an agent's role, committing both and appending the later first leaves a log that does not chain |
| `OverlapRun.OverlapBreaksLog` | src/agenttower/agents/service.py:309-321 | for any agent id a run from an empty registry in which every append works and the log does not chain |
| `ScanWindow.CountersDescribeCommit` | src/agenttower/discovery/pane_service.py:235-308 | in every interleaving the rows a scan decided on are those its commit finds, so its counters balance for the commit if and only if as many upserts count a key again as rows are inactivated twice |
| `ScanWindow.OnlyFlippedCascade` | src/agenttower/discovery/pane_service.py:225-234 | in every interleaving the scan's promise fails only for containers that went inactive between its first two queries |
| `ScanWindow.LoopsReconcile` | src/agenttower/discovery/pane_service.py:245-282 | what the scan loops hand over is what the system's commit step admits |
| `FlipRun.FlipGathered` | src/agenttower/discovery/pane_service.py:225-273 | both observations of the two runs below are what the scan loops gather, from a socket that lists nothing and from one that lists the pane |
| `FlipRun.FlipUnbalancesCounters` | src/agenttower/discovery/pane_service.py:225-282 | a run in which a container goes inactive between the two queries, its one row is inactivated twice, and the counters do not balance |
| `FlipRun.FlipHidesListedPane` | src/agenttower/discovery/pane_service.py:225-282 | the same run with the pane listed: it is upserted and ends inactive |
| `Debounce.DebounceManager.Submit` | src/agenttower/events/debounce.py:128-182 | the windows kept and the events returned are those of the step whose runs are grouped below; the dictionary stays consistent |
| `Debounce.DebounceManager.FlushExpired` | src/agenttower/events/debounce.py:184-201 | the loop, which deletes from the dictionary it walks, closes exactly the due windows in scope, in their order, and leaves every other window as it was |
| `Debounce.DebounceManager.CloseWindow` | src/agenttower/events/debounce.py:214-238 | the window is deleted, and its event has the class of its key, the first start, the latest end, rule and text, and the stamp it is closed at |
| `Debounce.DebounceManager.Reset` | src/agenttower/events/debounce.py:203-208 | all windows are dropped |
| `Debounce.RunIsGreedyGrouping` | src/agenttower/events/debounce.py:147-201 | for a non-decreasing clock an attachment's events and open window are its activity records grouped greedily: count, excerpt and ranges |
| `Debounce.FlushesDoNotRegroup` | src/agenttower/events/debounce.py:184-201 | runs with the same submits realise the same groups, however their flushes differ |
| `Debounce.AttachmentsIndependent` | src/agenttower/events/debounce.py:128-201 | all that an attachment emits, every class in emission order, and its open window are those of running it alone |
| `Debounce.RecordsConserved` | src/agenttower/events/debounce.py:128-201 | records submitted = counts of emitted events + counts of open windows, over every run |
| `Debounce.OtherClassesPassThrough` | src/agenttower/events/debounce.py:128-145 | in every run each other class has one event per record, in order, with the record's own fields and no window |
| `Debounce.ActivityEventsAdvance` | src/agenttower/events/debounce.py:222-238 | records in increasing ranges give activity events in increasing ranges |
| `Debounce.EveryEventInsertable` | src/agenttower/events/dao.py:315-326 | and every event then passes the range and count checks of the insert |
| `DebounceEvents.StampedByItsOperation` | src/agenttower/events/debounce.py:214-238 | in every run each event is of its class, and an activity event ends at the stamp of the operation that closed it |
| `DebounceEvents.EventsStandForGroups` | src/agenttower/events/debounce.py:147-238 | in every run with a non-decreasing clock each activity event has the id drawn with the first record of its group, that record's start, and the last one's rule, text and end |
| `DebounceEvents.GroupsAreGreedy` | src/agenttower/events/debounce.py:147-182 | the groups are the records in order, none split or lost, each ending before the first record a whole span after its first |
| `DebounceEvents.FlushClosesIff` | src/agenttower/events/debounce.py:184-201 | a flush closes a window if and only if it covers the attachment and the window is a whole span old |
| `EventQuery.FilterClause` | src/agenttower/events/dao.py:556-570 | the conditions collected hold of a row if and only if the row matches the filter |
| `EventQuery.SelectEvents` | src/agenttower/events/dao.py:534-640 | one page: argument checks, cursor decoding, a cursor of the other direction rejected, the query for one row more, and the next cursor |
| `EventQuery.FetchPage` | src/agenttower/events/dao.py:614-640 | the page is cut at the limit and a cursor is given only when a row is left over |
| `EventColumns.ListingOnColumns` | src/agenttower/events/dao.py:556-620 | a listing holds exactly the rows asked for, by timestamp, then byte start with a missing one first, then id |
| `EventColumns.ReverseMirrors` | src/agenttower/events/dao.py:614-620 | the reverse listing is the forward one the other way round |
| `EventColumns.TextLessIff` | src/agenttower/events/dao.py:614-620 | timestamps are compared by their first difference, a proper prefix coming first |
| `EventColumns.FirstPageOnColumns` | src/agenttower/events/dao.py:534-640 | a first page is the rows asked for, in column order, up to the limit, every row left out being beyond it |
| `EventColumns.NextPageOnColumns` | src/agenttower/events/dao.py:571-640 | a further page likewise, of the rows beyond the cursor's columns; the cursor is rejected unless it decodes to the query's direction |
| `EventColumns.OtherDirectionRejected` | src/agenttower/events/dao.py:571-583 | a cursor made for one direction is rejected in the other |
| `EventQuery.CursorLeadsPast` | src/agenttower/events/dao.py:571-640 | a cursor can be made after a stored row if and only if its id is in range and its timestamp is not empty, and it decodes to the condition that selects exactly the rows past it, in both directions and with a missing byte start as -1 |
| `EventQuery.CursorsRemember` | src/agenttower/events/dao.py:571-640 | a walk is the same with cursors as when it remembers the row it resumes past |
| `EventQuery.WalkIsExact` | src/agenttower/events/dao.py:556-640 | a walk over growing tables only advances, once finished has every matching row its first table held past the resume point, and is rejected only at a matching row that no cursor can be made after |
| `EventQuery.WalkUnderInserts` | src/agenttower/events/dao.py:556-640 | from the start: keys strictly advance, no row comes twice, every matching row present at the start came, and a rejection means a matching row that no cursor can be made after |
| `EventQuery.WalkOverFixedTable` | src/agenttower/events/dao.py:556-640 | over a fixed table the pages concatenate to the filtered list in key order, as far as asked; rejected if and only if a page that is not the last ends at a row no cursor can be made after |
| `EventQuery.EmptyTimestampRejects` | src/agenttower/events/dao.py:159-161 | a valid table on which a page of one row ends the walk with a rejected cursor |
| `EventQuery.WalkFromId` | src/agenttower/events/dao.py:571-640 | a walk from an event id is one page of the rows with later ids in key order, followed by the rows past the key of its last row |
| `EventQuery.IdCursorExactIff` | src/agenttower/events/dao.py:607-612 | such a walk, once finished, returns the rows past that row if and only if every matching row with a later id has a later key, and matching rows with a later key only come after a full first page |
| `EventQuery.IdCursorSkipsAndRepeats` | src/agenttower/events/dao.py:607-612 | a valid table on which it skips a row, and on which it comes back to one |
| `Cursor.DecodeEncoded` | src/agenttower/events/dao.py:132-228 | every accepted cursor decodes to its own values, with surrogate pairs of the timestamp merged |
| `Cursor.RoundTripIff` | src/agenttower/events/dao.py:132-228 | the round trip is exact if and only if the timestamp has no surrogate pair as two code points |
| `Cursor.SameTokenIff` | src/agenttower/events/dao.py:132-173 | two cursors share a token if and only if they differ in nothing but merged pairs |
| `CursorText.IdCursorText` | src/agenttower/events/dao.py:158-172 | the JSON text of a cursor by id, character by character |
| `CursorText.PositionCursorText` | src/agenttower/events/dao.py:158-172 | and of a cursor by position |
| `CursorText.EscapeCharIs` | src/agenttower/events/dao.py:172-172 | printable ASCII is written as it is, seven characters as short escapes, all others as the hexadecimal digits of their code units |
| `CursorText.ShortEscapeIsTable` | src/agenttower/events/dao.py:172-172 | which seven characters those are, and their letters |
| `CursorText.IntTextReads` | src/agenttower/events/dao.py:172-172 | a number is written in decimal, with a sign only below zero |
| `CursorText.Utf8Is` | src/agenttower/events/dao.py:172-172 | the UTF-8 bytes of a character, as section 3 of RFC 3629 has them |
| `CursorText.Group3Is` | src/agenttower/events/dao.py:173-173 | the digits of a group are the number its bytes are, in the URL-safe alphabet of section 5 of RFC 4648 |
| `CursorText.Group2Is` | src/agenttower/events/dao.py:173-173 | likewise for the two bytes that can be left at the end |
| `CursorText.Group1Is` | src/agenttower/events/dao.py:173-173 | and for one |
| `CursorText.EncodedGroups` | src/agenttower/events/dao.py:173-173 | every group of a token, whole or short, is that of the bytes at its place |
| `CursorText.DecodesIff` | src/agenttower/events/dao.py:194-228 | members are accepted if and only if they are those of an accepted cursor, a missing or null position meaning none |
| `CursorText.TokenAccepted` | src/agenttower/events/dao.py:176-228 | a token is accepted if and only if its bytes are the ASCII text of a JSON object with such members |
| `CursorText.ValueIff` | src/agenttower/events/dao.py:180-182 | which characters of a token count, and for what: both alphabets are read |
| `CursorText.OthersSkipped` | src/agenttower/events/dao.py:180-182 | any other character of a token is skipped |
| `CursorText.HexValueIff` | src/agenttower/events/dao.py:184-184 | an escape is read with hexadecimal digits of either case |
| `CursorText.BlanksSkipped` | src/agenttower/events/dao.py:184-184 | blanks before the JSON text of a token are skipped, and no other character is |
| `Base64.PaddingRestored` | src/agenttower/events/dao.py:173-182 | padding stripped from an encoding is restored exactly for every number of bytes (section 5 of RFC 4648) |
| `Base64.DecodeEncode` | src/agenttower/events/dao.py:173-182 | decoding undoes encoding for every sequence of bytes |
| `Json.LoadsDumps` | src/agenttower/events/dao.py:172-186 | reading the compact text of an object gives its members back with pairs merged (RFC 8259) |
| `Json.ReadEscaped` | src/agenttower/events/dao.py:172-186 | an escaped string is read back, up to its closing quote, with pairs merged |
| `Json.MergeChangesIff` | src/agenttower/events/dao.py:172-186 | merging changes a string if and only if it holds a pair as two code points |
| `Scans.ScanRegistry.Start` | src/agenttower/app_contract/scans.py:99-150 | coalescing, the cap check and the insertion with eviction |
| `Scans.ScanRegistry.EvictIfOverCap` | src/agenttower/app_contract/scans.py:218-249 | the eviction loop drops the oldest finished record, or the oldest one with its waiters woken |
| `Scans.ScanRegistry.Finish` | src/agenttower/app_contract/scans.py:154-188 | a record still listed gets its outcome under the lock and its waiters are woken after; an evicted one is left alone, and so is every other record |
| `ScanThreads.RunInv` | src/agenttower/app_contract/scan_handlers.py:81-211 | the invariant of every reachable state of any number of handlers and workers, those that die of an uncaught exception included |
| `ScanThreads.OneWorkerPerRecord` | src/agenttower/app_contract/scan_handlers.py:108-120 | each record has exactly one worker or one handler about to start it, and an ended worker has signalled |
| `ScanThreads.WokenWaiterNeverSeesRunning` | src/agenttower/app_contract/scan_handlers.py:164-211 | a woken waiter that finds its record gets a finished state and a result, whatever the caps; which ones: `ScanOutcomes.FinalAnswerIsOutcome` |
| `ScanThreads.FinishedForGood` | src/agenttower/app_contract/scans.py:154-188 | a finished record's state, result and time never change in any continuation |
| `ScanThreads.DeadForGood` | src/agenttower/app_contract/scan_handlers.py:81-105 | a worker that dies of an exception outside the handler stays dead and leaves its record running in every continuation |
| `ScanThreads.ForgottenForGood` | src/agenttower/app_contract/scans.py:160-164 | a record evicted while it runs stays unlisted and running in every continuation |
| `ScanThreads.FinishableIff` | src/agenttower/app_contract/scans.py:154-188 | in every run a running record finishes in some continuation if and only if the registry lists it and its worker has not died |
| `ScanThreads.RegistryBounds` | src/agenttower/app_contract/scans.py:119-150 | at most one running record per kind, and never more records than the cap |
| `ScanThreads.CapUnreachableIff` | src/agenttower/app_contract/scans.py:119-140 | no run meets `ScanCapExceeded` if and only if the in-flight cap exceeds what can run beside the caller |
| `ScanThreads.NoRunningEvicted` | src/agenttower/app_contract/scans.py:236-249 | with room for every scan that can run at once no running record is evicted |
| `ScanThreads.SomeRunningEvicted` | src/agenttower/app_contract/scans.py:236-249 | a run that evicts a running record, under any caps without that room |
| `ScanThreads.DoneIsFinishedIff` | src/agenttower/app_contract/scans.py:236-249 | a set done event means a finished scan in every run if and only if there is that room |
| `ScanThreads.DeadBlocksKind` | src/agenttower/app_contract/scans.py:119-131 | with room for every scan that can run at once, after a worker died every call for its kind is answered with the dead record, no other record of the kind is made, and no waiter is woken, in every continuation |
| `ScanThreads.WorkerDies` | src/agenttower/app_contract/scan_handlers.py:81-105 | a run that loses a worker, under any caps that admit a scan |
| `ScanThreads.DefaultCaps` | src/agenttower/app_contract/scans.py:86-97 | the shipped caps meet both conditions |
| `ScanOutcomes.OutcomeIff` | src/agenttower/app_contract/scans.py:154-188 | in every interleaving a record is completed, or failed, with a payload and at a time if and only if its worker returned it, or raised, then, while the record was listed |
| `ScanOutcomes.FinalAnswerIsOutcome` | src/agenttower/app_contract/scan_handlers.py:190-211 | a final answer names the outcome and the payload with which the scan of its own record ended |
| `ScanOutcomes.RunTimed` | src/agenttower/app_contract/scans.py:154-188 | in every interleaving a finished record has a completion time |
| `ScanOutcomes.HandlersServe` | src/agenttower/app_contract/scan_handlers.py:123-211 | each call is answered for a record of the kind it asked for, in the mode it asked for |
| `ScanOutcomes.AnswersMean` | src/agenttower/app_contract/scan_handlers.py:158-211 | what each answer says of the state it is given in: refused, a glance, timed out, gone, finished |
| `ScanOutcomes.StartMeans` | src/agenttower/app_contract/scans.py:119-150 | a call joins the running scan of its kind, is refused at the cap, or starts one of its own, with its session and time |
| `ScanOutcomes.OldestEvicted` | src/agenttower/app_contract/scans.py:218-249 | over the cap the oldest finished record goes; if all run, the oldest goes and its waiters wake |
| `Idempotency.IdempotencyStore.Lookup` | src/agenttower/app_contract/idempotency.py:71-81 | a miss changes nothing, a hit returns the stored entry and makes it the most recent |
| `Idempotency.IdempotencyStore.Record` | src/agenttower/app_contract/idempotency.py:83-121 | the new entry is the most recent, and only the least recent one can be pushed out, only by a new key, only at the cap |
| `Idempotency.IdempotencyStore.Clear` | src/agenttower/app_contract/idempotency.py:128-131 | a new history starts |
| `Idempotency.StoreIsLastDistinctTouched` | src/agenttower/app_contract/idempotency.py:71-131 | after any history the keys are the last `max` distinct touched keys in last-touch order, with the latest recorded values |
| `Idempotency.HeldIff` | src/agenttower/app_contract/idempotency.py:111-121 | a key is held if and only if fewer than `max` distinct other keys were touched since |
| `SendInput.AppSendInput.Send` | src/agenttower/app_contract/mutations.py:1106-1300 | the queue, the audit events, the stores and the answer after one call are those of the step whose serial runs are proved to deduplicate; a first success needs a resolved target, a payload within 16384 bytes and a row not blocked for the kill switch or the sender, and names that row; a failure audits nothing |
| `SendInput.AppSendInput.StoreForSession` | src/agenttower/app_contract/mutations.py:572-579 | the session's store, made on first use |
| `SendInput.AppSendInput.DropStore` | src/agenttower/app_contract/mutations.py:582-585 | dropping a session's store forgets its keys and no other session's |
| `SendInput.StoreFollowsOps` | src/agenttower/app_contract/mutations.py:1149-1300 | a session's store is the dedupe store run on that session's lookups and records alone |
| `SendInput.ReplayIff` | src/agenttower/app_contract/mutations.py:1149-1165 | a valid call is answered from the store, and adds no row, if and only if fewer than 256 distinct other keys were touched since its key was |
| `SendInput.RetryReplaysFirstSuccess` | src/agenttower/app_contract/mutations.py:1216-1300 | after a success every later valid call with the key gets the same message id marked deduplicated and stores neither row nor audit event, while the key stays remembered |
| `SendOutcomes.MalformedRefused` | src/agenttower/app_contract/mutations.py:1106-1147 | which calls are refused before the store is looked at, and with which code |
| `SendOutcomes.MalformedChangesNothing` | src/agenttower/app_contract/mutations.py:1106-1147 | such a call changes nothing |
| `SendOutcomes.SucceedsIff` | src/agenttower/app_contract/mutations.py:1166-1272 | a call whose key is not held succeeds if and only if its target resolves, its payload fits and the queue takes the row unblocked; the answer names that row |
| `SendOutcomes.RefusedBecause` | src/agenttower/app_contract/mutations.py:1166-1265 | each refusal code by its cause, in the order in which the causes are met |
| `SendOutcomes.RefusalLeaves` | src/agenttower/app_contract/mutations.py:1166-1265 | a refusal leaves every store and the audit log as they were; a blocked row stays in the queue |
| `SendOutcomes.SuccessLeaves` | src/agenttower/app_contract/mutations.py:1266-1300 | a success adds its row, its event if that append works, and under a key the answer the key repeats from then on |
| `SendOutcomes.ReplayLeaves` | src/agenttower/app_contract/mutations.py:1149-1165 | a replay repeats the recorded answer, marked as one, and adds neither row nor event |
| `Locks.PerKeyLockMap.ForKey` | src/agenttower/agents/mutex.py:41-48 | equal keys get the same lock, distinct keys distinct ones, for good |
| `Locks.Holder.AcquireInOrder` | src/agenttower/logs/mutex.py:26-56 | every exit releases exactly what was taken, and the body runs only with both locks, the agent's first |
| `Locks.RunInv` | src/agenttower/logs/mutex.py:39-56 | in every run of any number of threads a lock has one holder, and a thread holds a prefix of its order |
| `Locks.LeavesNothingBehind` | src/agenttower/logs/mutex.py:39-56 | a thread that has unwound, after a timeout too, holds nothing |
| `Locks.CycleFreeIff` | src/agenttower/agents/service.py:356-518 | no run forms a wait cycle if and only if no operation takes under the database a lock that another takes before it |
| `Locks.AlwaysProgress` | src/agenttower/logs/mutex.py:39-56 | then, while a thread is unfinished, some thread can step without a timeout |
| `Locks.AgentFirstIsSafe` | src/agenttower/logs/mutex.py:26-38 | operations that use `acquire_in_order`, or only an agent lock, before the database meet the condition |
| `Text.CutDecodesToFitting` | src/agenttower/events/classifier.py:91-108 | cutting UTF-8 anywhere and decoding while ignoring errors keeps exactly the whole characters before the cut (section 3 of RFC 3629) |
| `Excerpt.TruncateIsLongest` | src/agenttower/events/classifier.py:91-108 | at most the cap in bytes; a fitting record unchanged, whatever the marker; otherwise the longest prefix that leaves room for the marker, then the marker, or the longest marker prefix |
| `Excerpt.TruncateTwice` | src/agenttower/events/classifier.py:91-108 | truncating again changes nothing |
| `RateLimit.FollowSessionRegistry.IsRateLimited` | src/agenttower/events/session_registry.py:131-149 | limited if and only if less than ten seconds into a window with a hundred calls; the counter and the window after each call |
| `RateLimit.OneWindow` | src/agenttower/events/session_registry.py:141-149 | of the calls in one window the first hundred are admitted and no others |
| `RateLimit.AdmittedExactly` | src/agenttower/events/session_registry.py:141-149 | exactly how many calls a stretch shorter than ten seconds admits |
| `RateLimit.AtMostTwiceThreshold` | src/agenttower/events/session_registry.py:141-149 | hence at most two hundred, after any history |
| `RateLimit.SlidingBoundIff` | src/agenttower/events/session_registry.py:131-149 | more than a hundred, which a sliding window would not admit, if and only if a restart falls within the stretch, some call before it is admitted, and those with the calls after it exceed a hundred |
| `RateLimit.TwiceThresholdIsReached` | src/agenttower/events/session_registry.py:141-149 | two hundred calls within a second, none limited |

## Left out

- The command line, process lifecycle, Docker and tmux subprocesses, container discovery, offset pagination, dashboards and routing: plumbing, or easier siblings of what is modelled.
- Regular expressions, ANSI stripping and redaction in the classifier: they depend on a regex engine.
- Requests' wire validation (unknown keys, types, closed sets, lengths, id shapes): fields arrive with their types.
- `Panes.SightAll`: reconciliation builds rows and classifies in one loop; here the rows are built first, which gives the same rows because building them has no effects.
- `PaneScan.ScanLocked`: error messages are not modelled.
- `Registry.CommitScan`: the error message of the scan's row is not modelled; its id and clock readings arrive with its header.
- `PaneScan.GuaranteeIff`: container ids are distinct, as the table's primary key makes them.
- `Registry.AgentService.RegisterAgent`: what attaching a log does inside the transaction is one opaque step that raises or succeeds, with or without a row to append.
- `Registry.AgentService.InsertWithSavepointRetry`: a violation of the pane's unique constraint is excluded by the select in the same transaction.
- `ParentDepth.DepthUnbounded`: agent ids are strings of any length here; the daemon's have twelve hexadecimal digits, so its lines end where the ids of `ParentDepth.AnyLine` run out.
- `Transactions.RegistrySound`: a container scan is any replacement of the container table.
- `SendInput.AppSendInput.Send`: calls are serial, as the store itself documents; stores are values, not objects shared between threads; message rows are counted by their ids and not delivered.
- `Cursor.DecodeEncoded`: payload bytes outside ASCII, other text encodings and the interpreter's limits on digits and nesting are treated as errors or not modelled.
- `CursorText.TokenAccepted`: the JSON reader is that of Python's library; of texts that `encode_cursor` does not write, such as numbers with a fraction, it is modelled and not specified any further.
- `EventQuery.SelectEvents`: the watermark columns of a row are not modelled.
- `EventQuery.CursorLeadsPast`: a stored timestamp encodes as UTF-8, as SQLite text does.
- `ScanThreads.RunInv`: a worker thread that cannot be started is not modelled.
- `Locks.CycleFreeIff`: in the daemon the thirty-second timeouts and the database's busy timeout end such a wait with an error.
- Floating-point clock values are reals.
