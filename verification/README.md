# Shreni in Dafny

Shreni runs a fleet of long-lived workers that coordinate through files, a task
tracker and agent subprocesses. This project models the parts of it that keep
that fleet honest and proves what each of them promises:

| file | models |
|---|---|
| `ClaimProtocol.dfy`, `ClaimSafety.dfy`, `ReleaseSafety.dfy`, `ClaimHarm.dfy`, `WorkerPid.dfy` | who owns a Kshetra: the `worker.pid` protocol, as interleaved steps of any number of processes, exactly which steps do harm, and the sequential operations |
| `BeadGraph.dfy`, `Ordering.dfy`, `FirstCycle.dfy`, `FindCycle.dfy`, `TopoOrder.dfy`, `EpicScope.dfy`, `ExportDocument.dfy` | the bead graph export: Kahn's order with its tie-break, which cycle is reported, the epic subtree, the document |
| `Lines.dfy`, `ActivityStream.dfy`, `AgentStdout.dfy`, `PlanningSessions.dfy`, `PlanningMeaning.dfy`, `PlanningCharges.dfy`, `PlanningFold.dfy`, `PlanningTail.dfy`, `PlanningLaws.dfy` | incremental views of growing logs: the activity tails, the agents' stdout splitter, the planning fold and what it tells of its log |
| `ProcessStream.dfy`, `ReadCache.dfy`, `CacheRuns.dfy` | the process diff stream against every client's panel; the read cache with its generation guard |
| `AgentRun.dfy`, `DrainLoop.dfy`, `DrainVerdict.dfy`, `SelfHeal.dfy` | the control loops: an agent run's attempts, the drain and its exit code, the self-heal gate over the work tree |
| `Budget.dfy`, `BudgetPolicy.dfy`, `BudgetBound.dfy` | the price of a run, the spend recorded, the caps, and exactly how far concurrent retried runs can pass them |
| `OrphanAgents.dfy` | which processes a starting worker kills for a dead one |
| `FileTree.dfy`, `FreezeOut.dfy`, `Snapshot.dfy`, `SnapshotHost.dfy` | freeze and restore over a file tree whose calls may fail, and where a snapshot is written |
| `GlobSyntax.dfy`, `GlobMatch.dfy`, `GlobCompile.dfy`, `GlobAccidents.dfy`, `GlobExact.dfy` | the test-file globs: text rewriting passes, the RegExp they yield, its language, and exactly which globs it is right for |

Code that the program writes as loops over mutable state is written here as
classes and methods proved against specification functions; what the program
promises is then proved of those functions, over every input, schedule or run.
`dafny verify dfyconfig.toml` checks the whole project.

What the environment decides is an input: the clock, process tables and signals,
the outcome of an agent attempt or of a scheduler cycle, what a read of a file
sees, what JSON parsing yields. A proof over all those inputs is a proof over
every trace.

## Where the code and its comments part

- **Worker ownership.** Two steps of the protocol can lead to two live owners:
  breaking a lock as stale while a process is inside it
  (`src/cli/pid.ts:111-113`), and `stop` unlinking the file of a live owner
  (`src/cli/stop.ts:15-17` takes no lock) other than one that has just locked to
  claim again. From every state of a safe run a step keeps two owners out of
  reach exactly when it is neither (`HarmlessExactly`).
  `BreakingAHeldLockMakesTwoOwners` and `LateStopMakesTwoOwners` are such runs
  from the start. A lock that becomes stale only on the 501st try is broken but
  not taken.
- **Globs.** The comment at `src/kshetra/toolchain.ts:150-155` says other RegExp
  specials are escaped and that the sentinels keep the rewrites apart. `?` is not
  escaped: it makes the character before it optional or is a syntax error. And a
  sentinel can close by accident, out of characters of the glob or out of two
  neighbouring sentinels, as in `**DIRS**`. Any such accident changes the language:
  a glob is translated faithfully exactly when it has no `?` and no sentinel closes
  in it by accident (`FaithfulExactlyWhenSafe`), which without `@` in it means that
  it spells no `**DIRS**` (`GlobIsFaithfulExactly`). `.` does not cross a line
  terminator (`NewlineIsMissed`).
- **Self-heal.** The comment at `src/cli/worker-runtime.ts:261-263` says `done`
  resolves after the phase is back to IDLE. It resolves in `runTask`'s own
  `finally`, one step earlier (`DoneResolvesBeforeIdle`), and the heal's reaction to
  it is queued before the cycle goes on, so the reset begins while the phase is
  still that of the run (`ResetBeginsBeforeIdle`). The reset still never meets a
  cycle that prepares or runs.
- **Budget.** `src/ext/budget-policy.ts:5-7` calls the gate a hard stop and not
  an after-the-fact overspend. The gate reads recorded spend only. No run passes a
  cap exactly when nothing may be in flight or no attempt can cost a micro-dollar
  (`CapIsHardExactly`); otherwise, in whole micro-dollars and with k runs in flight
  whose attempts cost up to C, spend can reach the cap less one micro-dollar plus
  4kC (`BoundIsReached`) and can never pass that (`BoundIsNeverPassed`).
- **Activity tails.** A file missing when the stream is primed is recorded with
  offset -1 and read from the top with a NUL spliced in behind what was there
  (`PrimedOnMissingSplicesNul`), so its lines are those of what was appended
  exactly if the file existed when primed or was never read
  (`PrimedTailIsExact`). A file seen truncated to nothing keeps its old offset
  (`TruncatedToEmptyLosesText`).
- **Planning filter.** `isRetainablePlanningLine` parses the line untrimmed, the
  fold trimmed. Filtering a line goes unnoticed by the fold exactly when the line is
  retained or is not one the fold uses (`LineIsKeptExactly`).
- **Read cache.** The guard names the project by the key up to the first `::`.
  That is the project exactly when its name neither contains `::` nor is empty
  nor begins or ends in `:`; a project id is a uuid
  (`src/kshetra/project-config.ts:38`), which satisfies this.
- **Orphan agents.** A record that names itself as its own worker has its group
  killed twice (`TwinRecordIsKilledTwice`); the program writes no such record, as
  an agent is a child of the worker (`src/agents/runner.ts:443-447`). The kill of
  a lone agent does not compare its pid with this process's own
  (`ReusedPidKillsOwnProcess`).

## Model

| member | source | states |
|---|---|---|
| `ClaimSafety.NeverTwoOwners` | src/cli/pid.ts:100-155 | over every run of harmless steps, among any number of claims, claims for a child, releases, deaths, pid reuses and stops, there are never two owners, and worker.pid names the one there is unless that one is about to write it |
| `ClaimHarm.HarmlessExactly` | src/cli/pid.ts:100-155 | from every state of a safe run, a step leaves two owners out of reach exactly when it is harmless: it breaks no lock around a process inside, and unlinks no live owner's file but that of an owner which has just locked to write it again |
| `ClaimSafety.OwnershipIsNeverTaken` | src/cli/pid.ts:131-155 | in such a run a claim writes the file only when nobody else owns the Kshetra, a release unlinks its own claim and no other, no step but these and a stop's unlink touches the file, and ownership ends only by death or by the owner's own release |
| `ReleaseSafety.ReleaseLeavesNoClaim` | src/cli/pid.ts:144-155 | in such a run, however other processes' steps fall between its own, a release that reaches its unlock leaves worker.pid without its pid, the lock free and nothing owned |
| `ReleaseSafety.NobodyIsTrapped` | src/cli/pid.ts:104-123 | in whatever state, a live process can bring its claim, release or stop to an end by steps of its own |
| `ClaimSafety.RunKeepsInv` | src/cli/pid.ts:100-155 | every reachable state keeps: at most one process inside the lock, owners live and named by the file, what each process read still good where it relies on it |
| `ClaimSafety.StaleFileIsReclaimed` | src/cli/pid.ts:125-130 | a file naming a process that is no live worker, dead or recycled, blocks nobody: a claim that runs alone takes it over |
| `ClaimHarm.BreakingAHeldLockMakesTwoOwners` | src/cli/pid.ts:111-113 | a concrete run in which the lock of a claimer stalled inside is broken and two live processes own the Kshetra |
| `ClaimHarm.LateStopMakesTwoOwners` | src/cli/stop.ts:15-17 | a concrete run in which a stop that looked before a claim unlinks that claim's file and two live processes own the Kshetra |
| `WorkerPid.KshetraFiles.AcquireClaimLock` | src/cli/pid.ts:100-118 | the lock is taken exactly when it is free or grows stale by the 500th retry, within 501 naps; a failure takes all of them, leaves the pid file alone and removes the lock only if it was stale at the last look |
| `WorkerPid.KshetraFiles.ClaimWorkerPid` | src/cli/pid.ts:131-142 | refused exactly when the file names another pid the check calls live, with that owner; otherwise claimed with the file naming the pid; the lock is gone afterwards |
| `WorkerPid.KshetraFiles.ReleaseWorkerPid` | src/cli/pid.ts:146-155 | the file goes only if it still names the pid and the lock could be had |
| `WorkerPid.KshetraFiles.StartWorker` | src/cli/start.ts:29-57 | a live owner is reported untouched; a spawn without a pid fails and a claim that times out fails, neither writing the file; a child that loses the race is killed and the winner reported, and nothing else is killed; otherwise the file names the child |
| `WorkerPid.KshetraFiles.StopWorker` | src/cli/stop.ts:8-28 | only a dead pid's file is cleared; a live owner keeps its claim |
| `WorkerPid.ClaimRunMatchesOutcome` | src/cli/pid.ts:131-142 | run alone, the interleaved protocol ends with the file and the ownership that the sequential claim returns |
| `WorkerPid.ReleaseRunMatchesOutcome` | src/cli/pid.ts:144-155 | run alone, a release in the protocol ends idle with the lock free, the file gone exactly if it named the process, that process no owner, and nothing else changed |
| `WorkerPid.StopRunMatchesOutcome` | src/cli/stop.ts:8-28 | run alone, a stop in the protocol clears the file exactly if the process it names is dead, and changes nothing else |
| `BeadGraph.GreedyIsLeast` | src/cli/export.ts:199-206 | emitting the best ready bead each time gives the lexicographically least topological order by priority and id, lower first |
| `BeadGraph.GreedyNeighbours` | src/cli/export.ts:224-231 | of two neighbours in the order the first has the lower priority number, or the same and the id that sorts first, unless it blocks the second |
| `BeadGraph.BeforeMeans` | src/cli/export.ts:226 | the tie-break is a lower priority number, or the same and an id that begins the other or has the smaller character where the two first differ |
| `Ordering.StrLessMeans` | src/cli/export.ts:226 | one id is less than another exactly if it begins it or has the smaller character where the two first differ |
| `BeadGraph.LastOfIdIsKept` | src/cli/export.ts:208 | of several beads with one id the last is the one ordered |
| `BeadGraph.LeastIsUnique` | src/cli/export.ts:199-206 | there is only one least topological order |
| `BeadGraph.GraphIgnoresInputOrder` | src/cli/export.ts:207-220 | reordering beads and reordering or repeating edges leaves the graph the order is taken of |
| `BeadGraph.OrderedMeansAcyclic` | src/cli/export.ts:233-245 | a graph with a topological order has no cycle |
| `TopoOrder.TopoOrder` | src/cli/export.ts:207-245 | returns the least topological order of the in-graph edges, in which of two neighbours the first comes first by priority and id unless it blocks the second, or the cycle reported for the graph, a closed walk of them; it throws exactly when they hold a cycle |
| `TopoOrder.OrderIgnoresInputOrder` | src/cli/export.ts:199-206 | two listings of the same beads and edges, in any order and with duplicate edges, come out equal |
| `TopoOrder.PickReady` | src/cli/export.ts:224-231 | of the waiting beads with nothing left blocking them the one with the lowest priority number, among those the id that sorts first; none only when none is ready |
| `TopoOrder.EmittingLowersInDegree` | src/cli/export.ts:234-243 | emitting a bead lowers each in-degree by the number of times it blocks that bead, duplicates included |
| `TopoOrder.StallReturns` | src/cli/export.ts:233-234 | when nothing waiting is ready, no order finishes every waiting bead after what it leads to, so the search's fallback is not reached |
| `FindCycle.FindCycle` | src/cli/export.ts:247-284 | the path is the first back edge's walk of the search in sorted order, a function of the links alone, and ends where it began; where that search finds nothing, the nodes can be finished one after another |
| `TopoOrder.CycleIgnoresInputOrder` | src/cli/export.ts:247-250 | two listings of the same beads and edges report the same cycle |
| `FirstCycle.StallIsUnique` | src/cli/export.ts:233-236 | however the emitting went, the beads left waiting by a stall are the same |
| `FirstCycle.ReportedIsUnique` | src/cli/export.ts:247-250 | a graph has one reported cycle |
| `FindCycle.CycleSearch.Dfs` | src/cli/export.ts:255-276 | the recursive search over mutable stack and visited set finds and visits what the search on sets does; finding nothing it leaves its stack as it was and the node visited, finding something it returns a closed walk |
| `EpicScope.CollectSubtreeIds` | src/cli/export.ts:169-190 | exactly the epic and the ids of beads whose chain of parent fields leads to it, even where parents form a cycle |
| `EpicScope.CollectEpicScope` | src/cli/drain.ts:117-138 | exactly the ids reachable by the children the reads give, an unreadable parent having none |
| `EpicScope.ScopesAgree` | src/cli/drain.ts:114-138 | the drain's scope is the export's when its reads list the same children |
| `ExportDocument.BuildExportDocument` | src/cli/export.ts:296-335 | an unknown epic is refused; a cycle among the listed work is reported, exactly then; otherwise the listing is the least order of the scope's work, neighbours in order of priority and id unless one blocks the other |
| `ExportDocument.ListingIsSelfContained` | src/cli/export.ts:305-327 | every edge and every `dependsOn` id is a listed bead, listed before its dependant |
| `ExportDocument.EdgesAreDependencies` | src/cli/export.ts:305-327 | the edges and the beads' `dependsOn` describe the same relation |
| `ExportDocument.ListingIgnoresInputOrder` | src/cli/export.ts:296-335 | the same beads in any order give the same beads and edges |
| `ExportDocument.CycleIgnoresInputOrder` | src/cli/export.ts:296-335 | and the same cycle, where they are refused for one |
| `ExportDocument.ListingIsTheWork` | src/cli/export.ts:305-312 | what is listed is the beads that are not epics and, where an epic is named, descend from it by their parent fields |
| `ExportDocument.EdgesAreSorted` | src/cli/export.ts:325 | the edges are listed by the id that blocks, and among those of one by the id blocked |
| `ExportDocument.KeptInOrder` | src/cli/export.ts:332 | dropping the dependencies that are not listed keeps the others in order, repeats included |
| `Lines.ChunkingIsInvisible` | src/agents/runner.ts:464-471 | however a text is cut into chunks, the lines delivered and the carried partial are its split |
| `Lines.JoinOfSplit` | src/agents/runner.ts:466-467 | the pieces of a split hold no newline and join back to the text |
| `Lines.SplitOfJoin` | src/agents/runner.ts:466-467 | newline-free pieces are recovered from their join |
| `Lines.TrimMeans` | src/phalaka/planning-read.ts:113 | trimming takes the white space off both ends and nothing else |
| `ActivityStream.TailIsSplitOfAppended` | src/phalaka/stream.ts:202-249 | for every schedule of visits to a growing file, failing ones included, the lines cut and the partial are the split of what was appended |
| `ActivityStream.PrimedOnMissingSplicesNul` | src/phalaka/stream.ts:372-378 | over every schedule of visits, a growing file missing when primed has the lines of its text with a NUL spliced in behind what its first read found |
| `ActivityStream.PrimedTailIsExact` | src/phalaka/stream.ts:145-155 | the lines cut and the partial are the split of what was appended exactly if the file existed when primed, or nothing of it was read |
| `ActivityStream.NextLineHoldsNul` | src/phalaka/stream.ts:228-241 | the next line cut from a partial that ends in the NUL begins with that partial |
| `ActivityStream.SeenShrinkRestarts` | src/phalaka/stream.ts:217-226 | a shrink that a visit sees restarts the tail exactly when that visit reads something |
| `ActivityStream.TruncatedToEmptyLosesText` | src/phalaka/stream.ts:217-226 | a file seen empty and then regrown past the old offset loses what lies before it |
| `ActivityStream.ActivityTails.Prime` | src/phalaka/stream.ts:145-155 | each path's offset becomes the size seen, -1 for a missing file, and no partial changes |
| `ActivityStream.ActivityTails.DrainOne` | src/phalaka/stream.ts:202-249 | one path's tail takes its visit, the events of the lines cut are sent in order, and no other path's tail changes |
| `ActivityStream.ActivityTails.DrainActivity` | src/phalaka/stream.ts:202-249 | each path takes exactly one visit from the tail it came with, and the events follow in path order |
| `ActivityStream.ActivityTails.DrainAll` | src/phalaka/stream.ts:194-249 | over any schedule of drains, each with its own paths and disk, every path's tail takes its visits and the frames sent for it are the events of the lines they cut |
| `ActivityStream.FramesAreTheLines` | src/phalaka/stream.ts:200-202 | so for a growing file they are the events of its appended complete lines, each once and in order |
| `AgentStdout.StdoutSplitter.OnData` | src/agents/runner.ts:464-471 | the parser gets the non-blank complete lines of carry and chunk, and the rest is carried |
| `AgentStdout.StdoutSplitter.Run` | src/agents/runner.ts:464-487 | a whole process, its data events and its close: the lines handed to the parser are the non-blank lines of the whole output |
| `AgentStdout.StdoutIsItsLines` | src/agents/runner.ts:464-487 | over any chunks and the close, the parser gets each non-blank line of the whole output once, in order, the last one flushed |
| `PlanningFold.FoldPlanningSessions` | src/phalaka/planning-read.ts:90-199 | the loops give each session the log tells of once, in the order it first speaks of them, showing the furthest milestone its lines name, in each field what they last say, and the usage that is its own |
| `PlanningCharges.SessionsTellTheLog` | src/phalaka/planning-read.ts:112-199 | over every log: phase and running are read off the six event kinds by name, launch, end, resume, epic, document, summary, choice, plan and decision are what the last line to set them says, and tokens, cost, `priced` and `usageRecorded` those of the session's own usage events |
| `PlanningMeaning.LastSaidMeans` | src/phalaka/planning-read.ts:126-164 | what a session's lines last say of a field is what the last line about it to say anything says, and nothing where none does |
| `PlanningCharges.SessionIsChargedItsOwn` | src/phalaka/planning-read.ts:181-196 | a usage event is charged to the first session to have filed its bead as epic, else to the session of that id, once and with nothing else of the session changed |
| `PlanningTail.DroppedLineIsUnused` | src/phalaka/planning-read.ts:201-222 | a line the filter drops is one the fold passes over, when it parses as its trim does |
| `PlanningTail.FilterIsInvisible` | src/phalaka/planning-read.ts:201-222 | if the filter retains every line of a log that the fold uses, folding the retained lines gives the fold of every line |
| `PlanningTail.LineIsKeptExactly` | src/phalaka/planning-read.ts:210-222 | filtering a line changes no fold, whatever came before, exactly when the line is retained or the fold does not use it |
| `PlanningTail.RetainedArePlanners` | src/phalaka/planning-read.ts:210-222 | the lines retained are those of the planner's own event kinds and the usage it reported, no executor's |
| `PlanningTail.FilterIsInvisibleExactly` | src/phalaka/planning-read.ts:201-222 | no log shows the filter exactly when it retains every line the fold uses |
| `PlanningTail.TrimmedIsRetained` | src/phalaka/planning-read.ts:201-222 | a used line that parses as its trim does is retained |
| `PlanningTail.LostSession` | src/phalaka/planning-read.ts:210-222 | a used lifecycle line that is dropped takes its session with it |
| `PlanningTail.LostCharge` | src/phalaka/planning-read.ts:168-222 | a used usage line that is dropped leaves its session, if the log has one, uncharged by exactly what it reports |
| `PlanningTail.PlanningReader.PlanningRelevantLines` | src/phalaka/planning-read.ts:248-293 | one poll: a shrink restarts, an unreadable file changes nothing more, growth appends the retained complete lines |
| `PlanningTail.TailFollowsLog` | src/phalaka/planning-read.ts:248-293 | after any polls of a log that appends or is seen shrunk, offset, partial and lines are those of the log as last seen |
| `PlanningTail.IncrementalFoldIsFullFold` | src/phalaka/planning-read.ts:224-293 | and if the filter retains the used ones of the log's complete lines, folding what the tail kept gives the sessions of all of them |
| `PlanningLaws.MilestonesOnlyAdvance` | src/phalaka/planning-read.ts:90-199 | as the log grows sessions keep their place and id, never go back a milestone, and have ended exactly when they stopped running |
| `PlanningLaws.UsageIsConserved` | src/phalaka/planning-read.ts:168-199 | every matched usage event is charged to one session once: input tokens, output tokens and cost add up |
| `ProcessStream.PollKeepsAgreement` | src/phalaka/stream.ts:265-282 | a client whose panel shows each slot's status, phase, paused, pid and stuck shows them after a whole poll, vanished slots as dead, whatever order they go in |
| `ProcessStream.UnmovedIsNotSent` | src/phalaka/stream.ts:96-106 | a slot whose snapshots differ from before only in the fields that tick gets no frame |
| `ProcessStream.SlotIsKindAndKshetra` | src/phalaka/stream.ts:92-94 | two snapshots fill one slot exactly if they are of one kind and one Kshetra |
| `ProcessStream.ChangeStream.AddClient` | src/phalaka/stream.ts:159-172 | a new client sees exactly the current slots and state, no other client anything, and a seeded baseline stays |
| `ProcessStream.ChangeStream.RemoveClient` | src/phalaka/stream.ts:175-185 | only that client goes, and an unknown id changes nothing |
| `ProcessStream.ChangeStream.MaybeEmitState` | src/phalaka/stream.ts:253-262 | a changed state that parses goes to every client once; an unchanged or unparsable one to nobody |
| `ProcessStream.ChangeStream.PollProcesses` | src/phalaka/stream.ts:265-282 | every client gets the same frames and afterwards shows the status, phase, paused, pid and stuck of every new snapshot; a slot in which none of the five moved is sent to nobody; the baseline is the new snapshots alone |
| `ProcessStream.ChangeStream.Refresh` | src/phalaka/stream.ts:194-198 | a tick leaves every client showing the five fields of each process and the state as they are |
| `ReadCache.KeyNamesProject` | src/phalaka/beads-read.ts:172 | a key names its project back exactly when the project is separator-safe |
| `ReadCache.Cache.Begin` | src/phalaka/beads-read.ts:174-179 | a live entry is a hit with its value; otherwise the read starts in its project's generation |
| `ReadCache.Cache.Finish` | src/phalaka/beads-read.ts:180-183 | the value is kept only in the generation the read began in |
| `ReadCache.Cache.Invalidate` | src/phalaka/beads-read.ts:164-168 | the project's generation goes up and exactly the keys with its prefix go |
| `CacheRuns.HitsAreFresh` | src/phalaka/beads-read.ts:163-184 | over every interleaving of reads, changes and invalidations a hit was read after its project's last invalidation and shows no less than the store held then |
| `CacheRuns.HitsShowTheRun` | src/phalaka/beads-read.ts:163-184 | in terms of the run alone: a hit was read by a step of its own project and key behind the project's last invalidation, and shows every change made before that and none not made |
| `CacheRuns.WorldRemembersRun` | src/phalaka/beads-read.ts:163-168 | the version, cutoff and due of a project are its changes, its last invalidation and the changes before that |
| `CacheRuns.InvalidatedChangesAreSeen` | src/phalaka/live.ts:88-92 | where every change has been followed by an invalidation, a hit shows the store as it is |
| `CacheRuns.UnsafeProjectCachesStaleRows` | src/phalaka/beads-read.ts:172-183 | for any other project name a read that an invalidation overtook is cached |
| `AgentRun.Ledger.RunAgent` | src/agents/runner.ts:98-222 | the attempt loop leaves the specified ledger and result |
| `AgentRun.Ledger.ReportUnmetered` | src/agents/runner.ts:324-344 | one closing event whose cause is aborted if the error or the signal is an abort, else a failed spawn, else an error |
| `AgentRun.OneToFourSessions` | src/agents/runner.ts:140-172 | an allowed run starts one to four sessions, a denied run none |
| `AgentRun.EverySessionClosesOnce` | src/agents/runner.ts:318-323 | each start is followed at once by the one event that closes its session |
| `AgentRun.NothingElseCloses` | src/agents/runner.ts:318-323 | every closing event closes the session started just before it |
| `AgentRun.LedgerReportsExactly` | src/agents/runner.ts:140-215 | the ledger holds a usage for a session exactly if a started attempt ran it up, returning or failing, and an unmetered close with its cause exactly if one failed without |
| `AgentRun.RetryExactlyAfterTransient` | src/agents/runner.ts:197-217 | attempt k+1 starts exactly when attempt k did and failed with a transient error that was no abort, the signal not having fired when it was caught nor by the end of the wait |
| `AgentRun.ResultIsTheLastAttempt` | src/agents/runner.ts:177-222 | the run succeeds exactly when a started attempt did, with that session; otherwise it throws the last attempt's error, or the abort that cut its wait short |
| `Budget.RoundCostIsClosestMicro` | src/ext/spend.ts:28-32 | rounding gives whole micro-dollars, less than half of one down or at most half of one up, and leaves whole ones alone |
| `Budget.CostIsNearExact` | src/ext/pricing.ts:143-154 | a priced run costs a whole, non-negative number of micro-dollars within half of one of the exact token cost; an unpriced one nothing, flagged so |
| `Budget.CostIsByKind` | src/ext/pricing.ts:146-150 | a million tokens of one kind cost that kind's rate, and costs add up over tokens |
| `Budget.ComputeSpend` | src/ext/spend.ts:39-60 | the loop returns the rounded sums and the unpriced counts, of the bead's entries and of all |
| `Budget.UnpricedCounts` | src/ext/spend.ts:39-60 | an unpriced count is how many of the entries carry no price |
| `Budget.BeadSpendsAddUp` | src/ext/spend.ts:39-60 | the beads' spends add up to the Kshetra's, to the micro-dollar |
| `Budget.SpendIsNearExact` | src/ext/pricing.ts:151-154 | after n priced runs the spend is within n half micro-dollars of what the tokens cost |
| `BudgetPolicy.MayProceed` | src/ext/budget-policy.ts:47-75 | an inner denial is returned as it is; otherwise a run is allowed exactly when neither cap is reached, and a denial names the bead's cap before the Kshetra's |
| `BudgetPolicy.SpendStaysUnderCapAndSlack` | src/ext/budget-policy.ts:59-75 | with at most k runs in flight, each attempt costing at most C, the spend of the Kshetra and of every bead stays under its cap plus 4kC, however they interleave |
| `BudgetPolicy.AttemptsAreCounted` | src/agents/runner.ts:140-172 | over every run, at most four attempts end for each dispatch, unmetered ones counted, and no more runs are in flight than were dispatched and have not ended |
| `BudgetPolicy.AtCapNothingStarts` | src/ext/budget-policy.ts:59-63 | once spend has reached a cap no later dispatch charged to it starts |
| `BudgetBound.BoundIsReached` | src/ext/budget-policy.ts:59-75 | with caps and costs in micro-dollars, some permitted run from nothing spent reaches, on the Kshetra or any bead, exactly its cap less a micro-dollar plus 4kC |
| `BudgetBound.BoundIsNeverPassed` | src/ext/budget-policy.ts:59-75 | no run from any start goes beyond that |
| `BudgetBound.CapIsHardExactly` | src/ext/budget-policy.ts:5-7 | for positive caps, no run passes a cap exactly when nothing may be in flight or no attempt can cost a micro-dollar |
| `BudgetBound.CapCanBePassed` | src/ext/budget-policy.ts:59-62 | in every other case a permitted run carries spend past a cap |
| `DrainLoop.Drive` | src/cli/drain.ts:173-206 | startup once and first, no await after a signal or a rejection, no two cycles without a delay but after a `ran` or once as a probe, at most `maxCycles` cycles, and an unsignalled end only at the cap, after two `no-work` cycles with nothing settling, or by a startup or cycle that rejects |
| `DrainLoop.DriveDrain` | src/cli/drain.ts:152-246 | a rejected startup or cycle ends the drain with no verdict and nothing awaited after it; else after the loop only delays while something settles; a signal gives 130 or 143; otherwise nothing settles and the verdict is that of the classified open beads |
| `DrainLoop.IdleCyclesAreBounded` | src/cli/drain.ts:175-206 | no hot loop: at most two idle cycles for each startup, delay or completed task |
| `DrainVerdict.MostTellingReason` | src/cli/drain-classify.ts:98-117 | a bead's category is the first, in the stated precedence, whose condition holds of it |
| `DrainVerdict.BudgetCapIsRead` | src/cli/drain-classify.ts:79 | notes name a budget cap exactly if they read "budget cap" somewhere, in whatever case |
| `DrainVerdict.ExhaustionIsRead` | src/cli/drain-classify.ts:83 | notes name exhaustion exactly if they read "after N rounds", or "exceeded N " and behind it on the line "attempt", in whatever case |
| `DrainVerdict.CategoryMeans` | src/cli/drain-classify.ts:98-117 | a bead is budget-denied exactly when its notes name a budget cap, and ready but unworked exactly when nothing holds it |
| `DrainVerdict.ClassifyOpenBeads` | src/cli/drain-classify.ts:127-147 | one entry for each open bead in order, an unreadable one being open |
| `DrainVerdict.StalledEntries` | src/cli/drain.ts:228-236 | the verdict lists each open bead once; `not-reached` is exactly a workable bead of a capped drain, `ready-but-unworked` of an uncapped one, and every other entry keeps its category |
| `DrainVerdict.ExitCodeExactly` | src/cli/drain.ts:219-246 | exit 0 exactly when nothing is open, 11 exactly when an open bead is budget-denied, 12 exactly when none is and the capped drain left a workable bead, else 10, each with its reason and the open beads |
| `SelfHeal.NoResetUnderACycle` | src/cli/worker-runtime.ts:164-168 | over every interleaving of startup, cycles, operator resumes and heals, no work-tree reset overlaps a prepare, a run or another reset, and a heal resets only after the run it aborted has finished |
| `SelfHeal.HealHoldsRunsBack` | src/cli/worker-runtime.ts:243-246 | from the abort to the end of the reset it is one heal of one run and no other run is prepared or started |
| `SelfHeal.ResetCanBeginBeforeIdle` | src/cli/worker-runtime.ts:261-273 | a concrete run in which the reset begins before the phase is back to IDLE |
| `SelfHeal.DoneResolvesBeforeIdle` | src/cli/worker-runtime.ts:268-273 | whichever run returns, the phase is still its own when `done` resolves, and a heal there is waits for this run and may reset at once |
| `SelfHeal.ResetBeginsBeforeIdle` | src/cli/worker-runtime.ts:490-491 | a reset can begin only while the run unwinds, between cycles or in a selection that ends in nothing, and with the reaction to `done` queued before the cycle's return always before the phase is IDLE |
| `SelfHeal.WorkerRuntime.Watch` | src/cli/worker-runtime.ts:482-497 | a tick starts a heal exactly when the pause it saw last was for `stuck` and the one it sees is not, with a run in flight and no heal under way; it aborts that run alone |
| `SelfHeal.WorkerRuntime.BeginCycle` | src/sthapathi/index.ts:149-155 | a cycle under way is left alone, and a new one can come to prepare a task exactly if no heal is under way |
| `SelfHeal.WorkerRuntime.Prepare` | src/cli/worker-runtime.ts:257-267 | when preparing ends no reset and no heal is under way; a prepared task gets a handle that no run had and nobody aborted, any other none |
| `SelfHeal.WorkerRuntime.ReturnRun` | src/cli/worker-runtime.ts:268-273 | a heal that waits was waiting for this run and may now reset |
| `SelfHeal.WorkerRuntime.BeginHealReset` | src/cli/worker-runtime.ts:490-491 | when the reset begins no cycle prepares or runs, and the aborted run has finished |
| `SelfHeal.WorkerRuntime.Turns` | src/cli/worker-runtime.ts:164-168 | the methods, called in any order the event loop allows, carry out that run of steps and leave the work tree safe after each |
| `OrphanAgents.SignalledExactly` | src/agents/agent-procs.ts:155-178 | the groups killed are exactly those an orphaned record claims, and the lone agents likewise |
| `OrphanAgents.GroupsKilledAreOrphans` | src/agents/agent-procs.ts:126-129 | a group killed is not this process's own and holds none of it, is named by a record whose worker is not live, and has no leader newer than the record and the slack |
| `OrphanAgents.OrphansAreKilled` | src/agents/agent-procs.ts:114-116 | a live orphan is killed with its group or by itself, unless its group is this process's own |
| `OrphanAgents.KilledExactly` | src/agents/agent-procs.ts:149-174 | in terms of table and records: a group is killed exactly if a record with no live worker behind it and no newer process on its pid names it as its own or its worker's, it has members, is not this process's and is not led by a newer process; an agent by itself exactly if it leads no group |
| `OrphanAgents.RecordKillsInOrder` | src/agents/agent-procs.ts:164-174 | a record's own group is killed first, then its worker's, neither a second time, then the agent alone |
| `OrphanAgents.ExitedAreReported` | src/agents/agent-procs.ts:169-172 | a record left behind whose agent is gone is always reported |
| `OrphanAgents.GroupsAreKilledOnceExactly` | src/agents/agent-procs.ts:165-175 | no group is killed twice, exactly when none is first claimed by a record that is its own worker |
| `OrphanAgents.OwnProcessIsSparedExactly` | src/agents/agent-procs.ts:168-174 | this process is killed as a lone agent exactly when an orphaned record carries its pid and no process has that group |
| `OrphanAgents.TwinRecordIsKilledTwice` | src/agents/agent-procs.ts:165-175 | a table and a record that is its own worker, whose group is killed twice |
| `OrphanAgents.ReusedPidKillsOwnProcess` | src/agents/agent-procs.ts:168-174 | a table and a record whose pid this process has reused within the slack: it is killed |
| `OrphanAgents.FoundAreOrphans` | src/agents/agent-procs.ts:118-121 | each report is of an orphaned record, names only pids of that record's groups or its own, is stopped exactly when something was killed for it, and exited only if its pid is gone |
| `OrphanAgents.AgentsDir.StopOrphanedAgents` | src/agents/agent-procs.ts:131-187 | a normal return sends the scan's kills, of which none is still there, and drops the reported and the pre-boot records; survivors or an unreadable table drop only the pre-boot ones and name the pids |
| `OrphanAgents.WithoutExactly` | src/agents/agent-procs.ts:184 | dropping the reported records drops exactly the records of their pids |
| `OrphanAgents.SinceBootExactly` | src/agents/agent-procs.ts:136-140 | the records kept for the scan are exactly those dated after the boot; an unreadable date counts as before it |
| `OrphanAgents.EveryKillIsReported` | src/agents/agent-procs.ts:118-120 | every pid of a killed group, and every lone agent killed, is in some report |
| `FileTree.GraftIsAt` | src/kshetra/snapshot.ts:109-139 | putting a tree somewhere leaves exactly that tree there and nothing changed apart from it |
| `SnapshotHost.Host.CopyTree` | src/kshetra/snapshot.ts:115-135 | however it ends only the destination changed; on success it holds the source's tree; undisturbed, it succeeds exactly when the source exists, the destination does not, neither holds the other and no parent is a file |
| `SnapshotHost.Host.MoveTree` | src/kshetra/snapshot.ts:137-151 | however it ends, within a device or across two, the tree stands whole at the source or at the destination and nothing else changed; on success it is gone from the source; undisturbed, it succeeds exactly when such a copy would |
| `FreezeOut.ResolveFreezeOutDir` | src/cli/freeze.ts:75-112 | the directory returned is absent or empty: `--out` itself when that is, otherwise the first free of base, base-2, base-3, … under it, and only where every entry not hidden is a directory with a manifest; the search ends |
| `FreezeOut.DecimalIsNumeral` | src/cli/freeze.ts:106-110 | the number in such a name is its decimal numeral |
| `SnapshotHost.Host.RunFreeze` | src/cli/freeze.ts:154-204 | however it ends no location changed; on success each location present is in the snapshot as it was and has an entry saying so, absent ones an entry saying that; undisturbed, it succeeds exactly when what must be there is there and the snapshot's place is free |
| `SnapshotHost.Host.RunRestore` | src/cli/restore.ts:103-148 | at whatever call it fails it can be undone: each location's tree from before stands in its place or in the archive, this Kshetra's flags are unchanged or in the archive, the others' unchanged; on success the archive holds all of it and each location the snapshot's tree or nothing; undisturbed, it succeeds exactly when the archive can be made, what was captured is there and readable, and nothing above a place to restore is a file |
| `Snapshot.FrozenIsRestorable` | src/cli/restore.ts:128-148 | a finished freeze can be restored exactly when the archive can be made and nothing above a captured location's place has become a file |
| `Snapshot.LookupIsLast` | src/cli/restore.ts:104 | of several manifest entries with one key the last is used |
| `Snapshot.SliceIsReadableExactly` | src/cli/restore.ts:133-141 | a captured slice can be put back exactly if its file is there and holds the JSON of one |
| `Snapshot.RestoreBringsBackTheFrozen` | src/cli/restore.ts:110-148 | freeze, any life that leaves the snapshot alone, then restore: every location as frozen, absent ones absent, flags as frozen with `stuck` gone and the pause latches off, other Kshetras' flags untouched, and what was replaced in the archive |
| `Snapshot.RestatedOnce` | src/kshetra/state.ts:80-97 | restoring the slice changes this Kshetra's entry alone |
| `GlobSyntax.PassTwo` | src/kshetra/toolchain.ts:158-159 | escaping and the first rewrite turn exactly the `**/` tokens into their sentinel, in any run of stars |
| `GlobSyntax.PassesTranslateTokens` | src/kshetra/toolchain.ts:156-165 | where no sentinel closes by accident the six passes translate the glob token by token |
| `GlobSyntax.SafeWithoutAt` | src/kshetra/toolchain.ts:153-155 | without `@` the sentinels are safe unless the glob spells `DIRS` between two of them |
| `GlobSyntax.CollisionLeavesSentinelEnd` | src/kshetra/toolchain.ts:160-163 | and where it does, half a sentinel stays in the RegExp as literal text |
| `GlobMatch.SafeGlobIsFaithful` | src/kshetra/toolchain.ts:150-165 | any glob without `?` whose sentinels are safe compiles to a RegExp whose language is the glob's meaning, line by line |
| `GlobMatch.GlobIsFaithfulExactly` | src/kshetra/toolchain.ts:150-165 | a glob without `@` compiles to its meaning exactly when it has no `?` and spells no `**DIRS**` |
| `GlobExact.FaithfulExactlyWhenSafe` | src/kshetra/toolchain.ts:150-165 | every glob compiles to its meaning exactly when it has no `?` and neither sentinel pass finds its sentinel anywhere but where an earlier pass wrote it |
| `GlobExact.AccidentShows` | src/kshetra/toolchain.ts:162-163 | any accidental sentinel changes the literal characters the RegExp asks for; a glob that keeps them compiles to itself |
| `GlobCompile.RegExpMeansCompiled` | src/kshetra/toolchain.ts:156-165 | the RegExp of any glob without `?` means, line by line, the tokens the sentinel passes leave |
| `GlobCompile.MarkIsNeverFaithful` | src/kshetra/toolchain.ts:157 | no glob with a `?` is translated faithfully |
| `GlobMatch.MarkMakesOptional` | src/kshetra/toolchain.ts:157 | a `?` left bare makes the character before it optional, a second one only lazy, and a third or a leading one is a syntax error |
| `GlobMatch.FaithfulOnLines` | src/kshetra/toolchain.ts:150-165 | on a path without line terminators the match is the plain meaning; elsewhere it only matches less |
| `GlobMatch.NewlineIsMissed` | src/kshetra/toolchain.ts:162-163 | of single characters `**` matches all but the four line terminators |
| `GlobMatch.SpelledSentinelIsNotFaithful` | src/kshetra/toolchain.ts:163 | a glob that spells the `**` sentinel out compiles to `.*` |
| `GlobMatch.DirectoriesEndInSlash` | src/kshetra/toolchain.ts:150-152 | zero or more directories are exactly the empty text and what ends in a slash |
| `GlobMatch.TestGlobMeaning` | src/kshetra/toolchain.ts:170-176 | with faithful globs a path matches exactly when one with a slash means the whole path, or one without means what stands behind the path's last slash |
| `GlobMatch.BaseName` | src/kshetra/toolchain.ts:171 | the part of the path behind its last slash |

## Left out

- Doubles: amounts of money are `real`, so floating-point error in the sums is not modelled; rounding to micro-dollars is.
- Character order beyond the basic plane, text encodings and a chunk that ends inside a character: strings are sequences of characters, compared by code.
- Short reads, and a file that is truncated and regrown between two looks.
- Bead priorities are integers; the fields of a bead that only renderers use are not modelled.
- JSON, YAML and schema parsing: a total parse function where the code needs one; `parseBeads` and `parseBeadDetail` are not part of this model.
- The task graph engine, its database, claims and leases, and the PR `reconcile`, whose gate is looked at only on entry: no claim is made that it does not overlap a cycle.
- `looksLikeShreniProcess` and the rest of the liveness check: a check that recognises a live owner and may say anything of another pid.
- Real waiting: naps, backoffs, delays and timers are steps.
- What an agent prints between its start and its close, its turn counters, the manifest hash, and `looksTransient` itself, which enters as a verdict on each error.
- The usage meter failing: the bound on spend is on recorded spend, with the caps as they stand.
- The price table and its overrides (`loadOverrides`, `priceTable`): the price is an input.
- The reason texts of `classifyBeadDetail`, which follow from the category.
- Freeze and restore around their loops: the stamp and slug a snapshot is named by, the project's bundle, the manifest's ids and sizes, the guards, `--clean`, the ledger entry and the verification.
- Two processes rewriting state.json at once: a load and its save are one step.
- Symbolic links, and what a copy or a rename does to a destination that exists, which the comments rule out: the model's calls then fail. A file system call may fail at any point, and then leaves anything at the place it writes.
- The purge and import of the project's bundle between the making of the archive and the two loops of a restore.
- The order of the pids in `killed`, which is a set here.
- A rejection of the reads the exit sequence makes, which ends a drain as a rejected cycle does.
- DrainLoop.DriveDrain: an uncapped drain, or one waiting for something to settle, is followed for a given number of awaits, because it need not end.
- The Fastify routes, server-sent event headers, consoles and Markdown rendering, and the `init`, `db`, `migrate`, `telemetry`, `register` and `list` commands: easy members only.
