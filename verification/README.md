# Verified models of OpenCodex's release and test tooling, steering probe and router

Each group of files models one part of the repository in Dafny and proves what that part is for.
`dafny verify dfyconfig.toml` checks the whole project. Code that updates state is a class or a method with
loops, tied by its contract to a function of the old state; code made of expressions is a function.

- **Import cycles** (`ModuleGraph`, `TarjanInvariant`, `TarjanFinish`, `ImportCycles`, `CycleRatchet`). The
  iterative Tarjan walk with its frames, `index`/`low` maps and stack returns exactly the strongly connected
  components, by reachability, that have several members or a self edge; it takes exactly |V| + |E| turns,
  counting every listed edge. On top of it: the verdict and the baseline that can only shrink.
- **Streaming event reader** (`SseFraming`, `SseFrames`, `SseReader`). The buffer is normalised and cut again
  after every chunk. That agrees with one normalisation of the whole text for every chunking if and only if
  the text has no CR CR LF; a text with one is given a chunking that breaks it. A read succeeds exactly on
  `(event | skip)* completion skip* [DONE] skip*` within the limits, an event being said on the frame's lines and
  the fields of the parsed payload; each failure code has its own condition. The format is that of
  sections 9.2.5 and 9.2.6 of the WHATWG HTML Living Standard, read more strictly: only LF and CRLF end a line,
  and unknown or colonless fields are refused.
- **Test-run lock** (`LockModel`, `LockSafety`, `LockDirectory`). A step system with any number of processes
  and crashes at any point. Three environment promises are parameters: nothing runs between a poll's reading
  of a stale owner and its rename aside; a live process writes its owner file within the grace of its `mkdir`;
  and a process that releases a lock recorded in another process's name (`ownerPid`) is not interrupted between
  its owner read and its rename. Mutual exclusion over all runs, of tokens and of the test runs that processes were
  let in for, holds if and only if all three are kept: for each promise dropped there is a concrete run that ends
  with two live holders of two runs. Joins, and releases in a
  process's own name, may be interrupted anywhere. With the promises kept, the lock never wedges; and with nothing
  else running, the acquire loop with its sleeps and its deadline comes to an end in all cases but one.
- **Steering probe** (`MarkerSearch`, `ProbeModel`, `ProbeTimeline`, `ProbeStory`, `ProbeReports`, `ProbeFreedom`,
  `SteeringProbe`). Any frame sequence, any marker. The sliding tail finds the marker exactly when the whole
  text contains it; behind a passed report every milestone and every control sent is placed at the frame that
  brings it about; every other end of a run is tied, code by code, to the frame that is its reason; and nothing is
  sent or changed once a report exists.
- **Version line** (`VersionOrder`, `VersionLine`, `VersionBumps`, `VersionLineProofs`, `VersionText`,
  `VersionPattern`, `DevVersion`, `DevHistory`, `PaddedRelease`, `PaddedDev`). The comparator is the precedence of
  section 11 of SemVer 2.0.0 and a total preorder; the resolvers' refusals are characterised exactly, their
  unreachable guards are proved unreachable, and what they and the dev bump yield is said by precedence alone: the
  least stable version that changes the asked component. The two version patterns are said on the pieces of a text.
  For every two texts the dev bump accepts it is stated exactly when a decision does not lower dev and when it
  clears the release, and for every history when dev stays ahead: always, if neither dev's first text nor any
  release starts with white space.
- **Router** (`RouteDecision`, `RouteOrder`, `RouteOutcomes`, `Router`, `RouteChain`). Policies, combos, accounts,
  namespaces, aliases, patterns, defaults and redirects, recursive. Every request ends; what each kind of id gets,
  provider, model or refusal, is stated by cases on the configuration; and a request is routed exactly when its
  chain of redirects ends after at most five different ones, and then where it ends.
- **Version sources** (`TextLines`, `TomlLines`, `JsonVersion`, `SourcePatterns`, `VersionSources`,
  `VersionWriter`). The line tests and the first JSON match are said on the pieces of a line or text. The rules for the Cargo files are lenses. The JSON rule reads back what it wrote and forgets an earlier write, and
  writing back what was read is the identity exactly on a text that spells its first match that way. The four
  files move together or not at all, short of a failing rename.
- **Release notes** (`ReleaseCommits`, `ReleasePatterns`, `ReleaseRender`, `ReleaseCoverage`, `ReleaseListing`).
  Every releasable commit is represented in the rendered body, and the validator can only ever find the changelog
  empty. Skip labels, landing references and release commits are said on the characters of the text.
- **Smaller cores**: the budgeted tree walk (`TreeInspection`), the service-definition decoders (`TextCodecs`)
  and the effort clamp (`EffortLadder`). `Sorting` holds the text order and the stable sort they share.

Where the code and what it says of itself part ways, the model follows the code:

- Chunk-independence fails for a text with CR CR LF, since a pair left behind by one normalisation is eaten by
  the next (`SseFraming.ChunkingIndependentIff`).
- A pass of the probe does not fix every order. `ProbeStory.PassedMeans` states those it fixes. The steer may be
  accepted after the root response has ended, the continuation may be sent after the successor was created, and
  the tool call may be noted before the root is created, or, after a call with an empty id, after the steer, the
  acceptance and the root's end. `ProbeFreedom` has a passing run for each; `ProbeStory.AcceptedBeforeEndIff`,
  `ContinuedBeforeSuccessorIff` and `NotedBeforeRootIff` say on the frames which way it went, and `OrderIff` says it
  for every other pair.
- The candidate guard of the dev bump is said to hold by construction. It does for every released text that does
  not start with white space (`DevVersion.UnpaddedNeverFires`); the tag form of one that does fails to parse, and
  both comparisons fall back on `localeCompare`. In the order it uses, a published U+FEFF followed by
  2.37.0-preview.1 is refused while dev is at 2.36.0 (`PaddedRelease.BomPreviewRefused`; exactly when:
  `PaddedRelease.RefusalIff`), and a release with a space in front never moves dev, however stale
  (`PaddedRelease.SpacedReleaseLeavesDev`, `StaleDevStays`).
- A decision is meant neither to lower dev nor to leave it at or behind the release. `DevVersion.DecisionIff` says
  exactly when it does neither, for all texts and every text order. In the order used, it lowers dev only where
  dev's text starts with ordinary white space: an ordinary release then always moves it to the candidate, 2.40.0
  with a space in front down to 2.37.0 when 2.36.0 is published (`PaddedDev.LowersIff`, `SpacedDevLowered`). And
  2.36.0 published behind U+FEFF leaves dev at 2.36.0-preview.1 (`PaddedDev.LeftBehindIff`, `OwnPreviewStays`).
- The clamp and the catalog's resolver are meant to agree. They do exactly where `EffortLadder.Agree` says, request
  by request: not for `none` or an unknown label on a ladder with a rung, not for a rung when a ladder with a
  sentinel has none at or below it, and not always for `minimal` (`EffortLadder.ClampAgreesIff`; inputs:
  `NoneDisagrees`, `SentinelDisagrees`, `MinimalDisagrees`).
- A wait for the lock is bounded by a deadline. With nothing else running, the loop acquires, joins or times out within
  it, except exactly for a contender of the live owner's own run whose member file cannot be written: it goes round
  for ever, without sleeping or looking at the deadline (`LockDirectory.LockPath.AcquireAlone`; `LockSafety.MayJoin`
  is a state, reached under all promises, in which a contender is about to join).
- The resolver is said never to raise a request, yet answers the lowest rung when all lie above it
  (`EffortLadder.ResolveMeaning`).

Outside functions enter as parameters: `localeCompare` is an arbitrary text order, consistent where a lemma
says so, and in `PaddedRelease` the part of the order of `numeric` and `base` that version texts use; the JSON
parser, the policy, combo, credential and alias look-ups of the router and the wording of release-note lines are
arbitrary functions. Numbers are mathematical integers.

## Model

| member | source | states |
|---|---|---|
| `ImportCycles.CyclicComponents` | scripts/import-cycles.ts:92-140 | for every graph the result is exactly the components, by reachability, with several members or a self edge, each once, disjoint, in text order inside and by length then name outside; exactly V + E turns |
| `ImportCycles.Scan.Turn` | scripts/import-cycles.ts:107-138 | one turn keeps the walk invariant and the report, and either follows one more edge or finishes one frame |
| `ImportCycles.Scan.WalkFrom` | scripts/import-cycles.ts:99-138 | a walk from an unvisited key ends with no frame left, the invariant kept and everything it met indexed |
| `ImportCycles.Scan.FollowEdge` | scripts/import-cycles.ts:109-122 | the whole state after following one edge: skipped, discovered, or `low` lowered |
| `ImportCycles.Scan.FinishFrame` | scripts/import-cycles.ts:124-136 | the frame is popped, its `low` folded into its parent, and the component popped and reported exactly when it is a root that cycles |
| `ImportCycles.Scan.Push` | scripts/import-cycles.ts:102-106 | the new module is numbered and put on stack and frames, nothing else changes |
| `ImportCycles.Scan.PopTop` | scripts/import-cycles.ts:124-126 | the top frame goes and the parent takes the smaller `low` |
| `ImportCycles.Scan.PopCycle` | scripts/import-cycles.ts:128-136 | stack and on-stack set lose exactly the segment from the root up; it is reported, sorted, when it has several members or imports itself |
| `ImportCycles.PopComponent` | scripts/import-cycles.ts:128-134 | the do-while pops exactly the stack segment from the root up |
| `ImportCycles.AfterEdgeKeeps` | scripts/import-cycles.ts:109-122 | following an edge keeps every clause of the walk invariant |
| `ImportCycles.FinishedReports` | scripts/import-cycles.ts:127-136 | after a finished frame the report still lists exactly the popped components that cycle |
| `ImportCycles.AllReported` | scripts/import-cycles.ts:92-140 | an empty frame stack with every key indexed means the report is complete and every edge was followed once |
| `TarjanInvariant.DiscoverKeeps` | scripts/import-cycles.ts:113-118 | discovering a module keeps the walk invariant |
| `TarjanInvariant.LowerKeeps` | scripts/import-cycles.ts:119-121 | lowering `low` to a reachable stack index keeps the walk invariant |
| `TarjanFinish.SegmentIsScc` | scripts/import-cycles.ts:127-134 | the segment above a root is a strongly connected component: mutually reachable and maximal |
| `TarjanFinish.PopFrameKeeps` | scripts/import-cycles.ts:124-127 | popping a frame that is no root keeps the walk invariant |
| `TarjanFinish.PopRootKeeps` | scripts/import-cycles.ts:127-134 | popping a root with its segment keeps the walk invariant, the popped set closed under edges |
| `ModuleGraph.OnCycleIffReportable` | scripts/import-cycles.ts:91-136 | a module of a component reaches itself by a non-empty path exactly when the component is reportable |
| `CycleRatchet.CyclicModules` | scripts/import-cycles.ts:142-144 | the modules that reach themselves by a non-empty path, each once, in text order |
| `CycleRatchet.SilentIffExact` | scripts/import-cycles.ts:146-153 | the verdict is empty exactly when the baseline names precisely the modules on a cycle |
| `CycleRatchet.VerdictMembers` | scripts/import-cycles.ts:146-159 | membership and text order of `added`, `resolved` and the updated baseline |
| `CycleRatchet.HistoryMembers` | scripts/import-cycles.ts:155-159 | over any history of scans the baseline is the original less everything that was ever off every cycle |
| `CycleRatchet.UpdateHidesNothing` | scripts/import-cycles.ts:146-159 | after an update nothing is resolved and the same modules are added |
| `CycleRatchet.NeverAdmitted` | scripts/import-cycles.ts:155-159 | a module once outside the baseline is named whenever a later graph puts it on a cycle, whatever updates ran |
| `SseFraming.ChunkingIndependentIff` | scripts/codebuddy-live-acceptance.ts:166-181 | incremental and one-shot framing agree for every chunking exactly when the text has no CR CR LF |
| `SseFraming.SplitAfterCrCrLfDiffers` | scripts/codebuddy-live-acceptance.ts:171-173 | a chunk boundary right after a CR CR LF gives different frames or a different remainder |
| `SseFraming.FeedIsOneShot` | scripts/codebuddy-live-acceptance.ts:166-179 | from any settled buffer, feeding the chunks yields the frames and remainder of the whole text |
| `SseFraming.CutThenFeed` | scripts/codebuddy-live-acceptance.ts:174-178 | cutting early and carrying the rest over is cutting late |
| `SseFraming.CutRest` | scripts/codebuddy-live-acceptance.ts:174-178 | what stays behind is a suffix without a blank line |
| `SseFrames.ScanLinesMeaning` | scripts/codebuddy-live-acceptance.ts:130-143 | a frame scans exactly when its fields are known and at most one names the event; all data values are collected in order |
| `SseFrames.SuccessIff` | scripts/codebuddy-live-acceptance.ts:128-164 | a frame sequence is accepted exactly when it is (event or skip)*, a completion, skips, one `[DONE]`, skips, with at most 10,000 events; an event is a frame of known lines whose joined data parse to an object with a type that its event name, if any and not empty, repeats, and that is no failure; the kept events are all of them, the completion last |
| `SseFrames.EventIff` | scripts/codebuddy-live-acceptance.ts:150-157 | a message is a usable event, malformed JSON, a malformed event or a failed response, each exactly on its own condition on the payload and the event name |
| `SseFrames.FailsIff` | scripts/codebuddy-live-acceptance.ts:128-163 | the condition of every failure code of one frame, by what the frame is and what came before |
| `SseFrames.LineMeaning` | scripts/codebuddy-live-acceptance.ts:133-136 | a line has a field with a value exactly when it is the field, a colon and the value, less one space |
| `SseFrames.KnownIff` | scripts/codebuddy-live-acceptance.ts:131-143 | a line is accepted exactly when it is empty, a comment, or one of the four fields |
| `SseFrames.FirstFailureIff` | scripts/codebuddy-live-acceptance.ts:174-178 | reading frames fails as the first of them that fails |
| `SseFrames.KeptShape` | scripts/codebuddy-live-acceptance.ts:146-163 | after any frames: at most one completion, it is last, it names the kept response, and the limit holds |
| `SseFrames.BeforeCompletion` | scripts/codebuddy-live-acceptance.ts:151-163 | acceptance from any fresh progress, with the room that is left |
| `SseReader.ResponseReader.ScanFrame` | scripts/codebuddy-live-acceptance.ts:130-143 | the line loop computes the fields or the malformed-frame failure |
| `SseReader.ResponseReader.ConsumeFrame` | scripts/codebuddy-live-acceptance.ts:128-164 | the new progress or the failure code of one frame, buffer and byte count untouched; `SseFrames.FailsIff` says when each comes about |
| `SseReader.ResponseReader.DrainBuffer` | scripts/codebuddy-live-acceptance.ts:174-178 | every complete frame is consumed in order and the remainder kept |
| `SseReader.ResponseReader.Feed` | scripts/codebuddy-live-acceptance.ts:169-178 | one read: byte limit, append, normalise, drain |
| `SseReader.ReadResponseStream` | scripts/codebuddy-live-acceptance.ts:116-187 | the chunk loop and the final checks, with the exact failure code, and exactly when they succeed |
| `SseReader.FeedChunksIsConsumeAll` | scripts/codebuddy-live-acceptance.ts:166-179 | within the byte limit, reading is consuming the frames of the buffer loop |
| `SseReader.OverLimitFails` | scripts/codebuddy-live-acceptance.ts:169-170 | a stream over the byte limit never succeeds |
| `SseReader.ReadIgnoresChunking` | scripts/codebuddy-live-acceptance.ts:116-187 | the outcome, failures included, is the same for any two chunkings, both within the byte limit, of a text without CR CR LF |
| `SseReader.ReadSucceedsIff` | scripts/codebuddy-live-acceptance.ts:116-187 | exactly when a read succeeds, on bytes, lines, parsed fields and the completed response, and that it then returns all events and the response of the last one |
| `SseReader.ReadFailsIff` | scripts/codebuddy-live-acceptance.ts:165-187 | within the byte limit a read fails as its first failing frame, or else with what is missing at the end |
| `SseReader.ConcludeIff` | scripts/codebuddy-live-acceptance.ts:180-186 | the condition of every failure code at the end of a stream |
| `LockSafety.MutualExclusion` | scripts/test-run-lock.ts:498-560 | in every reachable state at most one token is held by the living, and the directory is its |
| `LockSafety.OneRunAtATime` | scripts/test-run-lock.ts:460-560 | in every reachable state all live processes that were let in, by acquiring or by joining a lock not released, belong to one test run; every confirmed join is on record with the run of the process that joined |
| `LockSafety.RemovedOnlyByReleaseOrDeath` | scripts/test-run-lock.ts:442-457 | a token's directory goes only by its own release or when its owner and members are dead |
| `LockSafety.SplitReleaseTakesItsOwn` | scripts/test-run-lock.ts:518-521 | under the promises a rename that ends an interrupted release takes away the releaser's own lock, whatever ran in between |
| `LockSafety.ExcludesIff` | scripts/test-run-lock.ts:498-560 | mutual exclusion over all runs, of tokens and of the test runs let in, with joins and own releases split into their file-system effects, holds exactly under the three environment promises |
| `LockSafety.SplitPollBreaksExclusion` | scripts/test-run-lock.ts:537-545 | with a poll split between owner read and rename: a concrete run to two live holders of two test runs |
| `LockSafety.LateOwnerBreaksExclusion` | scripts/test-run-lock.ts:506-513 | without the timely owner file: a concrete run to two live holders of two test runs |
| `LockSafety.ProxyReleaseBreaksExclusion` | scripts/test-run-lock.ts:518-521 | with a split release in another, dead process's name: a concrete run to two live holders of two test runs |
| `LockSafety.NeverWedges` | scripts/test-run-lock.ts:498-560 | from every reachable abandoned state a lone contender's owner file is at the lock path after at most two passes, and its holder live when the process it names is |
| `LockSafety.RecoversAfterGrace` | scripts/test-run-lock.ts:434-440 | with no live holder, joiner or maker, waiting out the grace leads to such a state |
| `LockSafety.StepKeepsInv` | scripts/test-run-lock.ts:498-560 | every step keeps the agreement of directory, history, joins and releases under way, makers, holders, and the runs of those who join |
| `LockDirectory.LockPath.LiveMemberExists` | scripts/test-run-lock.ts:404-415 | true exactly when some live process joined this token |
| `LockDirectory.LockPath.LockIsLive` | scripts/test-run-lock.ts:417-419 | true exactly when the owner or a joined process is alive |
| `LockDirectory.LockPath.RegisterMember` | scripts/test-run-lock.ts:421-432 | joined exactly when the file could be written and the owner is still the one read; otherwise the member file is gone again, and a lock path that was renamed away has come back without an owner |
| `LockDirectory.LockPath.ReclaimStaleLock` | scripts/test-run-lock.ts:442-452 | the directory is gone, and the answer says whether it was there |
| `LockDirectory.LockPath.ReleaseRead` | scripts/test-run-lock.ts:518-519 | the owner read of a release, as the step of the model |
| `LockDirectory.LockPath.ReleaseRename` | scripts/test-run-lock.ts:520 | its rename, of whatever directory is there by then |
| `LockDirectory.LockPath.Release` | scripts/test-run-lock.ts:518-521 | both halves uninterrupted: the directory goes only if this owner still holds it |
| `LockDirectory.LockPath.AcquirePass` | scripts/test-run-lock.ts:498-558 | acquires exactly when no directory is there, joins exactly when the directory has a live owner of its own run and the member file can be written, waits exactly on a live owner of another run or an ownerless directory touched less than ten seconds ago, and reclaims otherwise; the whole new state of each |
| `LockDirectory.JudgeIff` | scripts/test-run-lock.ts:536-545 | the verdict on a directory, said on its owner, its members, the processes alive and the clock |
| `LockDirectory.LockPath.JoinExisting` | scripts/test-run-lock.ts:484-496 | a worker with an inherited token joins exactly that live lock of its run, and otherwise changes nothing; it never acquires or reclaims |
| `LockDirectory.JoinBeginsIff` | scripts/test-run-lock.ts:485-491 | a process begins to join exactly the live owner of its own run whose token it asks for |
| `LockDirectory.MakerEffects` | scripts/test-run-lock.ts:506-513 | opening the owner file makes contenders wait again; a failed write takes away the maker's own ownerless directory and acquires nothing |
| `LockDirectory.LockPath.Round` | scripts/test-run-lock.ts:498-559 | one round of the loop, nothing else running: it acquires, joins, reclaims, sleeps or times out as owner, members, clock, member file and deadline say |
| `LockDirectory.LockPath.AcquireAlone` | scripts/test-run-lock.ts:468-560 | with nothing else running the loop ends, within two passes and one for each millisecond to the deadline, exactly when it need not write a member file of a live owner of its own run that it cannot write; a time-out overshoots the deadline by less than one sleep |
| `LockDirectory.LockPath.AcquireAbandoned` | scripts/test-run-lock.ts:498-560 | alone on an abandoned lock the loop ends holding it, never sleeping |
| `MarkerSearch.TailSuffices` | scripts/steering-probe.ts:118-119 | a new piece completes an occurrence exactly when the kept tail and the piece contain one |
| `ProbeTimeline.SlidingSearchExact` | scripts/steering-probe.ts:116-119 | for every non-empty marker and every splitting, the marker is observed exactly when the whole successor text contains it |
| `ProbeTimeline.RootOutputNeverCounts` | scripts/steering-probe.ts:116-119 | before there is a successor no delta counts |
| `ProbeTimeline.RunKeepsControls` | scripts/steering-probe.ts:44-100 | over every run `sentControls` is the number of controls sent: the steer, then the continuation, at most once each and to the right response |
| `ProbeTimeline.NothingAfterReport` | scripts/steering-probe.ts:58-60 | once a report exists no frame changes or sends anything |
| `ProbeStory.RunPassesIff` | scripts/steering-probe.ts:58-115 | a run has passed exactly when one of its frames completes the successor while the probe is running within budget, the marker seen and the input asked for if it has to be |
| `ProbeReports.RunEndsIff` | scripts/steering-probe.ts:58-121 | a run has ended with a code exactly when some frame met the running probe and was the reason for that code; the report then says what the probe knew |
| `ProbeReports.FrameEndsIff` | scripts/steering-probe.ts:58-121 | the condition of each of the seventeen codes on one frame and the state before it: among them a delta or a finished item of another response than the one that is due, an over-long id, 5,000 frames or 2 MiB exceeded |
| `ProbeReports.EventReport` | scripts/steering-probe.ts:50-54 | every report filed has the outcome of its code, and says truly what was accepted, created, observed, continued and sent |
| `ProbeStory.PassedMeans` | scripts/steering-probe.ts:44-122 | behind a passed report: the first frames at which root, steer, tool call, acceptance, root end, successor and continuation come about, what each frame shows, what was sent before and after it, their order, and the completing frame with the marker seen; 1 or 2 controls by scenario |
| `ProbeStory.AcceptedBeforeEndIff` | scripts/steering-probe.ts:81-107 | the acceptance comes before the root's end exactly when no earlier frame ends the root |
| `ProbeStory.ContinuedBeforeSuccessorIff` | scripts/steering-probe.ts:68-100 | the continuation is sent before the successor is created exactly when no earlier frame creates it |
| `ProbeStory.NotedBeforeRootIff` | scripts/steering-probe.ts:66-80 | the tool call is noted before the root is created exactly when no earlier frame creates the root |
| `ProbeFreedom.AcceptanceMayFollowRootEnd` | scripts/steering-probe.ts:81-85 | a concrete passing run in which the acceptance comes after the root ended |
| `ProbeFreedom.ContinuationMayFollowSuccessor` | scripts/steering-probe.ts:86-100 | two passing runs of the same frames, the continuation before and after the successor's creation |
| `ProbeFreedom.CallMayFollowRootEnd` | scripts/steering-probe.ts:74-85 | a concrete passing run in which, after a call with an empty id, the call is noted after the steer, the acceptance and the root's end |
| `ProbeFreedom.CallMayPrecedeRoot` | scripts/steering-probe.ts:74-80 | a concrete passing run in which the tool call is noted before the root is created |
| `SteeringProbe.SteeringProbe.Receive` | scripts/steering-probe.ts:58-122 | one frame: budgets, then the event; the control invariant is kept |
| `SteeringProbe.SteeringProbe.Steer` | scripts/steering-probe.ts:44-48 | the steer is sent at most once, to the root, before it ends |
| `SteeringProbe.SteeringProbe.Finish` | scripts/steering-probe.ts:50-54 | the first report stays |
| `SteeringProbe.SteeringProbe.ReceiveCreated` | scripts/steering-probe.ts:66-73 | root, then a distinct successor only after the root ended and the steer was accepted |
| `SteeringProbe.SteeringProbe.ReceiveItemDone` | scripts/steering-probe.ts:74-80 | the probe tool's call is noted and steered |
| `SteeringProbe.SteeringProbe.ReceiveAccepted` | scripts/steering-probe.ts:81-85 | an acceptance only for the sent steer and its root |
| `SteeringProbe.SteeringProbe.ReceivePending` | scripts/steering-probe.ts:86-100 | the continuation is sent once, for the one stub of the noted call |
| `SteeringProbe.SteeringProbe.ReceiveTerminal` | scripts/steering-probe.ts:104-115 | ends of root and successor, and the outcome |
| `SteeringProbe.SteeringProbe.ScanOutput` | scripts/steering-probe.ts:109-111 | the nested loops find the marker exactly when some text part contains it |
| `SteeringProbe.SteeringProbe.ReceiveDelta` | scripts/steering-probe.ts:116-119 | the tail search on one delta |
| `VersionOrder.CompareIsSemVer` | scripts/version-line.ts:24-63 | negative, positive and zero exactly as section 11 of SemVer 2.0.0 orders the versions, lists of any length |
| `VersionOrder.ComparatorConsistent` | scripts/version-line.ts:24-54 | reflexive, sign-antisymmetric and transitive over any consistent text order |
| `VersionLineProofs.NewestVersionIsMax` | scripts/version-line.ts:89-96 | fails exactly on a tag that does not parse, otherwise a maximum of the tags |
| `VersionLineProofs.StableBaseIff` | scripts/version-line.ts:98-109 | there is a base exactly when there is a tip or a tag and all of them are stable versions |
| `VersionLineProofs.HigherCorePreviewIff` | scripts/version-line.ts:127-136 | a blocker exists exactly when some preview has a higher core |
| `VersionLineProofs.FloorIff` | scripts/version-line.ts:138-143 | the floor check passes exactly when the candidate outranks every published tag |
| `VersionLineProofs.BumpOutranksIff` | scripts/version-line.ts:117-125 | a bumped core outranks every stable tag, and the previews exactly when none has a higher core |
| `VersionLineProofs.StableRefusesIff` | scripts/version-line.ts:149-168 | exact refusals of the stable resolver; what it yields is the least stable version above the base that changes the asked component, and only that; a patch that passes the blocker check never hits the floor |
| `VersionLineProofs.StableOutranksAll` | scripts/version-line.ts:166-167 | a returned stable version outranks everything published |
| `VersionLineProofs.SuccessorOutranks` | scripts/version-line.ts:230-242 | a successor always outranks its incumbent, so that guard is unreachable |
| `VersionLineProofs.SameLengthDigits` | scripts/version-line.ts:232-239 | stamps of one length compare as text exactly as they do as numbers |
| `VersionLineProofs.CandidateIff` | scripts/version-line.ts:227-243 | exactly when an incumbent can be succeeded, on its shape and its day; the candidate's core, stamp and number; and that it outranks its whole core |
| `VersionLineProofs.PreviewRefusesIff` | scripts/version-line.ts:194-252 | exact refusals of the preview resolver; what it yields is a preview on the least stable version that changes the asked component: unnumbered without an incumbent or on a newer day, one above the incumbent's number on the same day |
| `VersionLineProofs.MalformedRefused` | scripts/version-line.ts:149-229 | what either resolver refuses before it bumps: the stamp, the stable line, previews that are none or do not parse |
| `VersionBumps.BumpIff` | scripts/version-line.ts:117-125 | a bump yields a version exactly when it is the least stable one above the base, for a minor above all of the base's minor line, for a major above all of its major line |
| `VersionPattern.PatternsIff` | scripts/version-line.ts:10-22 | without white space around it and one leading `v`, a text is accepted by each pattern exactly when it is put together as that pattern says, and the strict one reads its numbers and identifiers |
| `VersionLineProofs.PreviewOutranksAll` | scripts/version-line.ts:245-251 | a returned preview outranks everything published |
| `VersionLineProofs.ReleasableIff` | scripts/version-line.ts:259-271 | releasable exactly when every tag is outranked, or tied where ties are allowed |
| `VersionText.TagFormIff` | scripts/bump-dev-version.ts:77-79 | a text the strict pattern accepts is accepted in its tag form, as the same version, exactly when it does not start with white space |
| `VersionText.WrittenReadBack` | scripts/version-line.ts:81-87 | a written core is read back by both patterns |
| `DevVersion.UnpaddedNeverFires` | scripts/bump-dev-version.ts:135-140 | for a released text that does not start with white space the candidate guard is unreachable, whatever dev carries |
| `DevVersion.GuardFiresIff` | scripts/bump-dev-version.ts:110-140 | exactly when the candidate guard fires, for every text order |
| `DevVersion.PaddedLeavesDevIff` | scripts/bump-dev-version.ts:114-134 | exactly when a padded release leaves dev where it is |
| `DevVersion.DecisionIff` | scripts/bump-dev-version.ts:110-149 | for all texts both patterns accept and every text order: exactly when a decision does not lower dev, when it clears the release, and when it does both |
| `DevVersion.DevMovesTo` | scripts/version-line.ts:75-87 | the version dev is moved to reads back as the least stable version above the released minor line, and after a prerelease as its own release, the least stable version above it; otherwise dev stays |
| `DevVersion.UnparseableIff` | scripts/bump-dev-version.ts:110-115 | which text is refused as unparseable, and in which order they are looked at |
| `DevVersion.DecidingAgain` | scripts/bump-dev-version.ts:127-133 | deciding again about the same release changes nothing |
| `DevHistory.HistoryIff` | scripts/bump-dev-version.ts:110-149 | over any history of such texts dev outranks every release so far and is never lowered, all along, exactly when each decision in turn is sound |
| `DevHistory.PlainReleasesIff` | scripts/bump-dev-version.ts:110-149 | over releases that do not start with white space, from any dev text: exactly when that text is sound for the releases up to the first that moves it |
| `DevHistory.HistoryKeepsDevAhead` | scripts/bump-dev-version.ts:110-149 | over any such history, from a dev text that does not start with white space either, dev always stays ahead |
| `PaddedDev.LowersIff` | scripts/bump-dev-version.ts:127-149 | under the order of `numeric` and `base`: exactly when a decision lowers dev |
| `PaddedDev.LeftBehindIff` | scripts/bump-dev-version.ts:127-133 | under that order: exactly when a decision leaves dev at or behind the release |
| `PaddedDev.SpacedStartIff` | scripts/bump-dev-version.ts:110-149 | a dev text that starts with ordinary white space stays ahead over ordinary releases exactly when it is not above the first candidate |
| `PaddedDev.OwnPrereleaseStays` | scripts/bump-dev-version.ts:127-133 | a stable release behind byte order marks leaves a prerelease of its own core in place |
| `PaddedDev.SpacedDevLowered` | scripts/bump-dev-version.ts:110-149 | a concrete release that lowers dev |
| `PaddedDev.OwnPreviewStays` | scripts/bump-dev-version.ts:127-133 | a concrete release that leaves dev behind it |
| `PaddedRelease.RefusalIff` | scripts/bump-dev-version.ts:135-140 | under the order of `numeric` and `base` the guard fires exactly on a prerelease, or a second `v`, behind byte order marks only, while dev is not ahead |
| `PaddedRelease.SpacedReleaseLeavesDev` | scripts/version-line.ts:66-73 | a release that starts with other white space leaves every unpadded dev version where it is |
| `PaddedRelease.BomPreviewRefused` | scripts/bump-dev-version.ts:135-140 | a concrete refused release |
| `PaddedRelease.StaleDevStays` | scripts/bump-dev-version.ts:127-133 | a concrete release that does not move a stale dev |
| `Router.RouteModel` | src/router.ts:412-733 | a request always ends, with what its first decision leads to; its route names a configured, enabled provider other than the legacy one; an explicit id that is not redirected away goes to the provider its prefix means, as the model it names there after the bare mapping; a bare family id leaves openai only by redirect or for compaction |
| `RouteChain.RequestIff` | src/router.ts:319-515 | a request is routed exactly when its chain of redirects ends after at most five different ones, at a place its policy admits, and then where the chain ends, labelled by policy, combo or redirect |
| `RouteChain.RoutedIff` | src/router.ts:319-371 | a concrete target is routed exactly when each hop's mapping, qualified before bare, leads on to a last one that has none, within the limit and without repetition |
| `Router.NamedRoute` | src/router.ts:521-598 | an explicit id that is not redirected away ends at the provider its prefix means, under the whole id, the decoded name or the alias, after the bare mapping |
| `Router.RouteModelInternal` | src/router.ts:412-678 | ends within the redirect limit, with the outcome of the branch decision and the redirects taken before; `credentialDomainRewrite` exactly when a redirect was taken |
| `Router.RouteResult` | src/router.ts:319-371 | a refusal, the direct route, or the redirect target's route marked as redirected, with the exact error; a pinned account never leaves |
| `Router.FollowRedirect` | src/router.ts:341-351 | a taken redirect adds its source and one edge, and the result is the target's outcome marked as redirected; a repeated source or a sixth edge is the error |
| `Router.RedirectState.Take` | src/router.ts:341-349 | a repeated source is a cycle, a sixth edge too deep; otherwise sources stay as many as edges |
| `Router.Follow` | src/router.ts:433-515 | policy and combo routes are their concrete target's route relabelled; a redirected policy route must be an eligible candidate |
| `Router.FollowConcrete` | src/router.ts:484-503 | a concrete decision: refused, direct, or redirected, exactly as its outcome says |
| `RouteDecision.Resolve` | src/router.ts:412-678 | every branch leads to a refusal, a usable provider, or, only when not bypassed, a policy or combo target; the `RouteOutcomes` lemmas say which, branch by branch |
| `RouteOutcomes.PolicyOutcome` | src/router.ts:426-467 | a policy is asked exactly for its ids and its namespace, never for a concrete target, and then alone answers: its target, or which refusal |
| `RouteOutcomes.AccountOutcome` | src/router.ts:470-504 | an account prefix gives the bound account's route or a refusal, each exactly on its condition |
| `RouteOutcomes.ComboOutcome` | src/router.ts:507-516 | a combo answers exactly when combos are virtual, no policy or account has the id, and one picks or fails |
| `RouteOutcomes.PrefixOutcome` | src/router.ts:521-598 | what an explicit id gets from the provider its prefix means: the whole id when that is known, else the decoded name when known, else the alias, else the decoded name; a refusal exactly for a legacy or disabled row or an ambiguous model; refusals of reserved and ambiguous prefixes; the inference when nobody is meant |
| `RouteOutcomes.PlainOutcome` | src/router.ts:600-678 | a plain id of the native family goes to openai, to the compaction default, or nowhere; every other one as the inference says |
| `RouteOutcomes.Pool2NeverInferred` | src/router.ts:222-234 | no inference moves a request to the second Anthropic instance unless it is the default provider |
| `RouteOutcomes.PatternFamilies` | src/router.ts:130-144 | which ids name which provider family; the longer Claude prefixes add nothing to the shortest |
| `RouteDecision.AccountNamespaceReserved` | src/router.ts:470-504 | an account namespace is never read as a combo or a provider |
| `RouteDecision.ByDefaultModelFirst` | src/router.ts:631-636 | the first row in order whose default model is the id, and none exactly when there is no such row |
| `RouteDecision.DefaultModelWins` | src/router.ts:631-677 | a plain id that is an active provider's default model goes there before patterns, lists, aliases and the default provider |
| `RouteDecision.ConcreteTargetStays` | src/router.ts:517-598 | a target named by a configured provider resolves to that provider by the namespace branch |
| `RouteDecision.CrossProviderTarget` | src/router.ts:281-311 | there is a redirect target exactly when the value names a different, enabled provider with usable credentials |
| `RouteOrder.FirstActiveIff` | src/router.ts:230-234 | the first active provider that passes a test is the first configured row, in order, that is enabled, neither the legacy provider nor the second Anthropic instance, and passes |
| `RouteOrder.NamespaceMeans` | src/router.ts:521-598 | a prefix decision goes to the row of that name, else the only row with that alias, else the only one whose unclaimed registry alias it is; without a decision no row is meant; the model sent is `RouteOutcomes.PrefixOutcome`'s |
| `RouteDecision.AccountDecision` | src/router.ts:470-504 | decides exactly the account namespaces: a refusal, or an account route with the native model and the bound account, on an enabled openai row |
| `RouteOrder.FirstPatternWins` | src/router.ts:740-758 | the first pattern with a matching prefix and an enabled row of its family decides, for the first such row |
| `RouteOrder.AmbiguousIsTwo` | src/router.ts:653-666 | an ambiguous model alias is one that two different active providers resolve |
| `RouteOrder.InferTiers` | src/router.ts:631-677 | default models, patterns, model lists, aliases, default provider: the provider, model, kind and reason of each tier, and that it answers only when no earlier tier does |
| `RouteDecision.BareFamilyDecision` | src/router.ts:600-629 | openai when it is enabled, else the default provider for a compaction it may summarise, else a refusal; the model unchanged |
| `TomlLines.MatchComposed` | scripts/release-version-sources.ts:55 | an opening part, a value without quotes and a closing part match with just these captures |
| `TomlLines.MatchParts` | scripts/release-version-sources.ts:55 | every matching line is so composed |
| `TomlLines.RewrittenKind` | scripts/release-version-sources.ts:103-147 | a rewritten version line looks the same to every locator |
| `SourcePatterns.KindMeans` | scripts/release-version-sources.ts:55-129 | what each of the five line tests asks of a line, on the pieces it is put together from |
| `SourcePatterns.VersionLineIff` | scripts/release-version-sources.ts:55 | a line is a version line with a value exactly when it is the key, an equals sign, the quoted value, and white space between and behind |
| `JsonVersion.JsonRewriteWithRead` | scripts/release-version-sources.ts:65-101 | writing the version read is the identity exactly when there is no match to replace or its value is spelled just so |
| `JsonVersion.EscapeIsRespelled` | scripts/release-version-sources.ts:79-101 | a concrete text that writing back what was read changes |
| `JsonVersion.LastJsonRewriteWins` | scripts/release-version-sources.ts:79-101 | after a rewrite the JSON rule does what it would have done without it, for every text, version and parser |
| `JsonVersion.ValueTwice` | scripts/release-version-sources.ts:91-94 | replacing the first `"version"` value twice is replacing it once: a replacement makes no earlier match |
| `SourcePatterns.WithValueIs` | scripts/release-version-sources.ts:91-94 | the value of the first quoted version key, colon and string is replaced and nothing else; a text without one is left alone |
| `VersionSources.CargoManifestVersionLine` | scripts/release-version-sources.ts:104-113 | the loop finds the manifest's version line |
| `VersionSources.ManifestLineIff` | scripts/release-version-sources.ts:104-113 | it is the first version line of the first `[package]` table, before any other header |
| `VersionSources.CargoLockVersionLine` | scripts/release-version-sources.ts:120-130 | the loop finds the crate's version line |
| `VersionSources.LockLineIff` | scripts/release-version-sources.ts:115-130 | it exists exactly when the crate has one entry, and is that entry's third line |
| `VersionSources.ReadAfterRewrite` | scripts/release-version-sources.ts:132-151 | reading a rewritten text returns the version written |
| `VersionSources.RewriteWithRead` | scripts/release-version-sources.ts:132-151 | rewriting with the version read is the identity |
| `VersionSources.LastRewriteWins` | scripts/release-version-sources.ts:132-151 | the last rewrite wins |
| `VersionSources.RewriteChangesOneLine` | scripts/release-version-sources.ts:140-149 | every other line is unchanged and the version stays located |
| `VersionWriter.ShapeIsWellShaped` | scripts/release-version-sources.ts:48-52 | no version of the accepted shape contains a quote or a line feed |
| `ReleasePatterns.ShapeIff` | scripts/release-version-sources.ts:48-52 | the accepted shape: three numbers with dots, and perhaps a hyphen with letters, digits, dots and hyphens |
| `VersionWriter.FirstObstacleIff` | scripts/release-version-sources.ts:205-211 | the obstacle reported is that of the first source in the order package.json, tauri.conf.json, Cargo.toml, Cargo.lock |
| `VersionWriter.PlanMembers` | scripts/release-version-sources.ts:205-213 | the plan holds just the sources whose text changes, with their new text |
| `VersionWriter.WholePlanSyncs` | scripts/release-version-sources.ts:205-222 | making every planned replacement moves every source |
| `VersionWriter.SyncedManifestCarries` | scripts/release-version-sources.ts:103-151 | after a move Cargo.toml reads back the version |
| `VersionWriter.SyncedLockCarries` | scripts/release-version-sources.ts:115-151 | after a move the crate's lock entry reads back the version |
| `VersionWriter.SyncedJsonCarries` | scripts/release-version-sources.ts:65-101 | after a move both JSON files read back the version, nothing else in them changed |
| `VersionWriter.SyncAgainIsIdle` | scripts/release-version-sources.ts:200-234 | moving again to the same version plans nothing |
| `VersionWriter.Checkout.PlanRewrites` | scripts/release-version-sources.ts:205-213 | the first obstacle in order, or the plan |
| `VersionWriter.Checkout.WriteTemps` | scripts/release-version-sources.ts:215-221 | temporary files up to the first failing write |
| `VersionWriter.Checkout.RenameTemps` | scripts/release-version-sources.ts:222 | originals replaced up to the first failing rename |
| `VersionWriter.Checkout.RemoveTemps` | scripts/release-version-sources.ts:224-230 | temporary files go unless their removal fails |
| `VersionWriter.Checkout.WriteVersionSources` | scripts/release-version-sources.ts:190-234 | no original changes unless every rewrite and every temporary write succeeded; then all, or those before the first failing rename; no stray temporary file but by a failed write or removal |
| `ReleaseRender.LandingReadBack` | scripts/build-release-changelog.ts:145-151 | the number a squash subject ends with is read back, whatever its title |
| `ReleasePatterns.LandingIff` | scripts/build-release-changelog.ts:145-151 | a landing number is read exactly where the trimmed subject ends in it, in parentheses behind a hash sign, and it is positive |
| `ReleasePatterns.SkippedIff` | scripts/build-release-changelog.ts:157-159 | a pull request is skipped exactly when some label spells skip-changelog, in any case |
| `ReleasePatterns.MetadataIff` | scripts/build-release-changelog.ts:76-82 | a commit is release metadata exactly when its trimmed subject is `release:` or `chore(release):`, in any case, white space, perhaps a `v`, and a version |
| `ReleaseCommits.ReleasableInOrder` | scripts/build-release-changelog.ts:80-82 | the commits other than release metadata, in order, each as often as it occurs |
| `ReleaseCoverage.GeneratedPullChanges` | scripts/build-release-changelog.ts:161-176 | every mentioned number once, at its first mention |
| `ReleaseCoverage.AddFallbacks` | scripts/build-release-changelog.ts:296-306 | the inner loop adds a line for each pull that has none yet |
| `ReleaseCoverage.CoverOne` | scripts/build-release-changelog.ts:278-328 | one commit's effect on fallbacks, direct commits and coverage |
| `ReleaseCoverage.CoverCommits` | scripts/build-release-changelog.ts:271-329 | the loop over all commits |
| `ReleaseCoverage.FallbacksHave` | scripts/build-release-changelog.ts:295-306 | the fallback lines are exactly the numbers some commit brings |
| `ReleaseListing.FallbackFrom` | scripts/build-release-changelog.ts:283-306 | every fallback line is some commit's merged pull request, not skipped and not in the notes, under its own number, title and author |
| `ReleaseCommits.DecideIff` | scripts/build-release-changelog.ts:277-329 | exactly when a commit is covered by pulls, needs nothing, or stands for itself |
| `ReleaseCoverage.DirectsMembers` | scripts/build-release-changelog.ts:322-327 | the direct entries are exactly the commits that stand for themselves |
| `ReleaseCoverage.CommitRepresented` | scripts/build-release-changelog.ts:277-335 | every commit's cover is among the entries |
| `ReleaseCoverage.EntriesDistinct` | scripts/build-release-changelog.ts:331-335 | no pull request number is rendered twice |
| `ReleaseCoverage.NoEntriesIff` | scripts/build-release-changelog.ts:331-335 | there is no entry exactly when the notes are empty and every commit is ignored |
| `ReleaseRender.PullRendered` | scripts/build-release-changelog.ts:153-155 | every pull request entry is referenced in the body, as the validator looks for it |
| `ReleaseRender.CommitRendered` | scripts/build-release-changelog.ts:235-247 | every direct commit's abbreviated id is in the body |
| `ReleaseListing.ChangelogOrder` | scripts/build-release-changelog.ts:230-244 | the changelog lists the pulls by rising number, each as often as it is an entry, then the commits in their order |
| `ReleaseListing.RenderedIff` | scripts/build-release-changelog.ts:153-155 | the validator's search finds a number exactly when the body has its decimal form behind a hash sign and no digit follows |
| `ReleaseListing.CommitErrorIff` | scripts/build-release-changelog.ts:346-360 | what the validator says of a commit: its first eight characters, or any one of its pulls, must be in the body |
| `ReleaseCoverage.Validate` | scripts/build-release-changelog.ts:345-367 | the validator's errors are those of the failing commits, in their order, and then the empty changelog |
| `ReleaseCoverage.CommitPasses` | scripts/build-release-changelog.ts:346-360 | no commit fails the validator, repeated ids included |
| `ReleaseCoverage.BuildReleaseNotes` | scripts/build-release-changelog.ts:260-377 | every releasable commit is represented, pull numbers are distinct, and the only error is the empty changelog, exactly when there are commits, nothing generated and all of them ignored |
| `TreeInspection.InspectTree` | scripts/test-temp.ts:137-167 | safe exactly when the tree is readable without links and within budget and clock; then the budget drops by its entries and the time is the latest of all |
| `TreeInspection.AccountsNext` | scripts/test-temp.ts:143-165 | what is done and what is pending always make up the recursive reading of the tree |
| `TreeInspection.TreeMeans` | scripts/test-temp.ts:137-167 | clean is all files and directories, the count is the number of entries, and the time is the latest of those that can be read, entry by entry |
| `TextCodecs.DecodersInvertEscape` | src/service-manager-probe.ts:245-252 | both entity decoders undo per-character escaping (section 4.6 of XML 1.0) for every string |
| `TextCodecs.PredefinedEntity` | src/service-manager-probe.ts:245-252 | the five predefined entities of XML are decoded to their characters |
| `TextCodecs.ReplaceUnescapes` | src/service-manager-probe.ts:510-517 | one global replacement undoes its own character and nothing else while `&` stays escaped |
| `TextCodecs.CsvFirstField` | src/service-manager-probe.ts:706-724 | the loop reads the first field |
| `TextCodecs.FirstFieldInverts` | src/service-manager-probe.ts:706-724 | quote-doubled fields (section 2 of RFC 4180) are read back for every field and any further columns |
| `TextCodecs.PlainFieldRead` | src/service-manager-probe.ts:706-709 | an unquoted field ends at the first comma and is read less the white space around it |
| `EffortLadder.SanitizeEfforts` | src/reasoning-effort.ts:139-151 | the declared efforts, first occurrences, in ladder order |
| `EffortLadder.SanitizedIsLadder` | src/reasoning-effort.ts:139-151 | each declared effort once, sentinels first, rungs ascending |
| `EffortLadder.LadderIsFixed` | src/reasoning-effort.ts:139-151 | sanitising again changes nothing |
| `EffortLadder.ClampToSupported` | src/reasoning-effort.ts:210-228 | what the clamp loop returns for any list: the last of the highest entries at or below the request, or a first entry above it |
| `EffortLadder.ResolveMeaning` | src/reasoning-effort.ts:108-122 | the request, else the highest rung at or below it, else the lowest rung |
| `EffortLadder.ClampAgreesIff` | src/reasoning-effort.ts:101-122 | for every request, absent, unknown, `none`, `minimal` or a rung, and every sanitised ladder: exactly when clamp and resolver agree |
| `EffortLadder.SentinelDisagrees` | src/reasoning-effort.ts:216-227 | a ladder and a rung below all of its rungs: the sentinel against the lowest rung |

## Left out

- Scanning sources, git, npm, gh, fetch, child processes, signals and file reads: graphs, tag lists, commits,
  trees, frames, chunks and probe results are inputs. Regular expressions are character predicates.
- UTF-8 and JSON decoding: a chunk carries the characters the decoder released, with its size; a frame its parsed value.
- `localeCompare`: an arbitrary order. The component order, the lenient tag order and the history lemma of
  `DevVersion` are proved for every consistent one.
- Abort signals, HTTP status checks and decoder errors of the stream reader; the validators after it.
- Interleavings that break a stated promise of the lock: each promise's need is proved. Process numbers are never
  reused; rename permission failures, the queue bypass and waiting messages are not part of the model, and the
  time-out is part of the loop that runs alone only.
- Lock directory paths (scripts/test-run-lock.ts:117-355): environment checks with one branch each.
- `elapsedMs`, the request body and the instruction text of the steering probe; callers that call `finish` themselves.
- The router's provider assembly, static policy and decision trace, and the text of its errors: none chooses a destination.
- Parsing version texts for the two resolvers: they start from parsed tags, the dev bump from texts. Ordinals and
  core numbers are unbounded.
- The parts of the order of `localeCompare` that no version text reaches, such as digit runs outside ASCII.
- `JSON.parse` and `JSON.stringify`: a parsed text is its top-level version and the rest, equal when both are.
- Release-note category sections, baseline selection and the ignored-commit count: the validator does not depend on them.
- Removal retries, owner files and stale-root recovery of scripts/test-temp.ts; the clock of the walk is one that
  never runs backwards, and modification times are integers.
- The Windows evidence tree, task-listing cache and batch-path decoder of src/service-manager-probe.ts, and
  `mapReasoningEffort`: look-ups over evidence with easy properties.
- Scripts that only report or check text (file sizes, privacy patterns, documentation), and the memory and stress harnesses.
