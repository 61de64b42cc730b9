# WOML: protocols, replay, identity and measurement, verified

WOML is a workflow runtime: a Rust engine that folds a durable event history into a run's state and
decides which nodes are ready, a script host that runs steps in workers, and TypeScript tooling that
measures, compares and releases it. This project models the parts whose correctness is an argument
over whole runs or all inputs, and proves those arguments in Dafny. `dafny verify dfyconfig.toml`
checks everything.

## What is modelled

**Readiness over a growing history** (`RunProjection`, `Readiness`, `HistoryMeaning`, `EdgeCounts`,
`GraphPasses`, `Frontiers`, `HistoryPrefixes`). What a history means is read off its events: which nodes
have published, how each last attempt stands, which retry is pending, which event may come next. The fold
computes exactly that. The engine keeps an incremental frontier of ready nodes instead of
scanning the graph. The frontier is a class with counters and candidate sets; the cursor that feeds it
is a class over the event list. The result is a refinement: over every sequence of queries the cursor
answers with the fold of the requested prefix and the frontier answers what the full scan answers.

**Replay against cursor** (`HistoryReplay`). The cost analysis is tied to the two strategies it
compares: its counters are their step counts, and they reach the same states.

**Canonical identity** (`JsonNumbers`, `Json`, `CanonicalJson`, `JsonRecords`, `Dispatch`). The
sorted-key printer is uniquely readable, so ids and digests determine what they were computed from.

**Two message protocols** (`Handshake`, `HandshakeTiming`, `BootstrapActors`, `HostCorrelation`). The worker handshake,
in which handler and `postMessage` are replaced mid-run, and the request loop against a script host are
step systems in which every interleaving is a run. Inductive invariants give the safety results; every
time that is reported is traced back to the two clock reads of the run it comes from; the classes beside
them take exactly the steps of the systems.

**Producer against validator** (`BootstrapCapture`, `InvocationCapture`). What the capture loops write is
what the independently written validators accept, with the exact condition where they disagree.

**Signals and the closed loop** (`SignalStream`, `PerformanceSignals`, `ClosedLoop`,
`TerminalObserver`). Decoding does not depend on how bytes are cut; requests meet the runs that settle
them; a terminal callback is never lost, early or late.

**Statistics and decisions** (`OrderStatistics`, `ValidatedState`, `StartupComparison`). Medians,
percentiles and the acceptance decisions built on them, including why no lookup can miss.

**Process trees and release artifacts** (`ProcessTree`, `FileTree`, `ReleaseArtifact`,
`ArtifactFaithfulness`, `HiddenFile`). Worklist walks over possibly cyclic process graphs, and sealing and verifying
a directory tree.

`Options`, `Sequences`, `Sorting` and `Text` hold the shared vocabulary. Texts are sequences of UTF-16 code
units, times are reals, SHA-256 is a function that is assumed injective where a result needs it.

## Where the code does less than its description

* The first variant of a scenario alternates between batches only for an odd number of scenarios
  (there are thirteen). For an even number one variant always goes first: `AlternatesIffOdd`,
  `FirstPlacesBalanced`.
* A smoke cohort invokes `min(4, count)` times where the validator expects four; the two agree exactly
  from four on: `MeasureCohort`, for drains that every cohort has, `CohortDrains`. The shipped counts are
  32 and 8, so the disagreement is latent.
* A run's terminal finds its request unless a line handler threw while the run was going on; then it
  never does, because the failure takes the newest request off the queue: `TerminalUnmatchedIff`,
  `OrphanedBy`, and a run that gets there in `OrphanReachable`. A line handler may also return without
  admitting a run, and exactly then its request is never answered: `UnansweredBy`, `UnansweredStays`,
  `UnansweredReachable`.
* One message at a time is not true of the handshake's failure messages, since imported code may post at
  will: `TwoInFlight` shows two. The bound is lost exactly when the worker speaks unprompted while a message
  is in flight, `BoundLostBy`; it holds while no failure is reported, `NoFailureOneInFlight`, and always for
  all other messages, `OneInFlight`.
* The walk over main tasks can exceed the walk over all tasks when a process loses its status file but
  not yet its children file: `NarrowCanExceedWide`. `TotalsIff` has the exact condition on the snapshot,
  `CoherentTotals` one that can be checked process by process, `CoverageBreaks` the place where it fails.
* Recorded paths replace backslashes by slashes. On systems where a backslash is an ordinary character, a
  file with one in its path is recorded under a path that leads elsewhere. If it leads to no file, the tree
  cannot be sealed: `SealsIff`, `LostPathFails`. If it leads to another file, the tree is sealed and
  verifies, and changes to the first file pass verification: `UncleanHidden`, with such a tree in
  `HiddenFileExists`. Every change is detected exactly when there is no such file: `FaithfulIffClean`.

## Model

| member | source | states |
|---|---|---|
| `CanonicalJson.UniqueReadability` | woml-cli/scripts/benchmark-combined-developer-experience.ts:46-55 | Two well-formed JSON values print the same canonical text if and only if they are equal up to the order of object keys, at every depth |
| `CanonicalJson.CanonicalReadable` | woml-cli/scripts/benchmark-combined-developer-experience.ts:46-55 | The printer is inverted by a parser: reading canonical text gives the value back with its keys sorted, and nothing is left over |
| `CanonicalJson.CanonicalText` | woml-cli/scripts/benchmark-combined-developer-experience.ts:52-54 | Printing with sorted keys is ordinary JSON printing of the value whose keys were sorted throughout |
| `CanonicalJson.SameCanon` | woml-cli/scripts/benchmark-combined-developer-experience.ts:52 | Values that differ only in key order have one canonical form |
| `CanonicalJson.CanonSame` | woml-cli/scripts/benchmark-combined-developer-experience.ts:52 | Values with one canonical form differ only in key order |
| `CanonicalJson.CanonIdempotent` | woml-cli/scripts/benchmark-combined-developer-experience.ts:52 | Sorting the keys of a canonical value changes nothing |
| `CanonicalJson.KeysAscend` | woml-cli/scripts/benchmark-combined-developer-experience.ts:52-54 | In the canonical value every key comes before the next in code-unit order: where they first differ it has the smaller unit, or it ends |
| `Text.LexMeans` | woml-cli/scripts/benchmark-combined-developer-experience.ts:52 | The order used for sorting is that order, and no other |
| `Text.SortTextsAscends` | woml-cli/scripts/release-artifact.ts:64 | Sorted texts ascend in code-unit order |
| `Json.RoundTrip` | woml-cli/scripts/benchmark-combined-developer-experience.ts:47-49 | Every printed JSON value is read back exactly (RFC 8259), with all string escapes of JSON.stringify |
| `Json.ParsePrint` | woml-cli/scripts/benchmark-combined-developer-experience.ts:47-50 | Reading stops exactly at the end of the printed value, whatever follows it |
| `Json.ReadStringEscape` | woml-cli/scripts/benchmark-combined-developer-experience.ts:48 | Reading a quoted string undoes the escaping, surrogates and control characters included |
| `Json.EscapePaired` | woml-cli/scripts/benchmark-combined-developer-experience.ts:48 | What is printed is well-formed UTF-16, whatever the string holds: lone surrogates are escaped (JSON.stringify of ECMA-262) |
| `Json.EscapePlain` | woml-cli/scripts/benchmark-combined-developer-experience.ts:48 | Text without quotes, backslashes, control characters and surrogates is printed as it is |
| `JsonNumbers.ReadNumberText` | woml-cli/scripts/benchmark-combined-developer-experience.ts:49 | Decimal text of a finite number, in each of the four layouts of ECMA-262 Number::toString, is read back to the same digits and exponent |
| `JsonNumbers.NumberGrammar` | woml-cli/scripts/benchmark-combined-developer-experience.ts:49 | The text of a number is a number of section 6 of RFC 8259, with an exponent if and only if it is too large or too small to be written out |
| `Dispatch.DispatchIdDetermines` | woml-cli/scripts/benchmark-combined-developer-experience.ts:236-243 | Under an injective digest two dispatch ids are equal if and only if all eight identity fields are |
| `Dispatch.DispatchIdReads` | woml-cli/scripts/benchmark-combined-developer-experience.ts:236-243 | A dispatch id is its prefix and the hash of a text that parses to an object with exactly the eight members of the identity, each under its own name, keys ascending |
| `Dispatch.SealedIsIntact` | core/woml-engine/src/remote_protocol.rs:110-121 | A package whose digest was computed over the blanked field passes the check that blanks the field and recomputes |
| `Dispatch.PackageDigestDetermines` | woml-cli/scripts/benchmark-combined-developer-experience.ts:241-253 | Two intact packages carry the same package digest if and only if they are the same value up to key order |
| `RunProjection.EventIsLocal` | core/woml-engine/src/engine/readiness/frontier.rs:11-25 | An event for one node leaves every other node's output, latest attempt and pending retry alone, so one update per event is enough |
| `RunProjection.OutputsStay` | core/woml-engine/src/engine/readiness/frontier.rs:172-178 | No supported event takes a step output away |
| `RunProjection.EventKeepsAttempts` | core/woml-engine/src/engine/history/prefix.rs:140-155 | Folding an event keeps which node each earlier attempt belongs to |
| `RunProjection.IndexedLatest` | core/woml-engine/src/projection/run.rs:139-145 | The index of last positions answers the same as searching the attempts from the end |
| `RunProjection.FoldRejects` | core/woml-engine/src/engine/history/prefix.rs:127-139 | A history whose prefix is rejected is rejected |
| `HistoryMeaning.FoldMeans` | core/woml-engine/src/projection/fold_attempts.rs:11-215 | Over every accepted history of ordinary events: a node has an output if and only if some event is its success, its status is that of its last started, succeeded or failed event, its latest attempt and stable key are those of its last and first start, and its pending retry is the one scheduled last and not started since |
| `HistoryMeaning.AcceptsIff` | core/woml-engine/src/projection/fold_attempts.rs:11-215 | After an accepted history the fold accepts an event if and only if the earlier events admit it: attempt numbers, open attempts, unused invocations, stable keys, due retries, said of the events alone |
| `HistoryMeaning.HistoryAccepted` | core/woml-engine/src/projection/fold.rs:92-180 | A history is accepted if and only if each event is admitted by the events before it |
| `HistoryMeaning.ReadyMeans` | core/woml-engine/src/engine/readiness.rs:280-318 | After a history a node is ready if and only if it is reached, has no success, was never tried or failed with a retry that is due, and all its reached predecessors have succeeded |
| `HistoryMeaning.ReplayMeans` | core/woml-engine/src/engine/readiness.rs:157-199 | The replayed ready list is the list of those nodes in definition order, and empty before the run starts |
| `Readiness.ActiveWithin` | core/woml-engine/src/engine/readiness.rs:376-400 | Active nodes lie in every set that has the entries and is closed under edges |
| `EdgeCounts.Release` | core/woml-engine/src/engine/readiness/frontier.rs:101-109 | Decrementing along a list of targets subtracts each target's multiplicity and reports exactly the counts that reach zero |
| `EdgeCounts.Charge` | core/woml-engine/src/engine/readiness/frontier.rs:129-136 | Incrementing along a list of targets adds each target's multiplicity |
| `GraphPasses.NumberNodes` | core/woml-engine/src/engine/readiness/frontier.rs:74-82 | The id map is as large as the node list if and only if ids are distinct, and then numbers them in order |
| `GraphPasses.Wire` | core/woml-engine/src/engine/readiness/frontier.rs:86-92 | Fails exactly on an edge with an unknown end; otherwise successor lists and indegrees are those of the edges |
| `GraphPasses.VisitInOrder` | core/woml-engine/src/engine/readiness/frontier.rs:95-112 | The queue visits every node if and only if the graph can be ranked, that is, has no cycle |
| `GraphPasses.RanksAcyclic` | core/woml-engine/src/engine/readiness/frontier.rs:93-112 | Ranked ordinals exist if and only if the definition is acyclic |
| `GraphPasses.Entries` | core/woml-engine/src/engine/readiness/frontier.rs:114-116 | Fails exactly on an unknown entry id |
| `GraphPasses.Reach` | core/woml-engine/src/engine/readiness/frontier.rs:113-123 | Marks a node active if and only if a path of edges leads to it from an entry |
| `Frontiers.InitialCounts` | core/woml-engine/src/engine/readiness/frontier.rs:129-136 | Each count is the number of edges from active, incomplete predecessors |
| `Frontiers.Fill` | core/woml-engine/src/engine/readiness/frontier.rs:137-150 | A new frontier records what a scan of the projection would find for every node |
| `Frontiers.Build` | core/woml-engine/src/engine/readiness/frontier.rs:40-157 | A frontier is built if and only if the definition is admissible and names every attempted node, and then tracks the projection; never for an unknown schema, a special feature, a node that is no local script or an edge that is not unconditional |
| `Frontiers.Frontier.Refresh` | core/woml-engine/src/engine/readiness/frontier.rs:195-217 | Re-reads one node: eligibility, retry time and candidacy are the projection's, all other nodes keep theirs |
| `Frontiers.Frontier.Settle` | core/woml-engine/src/engine/readiness/frontier.rs:180-189 | After a completion the counts are again the edges from live predecessors and the candidates are exactly the active, eligible nodes without one |
| `Frontiers.Frontier.Update` | core/woml-engine/src/engine/readiness/frontier.rs:163-193 | One update moves the frontier from tracking the old projection to tracking the new one; it declines exactly for an unknown node or a vanished output |
| `Frontiers.Frontier.PredecessorsDone` | core/woml-engine/src/engine/readiness.rs:280-318 | A zero count means that every active predecessor has an output |
| `Frontiers.Frontier.CandidateIsReady` | core/woml-engine/src/engine/readiness/frontier.rs:219-221 | A node passes the full readiness test if and only if it is a candidate that is due |
| `Frontiers.Frontier.ReadyAt` | core/woml-engine/src/engine/readiness/frontier.rs:232-241 | The incremental answer is the full scan's list, in definition order |
| `Frontiers.Frontier.Contains` | core/woml-engine/src/engine/readiness/frontier.rs:223-230 | Membership agrees with the full readiness test, also for unknown nodes |
| `HistoryPrefixes.HistoryPrefix.Record` | core/woml-engine/src/engine/history/prefix.rs:140-155 | Extending the latest-attempt index over new attempts keeps it exact; a shrinking history drops index and frontier |
| `HistoryPrefixes.HistoryPrefix.Follow` | core/woml-engine/src/engine/history/prefix.rs:157-169 | After an event the frontier still tracks the state or is gone, and it is kept throughout a supported history |
| `HistoryPrefixes.HistoryPrefix.Advance` | core/woml-engine/src/engine/history/prefix.rs:127-171 | Consumes one event or poisons the cursor; the cursor's invariant holds either way |
| `HistoryPrefixes.HistoryPrefix.At` | core/woml-engine/src/engine/history/prefix.rs:109-174 | The cursor answers with the fold of exactly the requested prefix, refuses to go back, counts its requests, and fails if and only if that fold fails |
| `HistoryPrefixes.HistoryPrefix.Prime` | core/woml-engine/src/engine/history/prefix.rs:186-210 | Index and frontier are built for a running, bound state; a definition that cannot have one is given up |
| `HistoryPrefixes.HistoryPrefix.Query` | core/woml-engine/src/engine/readiness.rs:157-199 | Over any run of queries each answer is the ready list of the folded prefix, and an admissible definition with supported events never falls back to a scan; on ordinary events the list, and the rejection, are also those that the events themselves give |
| `HistoryReplay.RequestsGrow` | woml-cli/scripts/analyze-history-replay.ts:17-39 | Requested prefix lengths never decrease and never pass the event count |
| `HistoryReplay.AskersAre` | woml-cli/scripts/analyze-history-replay.ts:27-34 | The events that ask for a prefix are those outside loops of a listed kind, successful fork branches and run successes, once each and in order |
| `HistoryReplay.RequestsMean` | woml-cli/scripts/analyze-history-replay.ts:31-34 | Each asks for the events before it, a run success for itself too |
| `HistoryReplay.SequentialWork` | woml-cli/scripts/analyze-history-replay.ts:26-51 | A run of n steps in sequence asks for n + 1 prefixes, of lengths 2, 4 and so on; replaying them visits n*n + 3n + 2 events where the cursor visits 2n + 2 |
| `HistoryReplay.CursorRefinesReplay` | woml-cli/scripts/analyze-history-replay.ts:46-48 | For any fold, one forward cursor reaches at every request the state that refolding the prefix reaches, and applies the step once per event up to the last request |
| `HistoryReplay.FoldSteps` | woml-cli/scripts/analyze-history-replay.ts:43-48 | A fold applies its step once per event: the count is kept inside the step, and keeping it changes no state |
| `HistoryReplay.ReplaySteps` | woml-cli/scripts/analyze-history-replay.ts:37 | Answering every request by a fold of its prefix applies the step, in all, as often as the requested lengths add up to |
| `HistoryReplay.AnalyzeHistoryWork` | woml-cli/scripts/analyze-history-replay.ts:26-51 | The reported counters are the request count, the sum and the last of the lengths; the proposal never exceeds the current work nor twice the input |
| `HistoryReplay.CountersAreSteps` | woml-cli/scripts/analyze-history-replay.ts:36-49 | The reported current and proposed visits are the step applications of the two strategies, the first full fold included, whatever is folded; the two reach the same states |
| `Handshake.InvStep` | woml-cli/scripts/invocation-bootstrap-worker.ts:14-45 | Every step of parent, worker, imported code and clock keeps the two stages in lockstep |
| `Handshake.InvReachable` | woml-cli/scripts/invocation-bootstrap-child.ts:33-60 | The lockstep invariant holds in every reachable state |
| `Handshake.OneInFlight` | woml-cli/scripts/invocation-bootstrap-child.ts:33-60 | At most one command or protocol message is in flight, failures aside |
| `Handshake.BoundLostBy` | woml-cli/scripts/invocation-bootstrap-worker.ts:13-45 | From a reachable state with at most one message in flight, failures counted, a step leads to two if and only if one is in flight and the worker speaks unprompted: its import ends or fails, or production code posts or throws |
| `Handshake.NoFailureOneInFlight` | woml-cli/scripts/invocation-bootstrap-worker.ts:13-45 | While the worker has reported no failure, one message at most is in flight, counting both directions |
| `Handshake.TwoInFlight` | woml-cli/scripts/invocation-bootstrap-worker.ts:20-21 | A concrete run with two messages in flight: imported code posts twice |
| `Handshake.NoDeliveryWhileLoading` | woml-cli/scripts/invocation-bootstrap-worker.ts:17-32 | No command is queued while the import may have replaced the handler, and the production handler runs at most once |
| `Handshake.OneCompletion` | woml-cli/scripts/invocation-bootstrap-worker.ts:20-33 | Whatever the imported code posts, at most one completion is forwarded, after execute, with the realm, observer and import time announced before |
| `Handshake.RejectionsExplained` | woml-cli/scripts/invocation-bootstrap-child.ts:31-51 | An observation fails only by a failure the worker reported, a wrong response, the watchdog or an error event of the worker, never by a stage, realm, observer or import-time mismatch |
| `Handshake.HandshakeResolves` | woml-cli/scripts/invocation-bootstrap-child.ts:33-60 | Handshakes can resolve, for every observer and realm, with and without production code |
| `Handshake.ThrowRejects` | woml-cli/scripts/invocation-bootstrap-worker.ts:39-42 | Production code that throws where it is called fails the handshake |
| `Handshake.ResolvedRowAccepted` | woml-cli/scripts/invocation-bootstrap.ts:48-57 | Every row that resolves passes the validator's per-worker checks, with entered before ready before journey |
| `HandshakeTiming.ResolvedRowTimed` | woml-cli/scripts/invocation-bootstrap-child.ts:24-57 | In every run, each time in a resolved row is the difference of the two clock reads it is named for: entered, ready and completed deliveries at the parent; configure and end of import, execute and post at the worker; and these steps come in the order of the handshake |
| `HandshakeTiming.ResolvedRowNests` | woml-cli/scripts/invocation-bootstrap-child.ts:24-57 | The intervals nest: constructor before entry, import between entry and readiness, execution within the round trip, round trip within the journey after readiness |
| `BootstrapActors.BootstrapWorker.OnMessage` | woml-cli/scripts/invocation-bootstrap-worker.ts:14-43 | The worker's handler takes exactly the step of the protocol |
| `BootstrapActors.BootstrapWorker.ImportResolved` | woml-cli/scripts/invocation-bootstrap-worker.ts:28-33 | The continuation after the import takes exactly the step of the protocol |
| `BootstrapActors.BootstrapWorker.ImportRejected` | woml-cli/scripts/invocation-bootstrap-worker.ts:42 | A failed import takes exactly the step of the protocol |
| `BootstrapActors.BootstrapWorker.PostMessage` | woml-cli/scripts/invocation-bootstrap-worker.ts:20-25 | The replaced postMessage takes exactly the step of the protocol |
| `BootstrapActors.BootstrapObserver.OnMessage` | woml-cli/scripts/invocation-bootstrap-child.ts:33-59 | The parent's handler takes exactly the step of the protocol |
| `BootstrapActors.Bootstrap.Perform` | woml-cli/scripts/invocation-bootstrap-child.ts:33-60 | Worker and parent objects with their queues take any enabled step as the system does, and keep its lockstep invariant |
| `BootstrapCapture.WrapIsRemainder` | woml-cli/scripts/invocation-bootstrap-child.ts:10 | The rotation index is the remainder |
| `BootstrapCapture.OrderIsPermutation` | woml-cli/scripts/invocation-bootstrap-child.ts:9-12 | Each order is a rearrangement of the cases |
| `BootstrapCapture.OrderStarts` | woml-cli/scripts/invocation-bootstrap-child.ts:9-12 | The first sample of the first process keeps the order of the cases |
| `BootstrapCapture.OrderTurns` | woml-cli/scripts/invocation-bootstrap-child.ts:9-12 | Each sample turns the order by one, forward in even processes and back in odd ones |
| `BootstrapCapture.OrderMirrors` | woml-cli/scripts/invocation-bootstrap-child.ts:9-12 | An odd process runs the order of the process before it, one sample on, backwards |
| `BootstrapCapture.SlotsBalanced` | woml-cli/scripts/invocation-bootstrap-child.ts:9-12 | Over as many consecutive samples as there are cases, each slot sees each case exactly once |
| `BootstrapCapture.FlatPosition` | woml-cli/scripts/invocation-bootstrap.ts:35-47 | A flat position divides back into its sample and slot |
| `BootstrapCapture.ObservedAccepted` | woml-cli/scripts/invocation-bootstrap-child.ts:24-57 | A worker whose row some run of the handshake resolved with, or whose times come off a clock that never runs back, passes the per-worker checks |
| `BootstrapCapture.GenuineAccepted` | woml-cli/scripts/invocation-bootstrap-child.ts:70-74 | A batch of such observations becomes a row that the validator accepts |
| `BootstrapCapture.ValidateRows` | woml-cli/scripts/invocation-bootstrap.ts:35-60 | The loop with its two sets accepts if and only if every row is in order and all observers and realms are distinct |
| `BootstrapCapture.ValidateBootstrap` | woml-cli/scripts/invocation-bootstrap.ts:31-61 | Accepts if and only if process, length, order, timing and identity all hold |
| `BootstrapCapture.AcceptedSample` | woml-cli/scripts/invocation-bootstrap.ts:35-47 | Every sample of an accepted capture has each case once |
| `BootstrapCapture.AcceptedTimes` | woml-cli/scripts/invocation-bootstrap.ts:41-58 | Every row of an accepted capture has its number of workers, and no worker a negative time or an import time without an import |
| `BootstrapCapture.ProduceSample` | woml-cli/scripts/invocation-bootstrap-child.ts:70-78 | One sample appends one accepted row per case |
| `BootstrapCapture.Produce` | woml-cli/scripts/invocation-bootstrap-child.ts:68-79 | Every complete capture of resolved handshakes and clock readings, with fresh ids, is accepted: order, counts and timing; and each row has the times of its own observations |
| `BootstrapCapture.AcceptedCaptureExists` | woml-cli/scripts/invocation-bootstrap-child.ts:68-79 | Every contract has such a capture: the handshakes resolve, the ids are fresh, the validator accepts |
| `HostCorrelation.InvStep` | woml-cli/scripts/invocation-setup-child.ts:24-62 | Every send, response, window change and end keeps the correlation invariant |
| `HostCorrelation.InvReachable` | woml-cli/scripts/invocation-setup-child.ts:24-92 | The correlation invariant holds in every reachable state |
| `HostCorrelation.SendNeverRepeats` | woml-cli/scripts/invocation-setup-child.ts:56-59 | Sending never fails its own assertion: each key is new |
| `HostCorrelation.CorrelationSafe` | woml-cli/scripts/invocation-setup-child.ts:39-61 | Pending and completed keys are disjoint, no key is sent twice, and no more than the allowed number is in flight |
| `HostCorrelation.DrainComplete` | woml-cli/scripts/invocation-setup-child.ts:86-92 | At a clean drain everything planned was sent, the completed keys are exactly the issued invocations, and rows are those invocations in some order |
| `HostCorrelation.Drains` | woml-cli/scripts/invocation-setup-child.ts:71-92 | Every plan has a run that drains cleanly, so the results about clean drains apply to every plan |
| `HostCorrelation.TimesReachable` | woml-cli/scripts/invocation-setup-child.ts:64-69 | In every run each row has its times, none negative: the wall time off a clock that never runs back, the host's duration as checked |
| `HostCorrelation.RowsTimed` | woml-cli/scripts/invocation-setup-child.ts:64-70 | Each row of each run belongs to one send and one later completion of that request: its wall time is the clock between the two, its host duration the one in the answer |
| `HostCorrelation.HostClient.SendNext` | woml-cli/scripts/invocation-setup-child.ts:56-62 | The sender takes exactly the step of the protocol |
| `HostCorrelation.HostClient.OnMessage` | woml-cli/scripts/invocation-setup-child.ts:33-46 | The reader takes exactly the step of the protocol |
| `HostCorrelation.HostClient.Perform` | woml-cli/scripts/invocation-setup-child.ts:24-92 | The client object takes any enabled step as the system does, and keeps its correlation invariant |
| `HostCorrelation.Play` | woml-cli/scripts/invocation-setup-child.ts:24-92 | Whatever script of sends, responses and windows the object is put through: keys stay apart, the concurrency bound holds, and a clean drain has exactly the planned invocations |
| `InvocationCapture.KeyInjective` | woml-cli/scripts/invocation-setup-fixtures.ts:21-25 | Module digests and (batch, index) invocation ids never collide |
| `InvocationCapture.PlanFlattens` | woml-cli/scripts/invocation-setup-child.ts:74-85 | Windows of any size issue the registrations, one first invocation and every (sample, index), in order |
| `InvocationCapture.CohortPlanValid` | woml-cli/scripts/invocation-setup-child.ts:74-85 | Every cohort is a plan the correlation theorems apply to |
| `InvocationCapture.DrainedRow` | woml-cli/scripts/invocation-setup-measurement.ts:45-66 | For every order of completions, rows and completed keys have the expected number and the expected labels |
| `InvocationCapture.AcceptedRowsAre` | woml-cli/scripts/invocation-setup-measurement.ts:62-65 | An accepted row has exactly one request row for each expected invocation: the sorted labels hide nothing |
| `InvocationCapture.AcceptedBatches` | woml-cli/scripts/invocation-setup-measurement.ts:55-62 | An accepted timing row has all its warm-up batches and all its measured batches; in the other modes one measured batch |
| `InvocationCapture.MeasureBatches` | woml-cli/scripts/invocation-setup-child.ts:78-85 | Each batch has its producer count and a non-negative time, the time between its own two clock reads, and together they fit between the clock reads around them |
| `InvocationCapture.CohortDrains` | woml-cli/scripts/invocation-setup-child.ts:71-96 | Every cohort, of every size and mode, has a clean drain; smoke cohorts below four included |
| `InvocationCapture.MeasureCohort` | woml-cli/scripts/invocation-setup-child.ts:71-96 | After a clean drain the validator accepts the row, times of requests included, if and only if a smoke cohort has at least four invocations; every phase has the time between its own two reads, and the lifetime is the sum of phases, batches and the time between them |
| `SignalStream.FeedAppend` | woml-cli/scripts/measure-workflow.ts:138-143 | A streaming decoder gives the same text for any cut of its input |
| `SignalStream.SplitMore` | woml-cli/scripts/measure-workflow.ts:143-147 | Text that arrives later only completes the pending line |
| `SignalStream.SignalReader.TakeLine` | woml-cli/scripts/measure-workflow.ts:144-153 | Takes the first line off the buffer and decodes it |
| `SignalStream.SignalReader.Receive` | woml-cli/scripts/measure-workflow.ts:141-154 | After each chunk the signals are those of the complete lines seen so far and the buffer is the rest |
| `SignalStream.SignalReader.Finish` | woml-cli/scripts/measure-workflow.ts:155-160 | At the end the signals are those of all text seen, a last line without newline included |
| `SignalStream.ReadSignals` | woml-cli/scripts/measure-workflow.ts:136-161 | However the bytes are cut into chunks, the signals, and whether decoding failed, are those of the whole text split at newlines |
| `SignalStream.CollectMeans` | woml-cli/scripts/measure-workflow.ts:144-153 | Reading stops at the first line that violates the protocol, if any; before it every line gives its signal, in order, or is ignored |
| `PerformanceSignals.DecodeSignal` | woml-cli/scripts/performance-measurement.ts:158-203 | Decoding a well-formed signal gives that signal back |
| `PerformanceSignals.DecodedIff` | woml-cli/scripts/performance-measurement.ts:158-203 | A value decodes to a signal if and only if the signal is valid and the value has its fields; it is ignored if and only if it is no object of the signal profile |
| `PerformanceSignals.SafeIntegers` | woml-cli/scripts/performance-measurement.ts:158-203 | The integers that pass the safe-integer check are those up to 2^53 - 1, and they print as their decimal digits |
| `PerformanceSignals.PrintNoControl` | woml-cli/scripts/performance-runtime-child.ts:14-16 | Printed JSON holds no newline, so one signal is one line |
| `PerformanceSignals.EmittedDecodes` | woml-cli/scripts/performance-measurement.ts:158-203 | The lines of the emitted text decode to the emitted signals, in order |
| `PerformanceSignals.ReadPerformanceSignals` | woml-cli/scripts/measure-workflow.ts:136-161 | For every cut of the child's bytes the driver collects exactly the signals the child emitted |
| `ClosedLoop.ControlledInput.InspectPresentation` | woml-cli/scripts/performance-runtime-child.ts:95-153 | Terminal presentations take requests from the front, one each, and report an unmatched run when there is none |
| `ClosedLoop.InvStep` | woml-cli/scripts/performance-runtime-child.ts:187-215 | Every step of driver and child keeps the loop's invariant |
| `ClosedLoop.LoopCorrelates` | woml-cli/scripts/measure-workflow.ts:264-283 | Unless a line failed after its run was admitted: at most one request pending, ids emitted in submission order, triggers equal terminals plus pending, and no terminal without a request |
| `ClosedLoop.TerminalUnmatchedIff` | woml-cli/scripts/performance-runtime-child.ts:95-153 | In every reachable state a run that settles finds no request if and only if a line handler threw while an admitted run had not settled; otherwise it answers the newest request |
| `ClosedLoop.DriverGoesOn` | woml-cli/scripts/measure-workflow.ts:274-277 | A waiting driver goes on if and only if there is an error or the answer to its last request |
| `ClosedLoop.DriverReceives` | woml-cli/scripts/measure-workflow.ts:274-283 | An error stops it; otherwise it receives the one signal there is, the answer to its last request, and stops if the run did not succeed |
| `ClosedLoop.OrphanedBy` | woml-cli/scripts/performance-runtime-child.ts:61-70 | That happens in one way only: the line handler throws while a run is going on; and it is never undone |
| `ClosedLoop.UnansweredStays` | woml-cli/src/cli.ts:8409-8414 | A line handler that returns without a run leaves its request pending, and no step of driver or child answers it |
| `ClosedLoop.UnansweredBy` | woml-cli/scripts/performance-runtime-child.ts:61-70 | A request comes to be unanswered if and only if its line handler returns before a run was admitted |
| `ClosedLoop.UnansweredReachable` | woml-cli/src/cli.ts:8386-8395 | A concrete run that gets there |
| `ClosedLoop.Loop.Perform` | woml-cli/scripts/performance-runtime-child.ts:61-70 | With the child's own queue, pushed, popped and shifted by its methods, every step is the system's and keeps the invariant |
| `ClosedLoop.Play` | woml-cli/scripts/measure-workflow.ts:264-283 | Whatever script of steps is played on the objects, they end in a reachable state, so the correlation holds |
| `ClosedLoop.OrphanReachable` | woml-cli/scripts/performance-runtime-child.ts:136-144 | A concrete run in which a terminal finds the queue empty |
| `TerminalObserver.StepValid` | woml-cli/scripts/runtime-session-profile-child.ts:45-67 | Every record, wait and timeout keeps the observer's invariant |
| `TerminalObserver.Run` | woml-cli/scripts/runtime-session-profile-child.ts:42-68 | The invariant holds after every sequence of steps |
| `TerminalObserver.NeverBoth` | woml-cli/scripts/runtime-session-profile-child.ts:47-65 | No run is both awaited and completed, and no promise is settled twice |
| `TerminalObserver.RecordedThenAwaited` | woml-cli/scripts/runtime-session-profile-child.ts:46-54 | A terminal recorded first is handed over at once, whatever happened in between |
| `TerminalObserver.AwaitedThenRecorded` | woml-cli/scripts/runtime-session-profile-child.ts:50-66 | A terminal recorded later settles the promise with the same value, for good, unless it had timed out |
| `TerminalObserver.SettledStays` | woml-cli/scripts/runtime-session-profile-child.ts:56-66 | A settled promise never changes |
| `TerminalObserver.CompletedStays` | woml-cli/scripts/runtime-session-profile-child.ts:47-49 | A recorded value never changes |
| `TerminalObserver.Observer.OnProgress` | woml-cli/scripts/runtime-session-profile-child.ts:45-51 | The callback takes exactly the step of the machine |
| `TerminalObserver.Observer.WaitFor` | woml-cli/scripts/runtime-session-profile-child.ts:52-66 | Waiting takes exactly the step of the machine |
| `TerminalObserver.Play` | woml-cli/scripts/runtime-session-profile-child.ts:42-68 | Any sequence of callbacks, waits and timeouts leaves the object where the machine is |
| `TerminalObserver.Observer.OnTimeout` | woml-cli/scripts/runtime-session-profile-child.ts:57-60 | The timer takes exactly the step of the machine |
| `OrderStatistics.MedianMonotone` | woml-cli/scripts/performance-measurement.ts:106-111 | Smaller samples, paired in any way, have no larger median |
| `OrderStatistics.MedianOfPermutation` | woml-cli/scripts/performance-measurement.ts:122-123 | The order of samples does not matter |
| `OrderStatistics.MedianScaled` | woml-cli/scripts/performance-measurement.ts:106-111 | Scaling the samples scales the median |
| `OrderStatistics.MedianPositive` | woml-cli/scripts/performance-measurement.ts:106-111 | Positive samples have a positive median |
| `OrderStatistics.HalfBelowMedian` | woml-cli/scripts/performance-measurement.ts:106-111 | At least half of the samples do not exceed the median |
| `OrderStatistics.HalfAboveMedian` | woml-cli/scripts/performance-measurement.ts:106-111 | At least half of the samples are no smaller than the median |
| `OrderStatistics.MedianReflected` | woml-cli/scripts/performance-measurement.ts:106-111 | Turning the samples around turns the median around |
| `OrderStatistics.MedianByRank` | woml-cli/scripts/performance-measurement.ts:106-111 | The median is the sample of middle rank for an odd number, the mean of the two middle ranks for an even one |
| `OrderStatistics.MadIsMedian` | woml-cli/scripts/performance-measurement.ts:124-134 | The reported deviation is the median of the absolute differences from the median |
| `OrderStatistics.P95IsNearestRank` | woml-cli/scripts/performance-measurement.ts:127-132 | The reported p95 is a sample and the least value that 95 in 100 samples do not exceed |
| `OrderStatistics.SummarizeSamples` | woml-cli/scripts/performance-measurement.ts:113-121 | Refused if and only if there is no sample or a negative one |
| `OrderStatistics.SummaryBounds` | woml-cli/scripts/performance-measurement.ts:128-135 | Minimum and maximum are samples that bound all of them, with the median between |
| `OrderStatistics.MadCovers` | woml-cli/scripts/performance-measurement.ts:124-134 | At least half of the samples lie within the median absolute deviation of the median |
| `ValidatedState.AcceptedIffBelow` | woml-cli/scripts/validated-state-comparison.ts:31-59 | The primary decision passes if and only if the candidate is at most the required fraction of a positive baseline |
| `ValidatedState.PrimaryPasses` | woml-cli/scripts/validated-state-comparison.ts:25-59 | If each measured candidate sample is at most the required fraction of its positive baseline counterpart, the medians of process medians pass |
| `ValidatedState.RowMeans` | woml-cli/scripts/validated-state-comparison.ts:38-39 | A row gives readings only when measured and of the fixture: the operation's time on the clock asked for, every hit its own |
| `ValidatedState.ReadingsMean` | woml-cli/scripts/validated-state-comparison.ts:38-39 | Each row adds its own readings, whatever stands around it |
| `ValidatedState.NullNeverPasses` | woml-cli/scripts/validated-state-comparison.ts:25-29 | A missing measurement on either side never passes the primary decision |
| `StartupComparison.BatchEntries` | woml-cli/scripts/startup-separation-comparison.ts:18-21 | The two variants of a pair are adjacent |
| `StartupComparison.ScheduleComplete` | woml-cli/scripts/startup-separation-comparison.ts:15-23 | Every (batch, scenario, variant) is scheduled exactly once, and nothing else |
| `StartupComparison.ScheduleLeader` | woml-cli/scripts/startup-separation-comparison.ts:15-23 | In each batch of the schedule, the first entry of a scenario has the variant that batch, place and reversal give it |
| `StartupComparison.LeadChanges` | woml-cli/scripts/startup-separation-comparison.ts:19 | The baseline leads first; the lead changes along a batch and from batch to batch |
| `StartupComparison.AlternatesIffOdd` | woml-cli/scripts/startup-separation-comparison.ts:15-23 | In every schedule a scenario's first variant changes from batch to batch if and only if the number of scenarios is odd; for an even number it never changes |
| `StartupComparison.FirstPlacesBalanced` | woml-cli/scripts/startup-separation-comparison.ts:15-23 | Counted over a schedule of two or more batches, first places differ by at most one if and only if the number of scenarios is odd; for an even number one variant has them all |
| `StartupComparison.KeyInjective` | woml-cli/scripts/startup-separation-comparison.ts:49 | The text key names one batch, scenario id and variant |
| `StartupComparison.ValidSessions` | woml-cli/scripts/startup-separation-comparison.ts:27-46 | Every session of a complete cohort has the required number of runs, each of which took time and left facts |
| `StartupComparison.CompleteIsSchedule` | woml-cli/scripts/startup-separation-comparison.ts:47-51 | The length, key and row checks pass if and only if the observations are the schedule in some order with valid results |
| `StartupComparison.FindObservation` | woml-cli/scripts/startup-separation-comparison.ts:64 | In a complete cohort the search finds the process, and no other row matches |
| `StartupComparison.CheckDrift` | woml-cli/scripts/startup-separation-comparison.ts:63-70 | The pairwise checks pass if and only if no two processes of a batch differ in definition, model version or fact counts |
| `StartupComparison.MetIff` | woml-cli/scripts/startup-separation-comparison.ts:73-87 | Met if and only if every candidate value is below every baseline value and the median is at least a tenth lower; inconclusive if and only if neither side is wholly below the other |
| `StartupComparison.LaterValues` | woml-cli/scripts/startup-separation-comparison.ts:53-54 | One value per batch, the positive median of the later requests of the one process found |
| `StartupComparison.CompareTarget` | woml-cli/scripts/startup-separation-comparison.ts:62-87 | On a complete cohort the decision is defined, and met means that no candidate process was as slow as any baseline process |
| `ProcessTree.ProcessTreeRss` | woml-cli/scripts/run-performance-baseline.ts:190-203 | The walk ends on any finite graph, cyclic or not, visits exactly the reachable processes, each once, and returns the sum of their memory |
| `ProcessTree.Inspect` | woml-cli/scripts/profile-runtime-investigation.ts:119-129 | One process contributes its memory and the positive children of each readable task, or nothing once its status is gone |
| `ProcessTree.TreeRss` | woml-cli/scripts/profile-runtime-investigation.ts:110-131 | The same promises for children of every task |
| `ProcessTree.OrderIrrelevant` | woml-cli/scripts/run-performance-baseline.ts:195-202 | The sum depends on the set of processes visited and not on the order |
| `ProcessTree.CoherentTotals` | woml-cli/scripts/profile-runtime-investigation.ts:111-112 | On a snapshot in which every process with children can be read in full, the main-task total never exceeds the all-task total |
| `ProcessTree.TotalsIff` | woml-cli/scripts/profile-runtime-investigation.ts:110-131 | For the two walks of a snapshot, the main-task total stays within the all-task total for all readings if and only if every readable process that main tasks lead to is one that all tasks lead to |
| `ProcessTree.CoverageBreaks` | woml-cli/scripts/profile-runtime-investigation.ts:119-129 | Where that fails, some process that both walks visit has an unreadable status or task list, an unlisted main task, or a child that is no positive number |
| `ProcessTree.ReadingsKeepWalks` | woml-cli/scripts/profile-runtime-investigation.ts:119-129 | Other readings do not change which processes the walks visit |
| `ProcessTree.NarrowCanExceedWide` | woml-cli/scripts/profile-runtime-investigation.ts:119-122 | When the root's status is gone but its children file is not, the main-task total is larger |
| `FileTree.LocationsRead` | woml-cli/scripts/release-artifact.ts:52-65 | A location is listed if and only if a file is there |
| `FileTree.LocationsDistinct` | woml-cli/scripts/release-artifact.ts:52-65 | No file is listed twice |
| `FileTree.SetReads` | woml-cli/scripts/release-artifact.ts:171-195 | Writing or removing one file changes what is read there and nowhere else |
| `ReleaseArtifact.Visit` | woml-cli/scripts/release-artifact.ts:54-62 | Recursion appends the paths of all files below, in the order met |
| `ReleaseArtifact.PathsUnder` | woml-cli/scripts/release-artifact.ts:52-65 | The sorted paths of exactly the files under the directory; fails when there is no directory |
| `ReleaseArtifact.CleanResolves` | woml-cli/scripts/release-artifact.ts:59-60 | A recorded path leads back to its file when no name holds a backslash |
| `ReleaseArtifact.UncleanMissed` | woml-cli/scripts/release-artifact.ts:60 | No recorded path leads to a file with a backslash in its path |
| `ReleaseArtifact.OneReceipt` | woml-cli/scripts/release-artifact.ts:230-245 | For a known target with its binary in place exactly one load receipt is valid |
| `ReleaseArtifact.Workspace.Seal` | woml-cli/scripts/release-artifact.ts:166-197 | The old manifest goes, every file is measured, and only the manifest changes; each failure leaves no manifest |
| `ReleaseArtifact.MatchFiles` | woml-cli/scripts/release-artifact.ts:217-222 | The loop over the files passes if and only if each file has the recorded size and digest |
| `ReleaseArtifact.Workspace.Verify` | woml-cli/scripts/release-artifact.ts:199-251 | Returns a manifest if and only if everything it says of the tree holds |
| `ArtifactFaithfulness.SealsIff` | woml-cli/scripts/release-artifact.ts:166-197 | Sealing succeeds if and only if kind and target agree, the package names itself, and every recorded path leads to a file |
| `ArtifactFaithfulness.CleanSeals` | woml-cli/scripts/release-artifact.ts:166-197 | Without backslashes in paths, a package that names itself is always sealed |
| `ArtifactFaithfulness.HoldsRecords` | woml-cli/scripts/release-artifact.ts:178-190 | A manifest that holds records each clean file under its path with its size and its digest |
| `ArtifactFaithfulness.ReceiptBindsBinary` | woml-cli/scripts/release-artifact.ts:217-245 | Under an injective digest one load receipt is valid for one binary only |
| `ArtifactFaithfulness.LostPathFails` | woml-cli/scripts/release-artifact.ts:178-184 | A file whose recorded path leads nowhere keeps its tree from being sealed |
| `ArtifactFaithfulness.SealThenVerify` | woml-cli/scripts/release-artifact.ts:166-251 | Once sealed, a tree verifies if and only if it has one archive and, if native, a known target with a valid load receipt |
| `ArtifactFaithfulness.SealAndVerify` | woml-cli/scripts/release-artifact.ts:166-251 | The two commands in a row, on any tree: when sealing succeeds, when verification then gives the same manifest, that it gives none after a failed sealing, and that the manifest records every clean file with its size and digest |
| `ArtifactFaithfulness.CleanDetects` | woml-cli/scripts/release-artifact.ts:211-222 | Two trees of which one manifest holds have the same files with the same contents, when the first has no backslash in a path |
| `ArtifactFaithfulness.UncleanHidden` | woml-cli/scripts/release-artifact.ts:60 | A file with a backslash in its path can hold anything and still verifies |
| `ArtifactFaithfulness.FaithfulIffClean` | woml-cli/scripts/release-artifact.ts:52-65 | Verification detects every change if and only if no file has a backslash in its path |
| `HiddenFile.HiddenFileExists` | woml-cli/scripts/release-artifact.ts:60 | Such trees exist, for any suitable names: with a file at the slashed path too, the tree is sealed and verifies |
| `HiddenFile.DetectionFails` | woml-cli/scripts/release-artifact.ts:199-251 | On such a tree verification misses a change |

## Left out

- Readiness.ActiveWithin: covers ordinary graphs (script nodes, unconditional edges), the graphs for which the engine builds a frontier; choices, forks, waits, locks, sagas and loops go through the full scan, which is not modelled for them.
- HistoryPrefixes.HistoryPrefix.Query: the answer `Scan` stands for the engine's full scan and is not computed here; identity checks of the definition hash are one flag.
- HistoryMeaning.FoldMeans: the histories are those of ordinary script graphs (run start, attempts, retries); cancellation, approvals, loops and the other event kinds are not given a meaning here.
- HandshakeTiming.ResolvedRowNests: parent and worker read one clock; only differences of reads are compared, so two clocks that run alike give the same.
- RunProjection.EventKeepsAttempts: for events that the frontier does not follow it is a condition of the model's fold, which accepts such an event only if it keeps the attempts' nodes; for the followed events it is proved from what they do.
- Dispatch.SealedIsIntact: the receiver works on the fields as they were sent; that it decodes them into a typed record and encodes that again before hashing is not modelled.
- ClosedLoop.LoopCorrelates: the driver's lines are taken to be the only source of runs; runs of other triggers would write terminal presentations of their own.
- The driver's deadline in the closed loop: a request that nothing answers stays pending in the model.
- The rest of the engine: storage, scheduling, leases, recovery, remote workers and the native bridge.
- Event payload validation, sequence numbers and managed operations: folded into one flag per event that says whether the fold accepts it.
- ArtifactFaithfulness.FaithfulIffClean: compares trees against one and the same manifest; a tree sealed again carries another manifest.
- Symbolic links, permissions and files that change while they are read: the tree is a value, a special node cannot be read.
- ReleaseArtifact.Workspace.Seal: the manifest's JSON text is a pair of functions of which only reading after writing is assumed; the round trip itself is proved for compact JSON in `Json.RoundTrip`.
- ProcessTree.TreeRss: reads one snapshot of /proc; a process list that changes during the walk is not modelled, nor the branch for other platforms.
- StartupComparison.CompareTarget: the target metric only; the control metrics and the memory bound repeat the same summary with other readings.
- Floating-point rounding, NaN, infinities and negative zero: numbers are exact, and the p95 place is the exact ceiling of 95n/100.
- SHA-256, TextDecoder, UUID formats and regular expressions: functions with the one law that a result needs.
- Clocks, timers, process spawning, pipes and HTTP: a clock is a non-decreasing sequence of readings, a timer is a step that may happen.
- The waiting loop of the measurement driver (`waitFor`) beyond the order of signals: its wake-ups are steps of the closed loop.
- Grouping of trace spans, runtime order, report formatting, budgets and command lines: they would only add easy members.
- The script host's frame encoding and decoding (`woml-cli/src/script-host/framing.ts`): the correlation loop receives whole messages.
