# SHAR: graph analyses, store protocols, retries and encodings

A Dafny model of the parts of SHAR that compile and check a BPMN process graph, talk to a shared
key-value store, stream replies, retry jobs, and turn digests into text, with proofs of what those
parts are for.

`dafny verify dfyconfig.toml` checks the whole project.

| file | what it models |
|---|---|
| `Model.dfy`, `Elements.dfy` | process elements and the index of elements by id |
| `Graph.dfy`, `Arithmetic.dfy` | walks, reachability, loop erasure, acyclicity; facts about products |
| `Validation.dfy` | the check for variables that may be undefined when they are read |
| `Transforms.dfy` | the outputs collected between a splitting and a joining gateway |
| `Tagger.dfy` | gateway directions, and the match of joins to splits |
| `Linter.dfy`, `ScanWays.dfy`, `Acceptance.dfy` | the directed scan for paths without an end event; what it enters, told from the flows; what acceptance means |
| `UpdateKV.dfy` | the compare-and-swap update of a key by any number of clients |
| `LargeObject.dfy` | loading, saving and deleting large objects under a lock |
| `Streaming.dfy` | the streaming reply of a server to a client |
| `Retry.dfy` | delays, settlement of messages, the life of a failing job |
| `Base62.dfy` | base-62 encoding |
| `Indexer.dfy` | the prefix index over a watched store |
| `Duration.dfy`, `Decimal.dfy` | ISO 8601 durations and decimal numerals |

## How to read it

- Elements are values and the index is a map from ids to elements. A nil outbound pointer is `None`; a nil map is an
  empty one.
- The order in which Go goes through a map is a parameter (`order`). It decides which catch a link leads to when
  several have its name, and which join counts when several name one split.
- Which variables an expression reads is a function given to the check; `None` stands for an expression the engine
  rejects.
- Clocks, the age of a message, the answers of the network and the result of an out-of-range conversion from floating
  point are parameters.
- Concurrent code is a transition system. Theorems about it quantify over all finite runs, that is, over all
  interleavings.
- Preconditions such as "every target is in the index" or "the search ends" stand where the code would follow a nil
  pointer or recurse for ever.
- In the linter a run goes along flows, caught errors, timers on the boundary of an element, and from a link throw to
  the catches of its name; the scan itself follows flows only. The runs are those of one process: compensation, which
  executes tasks without going on from them, and catches in other processes of a workflow are not followed.
- Where a promise does not hold of the code, the condition under which it does is proved beside it, in both directions:
  `CollectsBetweenIffNoneSkipped`, `NeverLostIffNeverMissing`, `AlwaysFaithfulIffProper`, `AlwaysRightIffSound`,
  `KeptUpAccurateIffWritesSteady`, `PutKeepsAccurateIff`, `DeleteKeepsAccurateIff`, `AlwaysAccurateIffSteady`,
  `DecodesEveryDigitIffDistinct`, `EncodedAlikeIffSameNumber`. For the linter the condition on flows is exact on graphs
  where it can be told of every early flow whether its target is entered by then (`EnteredIffKept`,
  `EntersEveryRunIff`, `AcceptanceRightIffDeadEndsKept`); on all other graphs the exact condition is what the scan enters
  (`AcceptsIffEnteredFaultless`, `AcceptanceRightIffDeadEndsEntered`), between the bounds of `KeptIsEntered` and
  `LostBehind`.
- Inputs on which a promise fails: `OptionalTaskIsLost`, `EndInABranchFails`, `CrossingPairsDependOnOrder`,
  `NestedValuesDependOnOrder`, `LoopBackHidesDeadEnd`, `LinkHidesDeadEnd`, `ErrorHidesDeadEnd`, `TimerHidesDeadEnd`, `SharedTargetHidesDeadEnd`,
  `LosingRun`, `EmptiedKeyLoses`, `SilentDelete`, `UnfaithfulRun`, `DoublingOverflows`, `LongDelayVanishes`,
  `DroppedKeyIsStale`, `LateWatcherMisses`, `LeadingZeroBytesAreLost`.

Where the code and its comments part, the code is followed. At a parallel join the variable check adds the outputs of
every split-join pair of the process, not only of the pair being closed. `getOffset` compares the age of the message
with the delay in nanoseconds taken for milliseconds. In the linter a link throw leads back to itself.

## Model

| member | source | states |
|---|---|---|
| Elements.IndexProcessElements | common/elementutil.go:15-22 | the index is what entering the flattened process, element after element, makes of the given one |
| Elements.EnterLooksUpLast | common/elementutil.go:15-22 | an id is in the index if and only if some element has it, and it leads to the last such element |
| Elements.FlattenHoldsAll | common/elementutil.go:15-22 | the flattened process holds exactly the elements of the process, of its sub-processes, of theirs, and so on to any depth |
| Elements.IndexedAtAnyDepth | common/elementutil.go:15-22 | however deep an element lies, its id is in the index |
| Elements.FindElementIdsWithType | client/parser/parser.go:182-191 | searching on behind each element found gives the ids already there and after them those of all elements of the type, in document order and once for each element |
| Validation.CheckVariables | client/parser/validation.go:185-214 | when the walks between split and join end, which matters only if a start event leads to a parallel join: accepts if and only if on every walk from a start event along flows, caught errors and links, cycles included, each element reads only what the walk has set; boundary timers are not followed; fails if and only if an unreadable expression or a link to nowhere is reachable; otherwise reports exactly the pairs of element and variable that some simple path leaves unset |
| Validation.ReadsAre | client/parser/validation.go:91-110 | what counts as read by an element: a variable of an input expression or of a condition on any of its flows, unless it is an end event |
| Validation.GenAre | client/parser/validation.go:65-89 | what counts as set: the outputs of the element and of each error caught on it and, at a parallel join, of every element that the walk of some split-join pair comes by, unless it is an end event |
| Validation.OutsAre | client/parser/validation.go:81-123 | where the check goes on: to the targets of the caught errors and of the flows, and from a link throw to the last link catch of its name, unless the element is an end event |
| Validation.BrokenIs | client/parser/validation.go:91-121 | where it fails: at an unreadable input or condition, and at a link throw when no link catch has its name, unless the element is an end event |
| Validation.Checker.CheckFlows | client/parser/validation.go:99-110 | going through the flows one by one reports the unknown variables of all their conditions, gathers all their targets, and fails if and only if some condition cannot be read |
| Validation.Checker.FindElementsReferencingUndefinedVars | client/parser/validation.go:58-160 | ends on every closed graph; works on a branch whose visited set and variables are those of the path to the element; touches only contexts of that branch; adds to the report exactly what the traversal from the element calls for |
| Validation.Checker.VisitOutbound | client/parser/validation.go:130-158 | a fork starts from a copy of the branch as it is at the fork, and leaves the branch itself as it was |
| Validation.Checker.AddOutputs | client/parser/validation.go:65-89 | the branch gains the outputs of the element, of its caught errors and, at a parallel join, of all split-join pairs |
| Validation.Checker.CheckUndefinedVarReference | client/parser/validation.go:162-178 | reports exactly the variables of the expression that are not known, and fails if and only if it cannot be read |
| Validation.SiblingsApart | client/parser/validation.go:133-150 | no context belongs to two forks of one branch, so no branch changes what a sibling knows |
| Validation.VisitsSound | client/parser/validation.go:125-160 | the traversal comes by an element only along a simple path that avoids what was seen, knowing exactly what is set along it |
| Validation.VisitsComplete | client/parser/validation.go:125-160 | it comes by the end of every such path |
| Validation.NothingReportedIffWalksSafe | client/parser/validation.go:58-160 | nothing is reported from a start event if and only if every walk from it, of any length, is safe |
| Validation.ReportedIffSomeWayUnset | client/parser/validation.go:162-178 | an entry is reported if and only if some simple path leaves the variable unset |
| Transforms.FindGatewayBranchOutputTransforms | client/parser/parser.go:163-180 | where the flows it follows do not go in circles: computes the walk that stops at an element's first flow into the join, and fails on a nil pointer if and only if it comes by an element without outbound flows short of the join |
| Transforms.EndInABranchFails | client/parser/parser.go:164-164 | a pair with an end event in one of three branches, on which the walk fails |
| Transforms.WalkCollectsExactlyVisited | client/parser/parser.go:163-180 | the variables collected are exactly the outputs of the elements reachable along flows not listed after one into the join, each with a value that one of these elements gives it |
| Transforms.LastSetterWins | client/parser/parser.go:168-172 | a variable set by several elements gets the value of the last one the walk comes by |
| Transforms.DepthFirst | client/parser/parser.go:163-180 | the walk comes to the first target of an element right after the element itself, if that is not the join and has a target |
| Transforms.WalkCollectsExactlyBetween | client/parser/parser.go:163-180 | without dead ends and with flows into the join listed last, the keys are exactly the outputs of the elements on paths from split to join, the split excluded, the join included |
| Transforms.CollectsBetweenIffNoneSkipped | client/parser/parser.go:173-177 | where no path dies out short of the join, and whatever the elements output: the walk collects the outputs between split and join if and only if no element between them is reachable only behind a flow into the join |
| Transforms.OptionalTaskIsLost | client/parser/parser.go:173-177 | a split that leads to the join first and then to a task loses the outputs of the task |
| Transforms.MergeConvergentOutputs | client/parser/parser.go:142-161 | with the handler of the variable check: the outputs of all split-join pairs together |
| Transforms.MergedAreVisited | client/parser/parser.go:142-161 | these are exactly the outputs of the elements that some pair's walk comes by |
| Transforms.PairsAre | client/parser/parser.go:142-150 | a split is paired if and only if some join names it, and then with the last such join in the order the index is gone through |
| Transforms.Process.PopulateConvergentGatewayOutputTransforms | client/parser/parser.go:134-161 | for nested pairs, and whatever the order: every join ends up with exactly the original outputs of the elements its walk comes by, which are all those between its split and itself where flows into the join are listed last and no path dies out; each output has a value that one of these elements gave it originally, and where the walk comes by no other paired join the value of the last element to set it; nothing else changes |
| Transforms.JoinIsVisited | client/parser/parser.go:163-180 | where no path dies out the walk comes to the join |
| Transforms.CrossingPairsDependOnOrder | client/parser/parser.go:151-160 | where pairs are not nested, for some outputs what a join ends up with depends on which pair is handled first |
| Transforms.NestedValuesDependOnOrder | client/parser/parser.go:151-160 | where the walk of one pair comes to the join of another after an element that the other's walk passes over, nested or not, for some outputs the value a join ends up with depends on which pair is handled first |
| Tagger.GetElementIdReferences | client/parser/tagger.go:54-68 | maps an id to the elements that lead to it, in document order and once per flow, and has no entry for an element nothing leads to |
| Tagger.InboundCounts | client/parser/tagger.go:54-68 | an element is listed among those that lead to another as often as it has a flow to it |
| Tagger.Tagger.RecurseRecip | client/parser/tagger.go:102-123 | adds to the result what the backward search collects, on every graph on which the ways back that meet no closing split are of limited length; what that is is told by `RecipExact`, `MeetsCounts` and `ResolvesIffEnclosed` |
| Tagger.Process.RecipExact | client/parser/tagger.go:102-123 | a gateway is collected if and only if some backward path first meets there a split of the type that closes no join met on the path; the null marker if and only if some backward path reaches an element nothing leads to without such a split |
| Tagger.BalanceCounts | client/parser/tagger.go:102-114 | the nesting depth after a way back is the number of other joins of the gateway's type on it less the number of splits of that type |
| Tagger.MeetsCounts | client/parser/tagger.go:102-114 | a way back first meets an unmatched split at its end if and only if as many such joins as splits lie before it, and more joins than splits before each earlier split; it escapes if and only if there are more before every split, and nothing leads to its end |
| Tagger.MatchedIsBracketed | client/parser/tagger.go:102-114 | a way back on which every split is matched is the beginning of a well-bracketed one, by a grammar, and well bracketed if joins and splits are equal in number |
| Tagger.ResolvesIffEnclosed | client/parser/tagger.go:70-123 | if the search from a join ends: it comes out with one split alone if and only if every way back from the join comes to that split with all other joins and splits of the type in between well bracketed |
| Tagger.NestedIsEnclosed | client/parser/tagger.go:102-114 | a process with one parallel pair inside another, whose outer join is enclosed by the outer split |
| Tagger.Process.RecipNotEmpty | client/parser/tagger.go:90-97 | the search never comes back empty, so the matching has an element to take |
| Tagger.Process.ReciprocalDominates | client/parser/tagger.go:70-100 | a split found alone lies on every backward path to an element nothing leads to |
| Tagger.Tagger.TagReciprocal | client/parser/tagger.go:70-100 | if the search from this join ends: a join that resolves to one split is linked with it both ways; any other gets what leads to it as its expectations |
| Tagger.Tagger.TagGateways | client/parser/tagger.go:23-52 | fails if and only if some gateway neither splits nor joins; otherwise directions follow the flows and all joins are matched |
| Tagger.Tagger.TagProcess | client/parser/tagger.go:11-52 | fails if and only if some gateway neither splits nor joins; otherwise, if the backward searches end, loops included: only gateway data changes, a gateway splits or joins as its flows say, the reciprocal of a join is a split if and only if that split encloses it by well-bracketed ways back, every join has the elements that lead to it as expectations or a dominating split of its type as reciprocal, and every split's non-empty reciprocal points back |
| Tagger.AcyclicSearchesEnd | client/parser/tagger.go:102-123 | the searches end on every process without cycles |
| Tagger.LoopSearchEnds | client/parser/tagger.go:107-111 | and on one in which an exclusive split leads back to the join before it, since the search is cut at that split |
| Tagger.JoinsSettled | client/parser/tagger.go:70-100 | each join has the elements that lead to it as expectations, or a split of its type as reciprocal that lies on every path to it from an element nothing leads to |
| Tagger.ReciprocalsPointBack | client/parser/tagger.go:97-99 | a split that points to a join is pointed to by it, also when several joins resolve to the split |
| Linter.Scanner.DirectedColouredTraverse | common/linter/directed_scan.go:42-84 | computes the depth-first scan that returns at the first flow into an entered element; ends on every graph |
| Linter.FindProcessStarts | common/linter/directed_scan.go:30-40 | finds the start and timed start events of the process, in document order |
| Linter.StartEventsAre | common/linter/directed_scan.go:30-40 | these are exactly the start events of the process, as often as they stand in it |
| Linter.StartDirectedScan | common/linter/directed_scan.go:16-28 | indexes a process, finds its start events and scans from one after another: accepts if and only if nothing entered is at fault, and otherwise reports the fault of an element entered; so it does not accept when a link throw is entered whose name no other element carries, nor when an element that is no end event and has no flow out is |
| Linter.FaultIs | common/linter/directed_scan.go:44-81 | the two faults: a link throw whose name no other element carries, and any other element without a flow out that is neither an end event nor a compensation end event |
| Linter.Scanner.CheckElement | common/linter/directed_scan.go:43-59 | going through the index finds the fault of a link throw, and the targets are the throw itself or the targets of the flows |
| Acceptance.ReportsAreReachable | common/linter/directed_scan.go:42-84 | on every graph, a run can come to whatever is entered, and an error is the fault of an element that a run can come to, by flows, caught errors, boundary timers or links |
| Acceptance.AcceptsIffNoFaultReachable | common/linter/linter.go:42-51 | when no flow listed before another leads to something that can have been entered by then, and no link, caught error or boundary timer leads where flows do not: a process is accepted if and only if no element that a run can come to is at fault, so that every dead end a run can come to is an end event |
| Acceptance.LoopBackHidesDeadEnd | common/linter/directed_scan.go:67-74 | a process with a dead end that runs come to and that is accepted, because a loop back is listed before the way on |
| Acceptance.LinkHidesDeadEnd | common/linter/directed_scan.go:44-54 | one that is accepted because the dead end lies behind a link |
| Acceptance.ErrorHidesDeadEnd | common/linter/directed_scan.go:55-59 | one that is accepted because the dead end lies behind a caught error |
| Acceptance.TimerHidesDeadEnd | internal/server/workflow/timers.go:138-142 | one that is accepted because the dead end lies behind a boundary timer |
| Acceptance.SharedTargetHidesDeadEnd | common/linter/directed_scan.go:63-69 | one that is accepted because the way to the dead end is listed after a flow to where an earlier branch has led |
| Acceptance.OptionalTaskIsEntered | common/linter/directed_scan.go:61-75 | a task that may be left out meets the condition of `AcceptsIffNoFaultReachable`, and all of the process is entered |
| Linter.AcceptsIffEnteredFaultless | common/linter/directed_scan.go:42-84 | on every graph a process is accepted if and only if no element that the scan enters is at fault, and what it enters depends on the flows alone |
| ScanWays.KeptIsEntered | common/linter/directed_scan.go:61-75 | on every graph: what flows lead to, none of them listed after one to something that can have been entered by then, is entered |
| ScanWays.LostBehind | common/linter/directed_scan.go:62-70 | on every graph: what can be come to only by flows of an element listed after one into something entered by then is never entered |
| ScanWays.EnteredIffKept | common/linter/directed_scan.go:42-84 | where of every early flow it can be told that its target is entered by then, or that it is not: exactly the elements that flows lead to without one listed after a flow of the first kind are entered |
| ScanWays.PrivateIsNotYet | common/linter/directed_scan.go:63-63 | the only flow into an element that is not a start event leads to something not entered yet |
| Acceptance.RunsStayIffSideExitsCovered | common/linter/directed_scan.go:44-59 | runs come to no more than flows lead to if and only if no link, caught error or boundary timer of a reachable element leads elsewhere |
| Acceptance.EntersEveryRunIff | common/linter/directed_scan.go:42-84 | under the hypothesis of `EnteredIffKept`: everything a run can come to is entered if and only if such flows lead to it |
| Acceptance.AcceptanceRightIffDeadEndsEntered | common/linter/linter.go:42-51 | for a process without faults whose elements other than links are given any types: acceptance means that no element a run can come to is at fault, if and only if the scan enters every dead end a run can come to |
| Acceptance.AcceptanceRightIffDeadEndsKept | common/linter/linter.go:42-51 | under the hypothesis of `EnteredIffKept`: if and only if such flows lead to every dead end a run can come to |
| UpdateKV.UpdatesAreSerialised | common/natsutil.go:40-72 | in every run from an existing key that no updates make look missing, the value is the last of a chain that begins with the initial one and in which each value is what the update function of the next client makes of the one before; the clients are exactly those that succeeded, each once, in revision order, and no client retries more often than others have written |
| UpdateKV.RetryIsPaidFor | common/natsutil.go:52-66 | a client retries only when another one has written since it read |
| UpdateKV.NeverLostIffNeverMissing | common/natsutil.go:134-138 | with update functions that never fail: no written update is ever overwritten if and only if fewer than two clients are at work, or the key exists beforehand and no updates of fewer than all clients, in any order, leave a value that is stored as no bytes |
| UpdateKV.LosingRun | common/natsutil.go:134-138 | the run in which two clients find the key missing and the second overwrites the first one's update |
| UpdateKV.EmptiedKeyLoses | common/natsutil.go:134-138 | the run in which updates leave such a value, another client takes the key for missing, and all those updates are lost |
| LargeObject.MutualExclusion | common/natsutil.go:378-447 | in every run at most one client is past the lock of a key |
| LargeObject.LoadsReturnLastSave | common/natsutil.go:450-545 | in every run what a load has read is, until the client lets go of the lock, the data of the last completed save, or nothing if a delete has removed the object since |
| LargeObject.LoadedWhileHeld | common/natsutil.go:450-464 | in every run a load that is done returns the data that the last completed save had left, or nothing if a delete had removed the object, at some time when the client held the lock of its key |
| LargeObject.SavedWhenFinished | common/natsutil.go:467-480 | in every run a save that reports success has been completed |
| LargeObject.NoEventWithoutSuccess | common/natsutil.go:467-545 | in every run there are no more completed saves and deletes than clients that report success: an error leaves no trace |
| LargeObject.Unhindered | common/natsutil.go:378-545 | from every state that a run comes to, a client that finds the lock free can go on to the end; its load returns what was saved last, after its save or delete the object is there or gone, and the lock is free again |
| LargeObject.LoadsWhatWasSaved | common/natsutil.go:459-463 | a read that a write might overlap cannot happen under the lock |
| LargeObject.SilentDelete | common/natsutil.go:541-544 | the run in which a delete reports success and the object is still there |
| Streaming.StreamIsFaithful | common/natsutil.go:719-869 | in every run the items consumed, at the client, in the inbox and at the server are those emitted, in order; a client that returns has consumed all of them and returns the handler's outcome |
| Streaming.RestMeansReturned | common/natsutil.go:772-793 | there is no deadlock: a run comes to rest only by the client's return |
| Streaming.RunsAreShort | common/natsutil.go:719-869 | a stream of n items is over after at most 5n + 9 steps in every interleaving |
| Streaming.AlwaysFaithfulIffProper | common/natsutil.go:746-862 | all of this holds if and only if the handler's error, when there is one, neither is nor wraps the error for a cancelled stream and has a text other than the end marker |
| Retry.DelaysGrow | client/backoff.go:153-164 | delays over the integers never shrink with the delivery count and never exceed the larger of ceiling and interval |
| Retry.AlwaysRightIffSound | client/backoff.go:143-169 | for settings that are 64-bit numbers of nanoseconds: the 64-bit delay equals the one over the integers for every age and every result of an out-of-range conversion, if and only if the power of two is below 2^63, the sum is not above the ceiling or wraps to no less than it, and the delay times a million is below 2^63 |
| Retry.SoundWithinBounds | client/backoff.go:143-169 | that is so for ceilings of at most 9,223,372 ms and sums below 2^63 |
| Retry.OffsetsGrow | client/backoff.go:153-168 | where it is so, the 64-bit delay never shrinks with the delivery count and never exceeds the cap |
| Retry.DoublingOverflows | client/backoff.go:157-163 | with an interval of one second that doubles up to ten, the 36th delivery gets no delay |
| Retry.LongDelayVanishes | client/backoff.go:165-167 | a delay of ten thousand seconds becomes zero |
| Retry.Client.Backoff | client/backoff.go:25-133 | retries with the delay, or attempts the action at most once and then, also when the action fails or returns early, terminates the message and after that notifies; failing the workflow cancels the instance, an error is handed to the server, pausing signals a fatal error, and a value is set by completing the task if it can be parsed; one settlement unless the state or the workflow cannot be read; says when it fails |
| Retry.Client.RunDeferred | client/backoff.go:56-64 | deferred calls are made last first |
| Retry.Client.Process | common/natsutil.go:280-360 | one round of the message loop, the backoff included: exactly one settlement unless the embargo is no number or the retry cannot read the state or the workflow, at most one call to the server, and a notification only right after the message is terminated; a round that does not back off makes no call but the signal of a fatal error with a state, and ends with the acknowledgement or its refusal |
| Retry.JobIsDeliveredNumberTimes | client/backoff.go:54-132 | a job whose handler always fails is delivered exactly max(1, number) times, sent back each time but the last, then the action is attempted, the message terminated, the notification sent, whether or not the calls succeed |
| Retry.JobGoesOn | client/backoff.go:54-132 | in every run a job that is not over is delivered again, at any age and whether or not calls succeed |
| Retry.JobWaitsAtMost | client/backoff.go:119-132 | where the 64-bit delays come out right: over a whole run the first delay is zero and all together are at most number minus two times the cap |
| Base62.AddByte | common/base62/base62.go:58-68 | the inner loop multiplies the number in the buffer by 256 and adds the byte, with a carry of at most 255 that ends at zero, and keeps count of the significant digits |
| Base62.Encoding.Encode | common/base62/base62.go:45-76 | the output spells the base-62 numeral, without leading zeros, of the number the bytes denote |
| Base62.DecodesEveryDigitIffDistinct | common/base62/base62.go:23-35 | the decode map gives back every digit if and only if the alphabet has no character twice |
| Base62.StandardAlphabetDistinct | common/base62/base62.go:18-18 | the standard alphabet has none |
| Base62.EncodedAlikeIffSameNumber | common/base62/base62.go:69-75 | two byte strings are encoded alike if and only if they denote the same number |
| Base62.EncodingInjective | common/task/task.go:58-58 | different byte strings of one length, such as digests, have different encodings |
| Base62.LeadingZeroBytesAreLost | common/base62/base62.go:72-74 | leading zero bytes do not show in the encoding |
| Indexer.Index.Watch | common/indexer/index.go:84-133 | the index after the log of the store is what the operations make of it one by one, a removal by way of the history as it is when the removal is handled; fails if and only if such a history holds less than two revisions |
| Indexer.AlwaysAccurateIffSteady | common/indexer/index.go:84-133 | when no index key belongs to two entries: the index maps exactly the index keys of live entries to their store keys, after every event, if and only if no event drops an index key of the entry it replaces or removes |
| Indexer.KeptUpAccurateIffWritesSteady | common/indexer/index.go:90-127 | with a history of at least two revisions and a watcher that handles a removal before the key is touched again: the watcher never fails, and the index is accurate after every operation if and only if no write drops an index key of the entry it replaces |
| Indexer.FetchFindsExactly | common/indexer/index.go:84-165 | then a fetch yields, for every index key with the prefix in order and once each, the live entry that has it with its live value; and every index key with the prefix of every live entry is among these |
| Indexer.DroppedKeyIsStale | common/indexer/index.go:111-127 | an index function without collisions and a write that leaves a stale index key |
| Indexer.LateWatcherMisses | common/indexer/index.go:92-96 | a removal handled after the key was written again takes the removal itself for the revision removed, and the index does not stay accurate |
| Indexer.PutKeepsAccurateIff | common/indexer/index.go:111-127 | when no index key belongs to two entries: exact condition for one put |
| Indexer.DeleteKeepsAccurateIff | common/indexer/index.go:90-110 | when no index key belongs to two entries: exact condition for one delete, with the entry taken from the history |
| Indexer.Index.Fetch | common/indexer/index.go:139-165 | seeking to the prefix and going on while it lasts finds the entries of all index keys that have it |
| Indexer.MatchingIff | common/indexer/index.go:152-162 | the matches are exactly the index keys with the prefix, each once, in order |
| Indexer.LexLeIff | common/indexer/index.go:152-152 | the order of the index keys is the lexicographic one |
| Indexer.FetchedAreLive | common/indexer/index.go:153-159 | with an accurate index every match yields the live entry that has the index key |
| Duration.ParseISO8601 | client/parser/duration.go:27-68 | accepts exactly the grammar, rejects numbers that are not machine integers, and otherwise gives the numbers written |
| Duration.MatchesIffInGrammar | client/parser/duration.go:24-24 | the pattern matches exactly the texts written according to the grammar |
| Duration.LettersMean | client/parser/duration.go:43-61 | a number alone with one of the seven letters is parsed to that many of what the letter stands for, and nothing else |
| Duration.ReadsBack | client/parser/duration.go:27-68 | however a duration is written, with zeros left out or in front, it is read back |
| Duration.RoundTrip | client/parser/duration.go:27-68 | the rendering of a duration with non-negative machine integers is parsed to it |

## Left out

- Acceptance.AcceptsIffNoFaultReachable: the condition on flows is sufficient, not necessary; see `AcceptanceRightIffDeadEndsKept` for one that is both.
- Linter.StartDirectedScan: for processes in which no other element has the id of a start event, as in every well-formed document.
- Transforms.Process.PopulateConvergentGatewayOutputTransforms: for nested pairs only; that the result depends on the order otherwise is `CrossingPairsDependOnOrder`. Which of several values wins is stated for regions without another paired join; with one it can depend on the order in which the joins are handled (`NestedValuesDependOnOrder`).
- Transforms.WalkCollectsExactlyBetween: speaks of the keys of the merged transforms; the values are in `LastSetterWins`.
- Streaming.StreamIsFaithful: for clients that do not cancel, without failures to publish, for handlers that emit nothing after reporting an error, for items that carry no error header of their own, and with header texts that arrive as they were set.
- LargeObject.MutualExclusion: lock entries do not expire; the bucket's thirty-second limit and `ExtendLock` are not modelled.
- UpdateKV.UpdatesAreSerialised: the update functions are functions of the stored value; decoding into a message that is reused between attempts is not modelled.
- Retry.Client.Process: settlements and calls are counted as they are made; a settlement that fails on the network is logged by the code and not retried.
- Retry.JobIsDeliveredNumberTimes: for deliveries in which the state and the workflow can be read.
- Base62.Encoding.Encode: the buffer size is a parameter with 62^cs >= 256^n in place of the floating-point computation.
- Indexer.Index.Watch: for a watcher that is told of every operation from an empty store on; purges, which the code only logs, do not occur.
- Validation.Checker.FindElementsReferencingUndefinedVars: the order of map iteration is fixed for a whole check, where Go may vary it from one loop to the next.
- `linkEventRules` and the other name rules of the linter and of `validModel`: each is a single pass over names without state.
- `PublishOnce`, `UpdateLargeObj` and `ExtendLock`: they check or read outside the lock they later take, and no atomicity is claimed for them.
- XML selection, the expression engine, NATS, JetStream, Badger and protobuf internals: they appear by contract only.
- The client API wrappers, registration, heartbeat, CLI, logging, telemetry and the Python client.
- `Shift`, `IsZero` and `timeDuration` of durations, `SeekElement`, `ElementTable`, tracking ids, headers and namespaces: straight-line code whose result is its text.
