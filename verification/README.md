# Verified model of the Pysa client tooling

This project models the Python client and scripts around Pysa and proves what they promise:
the call-graph searches, the life of the daemon's background task, the editor's view of type
errors, the taint model explorer, the type-string parser, layered configuration, text ranges
and annotation counting. `dafny verify dfyconfig.toml` checks all of it.

| file | what it models |
|---|---|
| `Outcomes.dfy` | optional values and results that may raise |
| `Indices.dfy` | selecting from a list, by increasing positions |
| `Routes.dfy` | routes in a graph and shortest routes, independent of any search |
| `BackwardSearch.dfy` | `DependencyGraph`: from a callee back to the nearest entrypoint |
| `ForwardSearch.dfy` | `CallGraph`: from all entrypoints forward, one trace per callable |
| `CallGraphLaws.dfy` | the two searches against each other, repeated queries, union of graphs |
| `DaemonProtocol.dfy` | `TaskManager`, the phases of the background task, the dispatcher, as steps between `await`s |
| `LanguageServer.dfy` | the same steps as code on shared fields, and a driver for any schedule |
| `EditorView.dfy` | grouping of type errors, subscription handlers, what the editor shows |
| `TaintModels.dfy` | taint models, the frames they enumerate, filters and maps |
| `FrameEnumeration.dfy` | which frames those are, read off the model data |
| `Worklist.dfy`, `ReachableLeaves.dfy` | `print_reachable_leaves`: the worklist in general, then on taint frames |
| `OutputIndex.dfy` | the byte-offset index of analysis output files |
| `TypeStrings.dfy` | the type-string parser, type trees, the precision predicates on both |
| `ConfigurationMerge.dfy` | policy-driven merging of configuration layers |
| `ConfigurationRoots.dfy` | upward searches for configuration files and the nesting check |
| `TextRanges.dfy` | text between two line/column positions |
| `AnnotationCounts.dfy` | the annotation visitor, its counts per module and their sums |

Conventions. Iteration over a Python set or dictionary takes the elements in any order. An
operation that raises returns `None` or `Raised`. In `EditorView` a plan
says which `await`s raise, and whether a publish that raises has taken effect; what is stated
holds for all plans. In `DaemonProtocol` a run is any sequence of enabled atomic
steps; waiting for the `asyncio` lock is first come, first served, with no wait when it is free.

Results worth knowing:

- The first response of a subscription replaces the diagnostics without clearing the editor
  (`client/commands/persistent.py:170-171`). Once it is shown, the view is faithful exactly when
  every path that showed something before has an error in it (`ShowFirstResponse`). For every
  session and every interruption `Subscribe` says which paths are right afterwards (`IsRight`):
  if a first response was shown, those that were blank or that some message mentions; otherwise,
  with type errors off or the connection lost before the first response, those that were faithful,
  that some message mentions, or whose diagnostics an event or the clean-up cleared. All other
  paths keep what they show and are unfaithful; where a message was cut off halfway, the messages
  handled give one bound and those begun the other. So faithfulness is lost after an interrupted
  clean-up (`InterruptedCleanUpLeavesStaleError`), and a stale path stays in the editor through all
  later clean-ups until some message mentions it (`Live`).
- The nesting check of local configurations runs forever exactly when from every directory on its
  way, up to the filesystem root, a configuration that covers the project is seen
  (`LoopsExactlyWhen`, `RootConfigurationLoops`).
- A method whose only annotation is on `self` counts as partially annotated although nothing
  else is counted as annotated (`AnnotatedSelfIsNotCounted`). No function counts as annotated
  exactly when no return and no parameter does and no method annotates its implicit parameter
  (`NothingAnnotatedWhenCountsAreZero`).
- `_parametric_type` raises exactly when both brackets occur and the last `]` is before the first
  `[` (`RaisesExactlyWhen`, `ClosedBeforeOpened`); on printed type trees it never does.
- With layers of the annotated types `create_configuration` raises exactly when two layers set
  `source_directories` or two set `targets` (`ConfigurationRaisesExactlyWhen`).

## Model

| member | source | states |
|---|---|---|
| Routes.ShortestIsSimple | scripts/callgraph_utilities.py:240-263 | a shortest route visits no node twice, in any graph |
| BackwardSearch.DependencyGraph.constructor | scripts/callgraph_utilities.py:217-227 | the dependency graph is the call graph turned around without self-references, and its keys are exactly the callees that somebody else calls |
| BackwardSearch.DependencyGraph.AddCaller | scripts/callgraph_utilities.py:222-227 | adds exactly the reversed edges of one caller, no self-reference, and leaves no empty entry |
| BackwardSearch.DependencyGraph.Lookup | scripts/callgraph_utilities.py:219-251 | a lookup returns the callers and may insert the key with no callers, so the edges stay the same |
| BackwardSearch.DependencyGraph.FindShortestTraceToEntrypoint | scripts/callgraph_utilities.py:240-263 | terminates; the trace is empty iff no entrypoint reaches the start, otherwise it is a route of minimum length from the start to an entrypoint along reversed calls and repeats no node; the edges are unchanged and no key is lost |
| BackwardSearch.VisitCallers | scripts/callgraph_utilities.py:251-261 | the inner loop, in any order of callers, keeps the search invariant or returns a shortest trace on discovery |
| BackwardSearch.WalkStaysDiscovered | scripts/callgraph_utilities.py:244-261 | any walk from the start shorter than the current level stays among discovered nodes, none of them deeper than the walk is long |
| BackwardSearch.FoundShortest | scripts/callgraph_utilities.py:256-259 | returning when an entrypoint is discovered, not when it is dequeued, still gives a shortest simple trace, although the start is never marked visited |
| BackwardSearch.NoneReachable | scripts/callgraph_utilities.py:247-263 | an exhausted queue means that no route to an entrypoint exists |
| BackwardSearch.DependencyGraph.FindTracesForCallees | scripts/callgraph_utilities.py:229-238 | every asked name gets an entry; a name in the dictionary at the outset gets a correct trace whatever else is asked before it in the same call; `None` only for names not in it |
| ForwardSearch.GetTransitiveCalleesAndTraces | scripts/callgraph_utilities.py:278-295 | terminates with duplicates in the queue; the keys are exactly the callables reachable from the entrypoints and each trace is a shortest call path from one of them |
| ForwardSearch.StoreTrace | scripts/callgraph_utilities.py:285-293 | storing a first trace and queueing the callees keeps every promise of a trace of bounded length |
| ForwardSearch.DropDuplicate | scripts/callgraph_utilities.py:286-287 | skipping a callable that already has a trace breaks no promise |
| ForwardSearch.PromisesKept | scripts/callgraph_utilities.py:284-295 | once the queue is empty the stored traces are shortest and complete |
| CallGraphLaws.Duality | scripts/callgraph_utilities.py:217-295 | a callable is a key of the forward result iff the backward search from it is nonempty, and then both traces have the same length |
| CallGraphLaws.QueryHistory | scripts/callgraph_utilities.py:219-251 | over any sequence of queries the dictionary gains only empty entries, and emptiness and length of an answer do not depend on earlier queries |
| CallGraphLaws.AskInTurn | scripts/callgraph_utilities.py:217-263 | any sequence of queries to one object: every trace is a shortest simple one for the graph as built, a name is refused only if it was no key then, traces for one name have one length in all queries, and only empty entries are added |
| CallGraphLaws.UnionCallGraphFormat.UnionCallGraph | scripts/callgraph_utilities.py:173-178 | both branches leave the pointwise union of keys and edges |
| CallGraphLaws.UnionAll | scripts/callgraph_utilities.py:298-308 | folding a list of graphs gives exactly the keys and edges of its members |
| CallGraphLaws.UnionIgnoresOrder | scripts/callgraph_utilities.py:173-178 | lists with the same nonempty graphs, in any order and multiplicity, have the same union |
| CallGraphLaws.UnionIsMonotone | scripts/callgraph_utilities.py:278-308 | with more graphs and the same entrypoints no reachable callable is lost and no shortest trace gets longer |
| DaemonProtocol.SingleBackgroundTask | client/background_tasks.py:55-97 | in every run of any callers at most one task is alive, `_ongoing` is `None` only when none is, a finishing task clears only its own entry, and no task is alive when `ensure_task_stop` releases the lock, also if it was cancelled before its first step |
| DaemonProtocol.StepKeepsSingleTask | client/background_tasks.py:55-97 | every step of every interleaving keeps the invariant behind that |
| DaemonProtocol.NextStepOfTask | client/commands/launch_and_subscribe_handler.py:239-321 | in every run, whatever the other tasks and callers do, the steps open to a task are told by its own steps so far: after a start that succeeded it may connect, after a lost probe it may start, after a failure or interruption it can only end |
| DaemonProtocol.CourseOfTask | client/commands/launch_and_subscribe_handler.py:239-321 | in every run the phase of a task is the one that its own last step leads to |
| DaemonProtocol.BootsOnce | client/commands/pyre_language_server.py:660-667 | start-up happens once and requests are served only after it |
| DaemonProtocol.RestartCap | client/commands/pyre_language_server.py:528-556 | in every run up to the final stop the counter equals the non-Buck start failures since the last connection, read off the history, and never exceeds five |
| DaemonProtocol.StepKeepsCapped | client/commands/launch_and_subscribe_handler.py:263-321 | before the final stop the lock is never held across an `await`, a task that may still count a failure was launched below the threshold, and at five neither the counter nor the number of tasks changes |
| DaemonProtocol.NoLaunchAfterCap | client/commands/pyre_language_server.py:531-539 | once the counter is five it stays five and no task is ever launched again |
| DaemonProtocol.LaunchCondition | client/commands/pyre_language_server.py:528-556 | a task is launched iff the start-up code or a request finds none alive and the counter below five; after a request a task is alive or the cap was reached |
| LanguageServer.Server.EnsureTaskRunning | client/background_tasks.py:68-78 | with the lock free a task is alive afterwards and a new one was launched iff all had ended; at most one task is alive |
| LanguageServer.Server.EnsureTaskStop | client/background_tasks.py:80-97 | with the lock free, either all tasks had ended or the lock is now held for the only one alive, which cannot begin any more if it had not |
| LanguageServer.Server.ServeWaiter | client/background_tasks.py:68-97 | the waiter that came first is served; it finds or launches a task if it wants one running, and otherwise all tasks have ended or the lock is held for the last, which cannot begin any more |
| LanguageServer.Server.FinishStop | client/background_tasks.py:96-97 | no task is alive when `ensure_task_stop` releases the lock |
| LanguageServer.Server.FinishTask | client/background_tasks.py:62-63 | the entry that an ending task clears, without looking, was its own, and no task is alive afterwards |
| LanguageServer.Server.Start | client/commands/pyre_language_server.py:666-667 | with the lock free a task is alive after start-up |
| LanguageServer.Server.RestartIfNeeded | client/commands/pyre_language_server.py:528-556 | with the lock free a request launches a task iff all have ended and the counter is below five; afterwards a task is alive or the cap is reached |
| LanguageServer.Server.MarkConnected | client/commands/launch_and_subscribe_handler.py:221-237 | a connection clears the counter, and its task is the only one alive |
| LanguageServer.Server.CountStartFailure | client/commands/launch_and_subscribe_handler.py:316-321 | a start failure not caused by Buck counts one, and no task alive can count another |
| LanguageServer.Server.Proceed | client/commands/launch_and_subscribe_handler.py:239-321 | every other phase change launches no task and leaves counter, lock and line alone; a waiter that gives up leaves the line, and only that one |
| LanguageServer.Execute | client/commands/pyre_language_server.py:528-667 | the code driven by any schedule performs a run of the protocol, in full if the schedule is one; so at most one task is alive and, before the final stop, the counter equals the failures since the last connection and is at most five |
| EditorView.TypeErrorsToDiagnostics | client/commands/type_error_handler.py:44-53 | the keys are exactly the paths with errors, and the list of a path has one diagnostic per error, in the order of the errors, with the fields of that error |
| EditorView.ErrorsKeepTheirPlaces | client/commands/type_error_handler.py:44-53 | the list of a path is as long as the number of its errors, and each error stands after as many diagnostics as there are earlier errors on the path, with its own fields |
| EditorView.SubscriptionHandler.ClearTypeErrorsForClient | client/commands/type_error_handler.py:113-115 | exactly the cleared paths change, to empty, and only paths with diagnostics are cleared; completes iff no publish raises, and then all of them are |
| EditorView.SubscriptionHandler.ShowTypeErrorsToClient | client/commands/type_error_handler.py:117-119 | at every `await` each path shows what it did or its diagnostics; completes iff no publish raises, and then all diagnostics are shown |
| EditorView.SubscriptionHandler.ShowFirstResponse | client/commands/persistent.py:155-171 | from any view, once the response is shown the view is faithful iff every path that showed something has an error in it; other paths keep what they showed |
| EditorView.SubscriptionHandler.HandleTypeErrorEvent | client/commands/persistent.py:106-120 | a faithful path stays so at every `await`; on completion a path is faithful iff it showed nothing, had diagnostics or has an error in the event, and then shows the in-order grouping of the event |
| EditorView.SubscriptionHandler.HandleStatusUpdateEvent | client/commands/persistent.py:122-153 | a faithful path stays so; with type errors enabled exactly the paths with diagnostics are blanked, otherwise nothing changes |
| EditorView.SubscriptionHandler.HandleEvent | client/commands/launch_and_subscribe_handler.py:143-153 | a handled event leaves on every path: new errors where there were or are diagnostics, nothing where a status update cleared, and otherwise what was shown |
| EditorView.SubscriptionHandler.RunSubscriptionLoop | client/commands/launch_and_subscribe_handler.py:155-168 | with type errors on or off, wherever the loop ends, the paths that the handled messages settle are faithful and those that no message begun can have settled keep what they showed; a faithful view stays so; without interruption all messages are handled up to the first error event, and never one after it |
| EditorView.SubscriptionHandler.ReceiveEvents | client/commands/persistent.py:155-208 | the same from any editor and for every session, through the first response and the loop; nothing changes before the first response is read; from a blank editor the view is faithful at any interruption |
| EditorView.SubscriptionHandler.CleanUpClient | client/commands/launch_and_subscribe_handler.py:170-192 | a completed clean-up blanks exactly the paths with diagnostics, empties the diagnostics and leaves the view faithful iff only such paths showed something; an interrupted one keeps the diagnostics and clears some of them; faithful paths stay so |
| EditorView.SubscriptionHandler.Subscribe | client/commands/launch_and_subscribe_handler.py:170-192 | from any editor, for every session (type errors on or off, with or without messages) and every interruption, each right path is faithful afterwards and each other path is unfaithful and keeps what it showed, right meaning settled by the messages or cleared by the clean-up; an equivalence if no message was cut off halfway, else with the messages handled and those begun as the two bounds; before it is cleared a settled path shows the latest word of the messages; from a blank editor always faithful, and blank after a completed clean-up |
| EditorView.Live | client/commands/launch_and_subscribe_handler.py:239-284 | over any reconnections from any state every episode satisfies that; from a blank editor the view is faithful unless a clean-up before the last was interrupted; a path outside the diagnostics that no message mentions is never touched |
| EditorView.InterruptedCleanUpLeavesStaleError | client/commands/persistent.py:164-171 | for every type error a run of two subscriptions that leaves it in the editor although the second reported none and cleaned up completely |
| EditorView.SettledIsExact | client/commands/launch_and_subscribe_handler.py:170-192 | after a clean-up, completed or interrupted, the paths settled by the handled messages or cleared are faithful, and those that no message begun settled and no clean-up cleared are unfaithful and unchanged |
| EditorView.ExactWhenBetween | client/commands/launch_and_subscribe_handler.py:170-192 | if no message was cut off halfway, the view is faithful iff every path is right |
| FrameEnumeration.FramesAre | scripts/explore_pysa_models.py:784-907 | enumerating raises iff some local taint has an unexpected fragment or an enumerated subtrace an unknown kind; otherwise a frame is enumerated iff a condition, local taint and flow of the model, or a subtrace of them, describes it field by field |
| FrameEnumeration.FramesAreInOrder | scripts/explore_pysa_models.py:815-883 | the frames of a flow stand between those of the flows before and after it, one per leaf or resolved callee in their order |
| FrameEnumeration.FramesOfTwo | scripts/explore_pysa_models.py:886-907 | cutting the list of conditions anywhere cuts the list of frames |
| FrameEnumeration.FramesOfTwoRuns | scripts/explore_pysa_models.py:815-883 | the same for the local taints of a condition |
| TaintModels.FilterTaintConditions | scripts/explore_pysa_models.py:224-248 | the loops compute the filter: flows kept in order, local taints and conditions without flows dropped |
| TaintModels.FlowsKept | scripts/explore_pysa_models.py:234-238 | exactly the flows that satisfy the predicate are kept, once each and in order |
| TaintModels.TaintsKept | scripts/explore_pysa_models.py:233-242 | exactly the local taints with a kept flow are kept, in order, with every other part unchanged |
| TaintModels.ConditionsKept | scripts/explore_pysa_models.py:230-248 | exactly the conditions with a kept local taint are kept, in order and under their ports |
| TaintModels.FilterCommutes | scripts/explore_pysa_models.py:251-274 | if a model enumerates without raising, enumerating it after a kind or port filter is filtering its frames in order |
| TaintModels.FilterTwice | scripts/explore_pysa_models.py:224-260 | two filters in a row equal one filter by the conjunction |
| TaintModels.MapTaintConditions | scripts/explore_pysa_models.py:277-291 | same conditions, ports and numbers of local taints; every local taint is what the local-taint map gives, with the flow map applied to each of its flows |
| TaintModels.MapKeepsKeys | scripts/explore_pysa_models.py:294-309 | a map that leaves alone what keys and distances are made of leaves the sequence of keys and distances, and raising, unchanged |
| TaintModels.TitoPositionsAreRemoved | scripts/explore_pysa_models.py:329-334 | every local taint loses its tito positions and nothing else |
| TaintModels.ClassIntervalsAreRemoved | scripts/explore_pysa_models.py:346-355 | every local taint loses both intervals and the self-call mark and nothing else |
| TaintModels.FeaturesAreRemoved | scripts/explore_pysa_models.py:369-378 | every local taint loses its local features and every flow its features, and nothing else |
| TaintModels.StrippingKeepsKeys | scripts/explore_pysa_models.py:329-378 | stripping tito positions, class intervals or features leaves the sequence of frame keys and distances unchanged |
| Worklist.Search.Run | scripts/explore_pysa_models.py:1222-1261 | terminates; whether or not a lookup raises, prints only reachable leaves and no key twice; if equal keys agree on being a leaf it raises iff a reachable non-leaf lookup does, and otherwise prints every reachable leaf key |
| Worklist.Search.ProcessTop | scripts/explore_pysa_models.py:1224-1261 | processing a frame keeps the invariant: processed keys are printed or have all successors processed or waiting |
| Worklist.Search.AllProcessed | scripts/explore_pysa_models.py:1223-1261 | with an empty stack every key on every path was processed |
| ReachableLeaves.SearchIsWellPosed | scripts/explore_pysa_models.py:760-781 | the successors of a frame depend on its key alone and only finitely many keys exist |
| ReachableLeaves.NextHopSplits | scripts/explore_pysa_models.py:1102-1107 | the next hop of a kind is what follows its first `@`, or the kind itself |
| ReachableLeaves.NextIsHop | scripts/explore_pysa_models.py:1236-1261 | the lookup for a frame succeeds iff its callee has a model that can be enumerated, and gives exactly the hops from it |
| ReachableLeaves.InitialIsBeginning | scripts/explore_pysa_models.py:1190-1219 | the stack begins with exactly the frames of the callable, subtraces included if asked for, of the asked condition and taint kind |
| ReachableLeaves.SearchFollowsTrails | scripts/explore_pysa_models.py:1190-1261 | what the search reaches is exactly what trails reach |
| ReachableLeaves.PrintReachableLeaves | scripts/explore_pysa_models.py:1190-1261 | stated over trails in the model data: hops from a frame to a frame of its callee at the called port and of the next-hop kind; raises at once, with nothing printed, iff the callable has no model or a malformed one; prints only leaves at the end of trails and no frame twice, up to distance and features; if such frames agree on distance 0 it raises iff some other frame on a trail cannot be followed, and else prints all leaves |
| OutputIndex.LinesTile | scripts/explore_pysa_models.py:72-86 | lines tile the file: each ends where the next begins and is cut out by its offset and length; a newline stands at the end of every line but perhaps the last, and nowhere else |
| OutputIndex.IterWithOffset | scripts/explore_pysa_models.py:72-76 | every line comes with the number of bytes before it |
| OutputIndex.ReadReturnsLine | scripts/explore_pysa_models.py:217-221 | reading at a recorded position returns exactly the indexed line |
| OutputIndex.AnalysisOutputIndex.IndexLine | scripts/explore_pysa_models.py:87-116 | one line updates the dictionary of its kind; lines that are not UTF-8 or have no kind are skipped and change nothing; it raises iff the line is malformed, of an unexpected kind or without a callable, or a second model for one callable |
| OutputIndex.AnalysisOutputIndex.IndexJsonOutputFile | scripts/explore_pysa_models.py:79-120 | succeeds iff no line raises, and then holds the index of all lines on top of what was there |
| OutputIndex.AnalysisOutputIndex.Update | scripts/explore_pysa_models.py:55-59 | every callable of either index is there, with the entry of the other index wherever that has one; if all entries of both read back, so do all of the result |
| OutputIndex.IndexingIsSound | scripts/explore_pysa_models.py:79-120 | indexing a file on top of a sound index gives an index whose every entry reads back to a line of its kind and callable |
| OutputIndex.MergeIsSound | scripts/explore_pysa_models.py:55-59 | merging sound indexes gives a sound index |
| OutputIndex.MergeAllIsSound | scripts/explore_pysa_models.py:146-151 | per-file indexes merged in any order give a sound index |
| OutputIndex.MergeAllIgnoresOrder | scripts/explore_pysa_models.py:146-151 | if no two indexes disagree about a callable, the order in which the workers finish does not matter |
| OutputIndex.IndexingIsComplete | scripts/explore_pysa_models.py:86-116 | from empty dictionaries indexing succeeds iff every line is skipped (not UTF-8, no kind) or of one of the four kinds with a callable, and no two lines are models of one callable; then every model, every issue in order and the last call graph of each callable are found |
| OutputIndex.PositionsAre | scripts/explore_pysa_models.py:97-116 | the recorded positions are exactly those of the lines with this kind and callable, in order |
| TypeStrings.SplitListLoop | scripts/shape_type_coverage.py:44-64 | the loop equals the recursive scanner, and raises iff the string is not bracketed |
| TypeStrings.SplitsOutsideBrackets | scripts/shape_type_coverage.py:44-64 | every bracketed string is cut at exactly its commas outside inner brackets; an empty last piece is dropped and each piece is stripped |
| TypeStrings.StripsSpaces | scripts/shape_type_coverage.py:64 | stripping cuts off all spaces at both ends and nothing else |
| TypeStrings.ScanTree | scripts/shape_type_coverage.py:51-61 | the scanner passes over a printed type at any depth without splitting and comes back to that depth |
| TypeStrings.SplitPrinted | scripts/shape_type_coverage.py:44-64 | splitting a printed argument list gives back the printed arguments |
| TypeStrings.RoundTrip | scripts/shape_type_coverage.py:67-75 | parsing a printed generic type recovers its name and printed arguments |
| TypeStrings.RaisesExactlyWhen | scripts/shape_type_coverage.py:44-75 | for every string, parsing raises iff both brackets occur and the last `]` is before the first `[` |
| TypeStrings.ClosedBeforeOpened | scripts/shape_type_coverage.py:47-75 | a string on which parsing raises |
| TypeStrings.ParametersAreShorter | scripts/shape_type_coverage.py:67-75 | for every string at all the parameters are shorter than it, which makes the predicates terminate |
| TypeStrings.TupleAgrees | scripts/shape_type_coverage.py:127-143 | on a printed tree the tuple predicate does not raise and equals the predicate read off the tree |
| TypeStrings.UnpackedAgrees | scripts/shape_type_coverage.py:102-114 | the same for unpacked types |
| TypeStrings.DimensionAgrees | scripts/shape_type_coverage.py:82-152 | the same for tensor dimensions, whatever characters besides `]` count as numeric |
| TypeStrings.TensorAgrees | scripts/shape_type_coverage.py:155-178 | a printed tensor annotation is filed as precise iff all its arguments from the second on are precise dimensions of the tree |
| TypeStrings.OthersAreSkipped | scripts/shape_type_coverage.py:171-174 | every other printed type is not filed |
| TypeStrings.TupleRules | scripts/shape_type_coverage.py:127-143 | a printed generic is a precise tuple iff it is a `Tuple` of precise dimensions or a `Broadcast` of two precise tuples |
| TypeStrings.DimensionRules | scripts/shape_type_coverage.py:82-152 | a printed generic is a precise dimension iff it is an integer literal, an integer variable, an integer expression or an unpacked precise tuple |
| TypeStrings.LeafRules | scripts/shape_type_coverage.py:102-152 | of plain names only unpacked ones are precise dimensions, and none is a precise tuple |
| ConfigurationMerge.Identity | client/dataclasses_merge.py:134-206 | the all-default value is a left and a right identity exactly on well-typed values, for every nested schema |
| ConfigurationMerge.Associative | client/dataclasses_merge.py:134-206 | both groupings of three layers raise together or give equal results, for every policy and any values |
| ConfigurationMerge.PrependedLayers | client/dataclasses_merge.py:142-153 | over any number of layers a list field is the concatenation, strongest layer first |
| ConfigurationMerge.OverwrittenLayers | client/dataclasses_merge.py:139-140 | over any number of layers a plain field is that of the strongest layer that sets it |
| ConfigurationMerge.UniqueLayers | client/dataclasses_merge.py:155-165 | a field that must not be overwritten raises iff two layers set it |
| ConfigurationMerge.LayersFieldByField | client/dataclasses_merge.py:173-206 | merging layers is merging each field on its own, and raises iff some field does |
| ConfigurationMerge.LayersRaiseExactlyWhen | client/dataclasses_merge.py:155-206 | for every schema, any number of layers of the annotated types raises iff two of them set an option that must not be overwritten, at any level of nesting |
| ConfigurationMerge.OptionalLayers | client/configuration/platform_aware.py:65-75 | an optional nested option is merged from exactly the layers that set it, and unset if none does |
| ConfigurationMerge.WithoutLocalLayer | client/configuration/configuration.py:1030-1042 | no local configuration has the same outcome, raising included, as one with every option at its default |
| ConfigurationMerge.OptionalIsDefault | client/configuration/platform_aware.py:65-75 | in a nested option that some layer sets, a layer that leaves it unset has the same effect as one that sets none of its parts |
| ConfigurationMerge.ConfigurationLayers | client/configuration/configuration.py:1030-1042 | with or without a local configuration, at every level of nesting: list options are command line ++ local ++ global, plain options come from the strongest layer, `source_directories` and `targets` are set by at most one layer |
| ConfigurationMerge.OptionsByName | client/configuration/configuration.py:102-173 | option by option: the eight list options are concatenated, `source_directories` and `targets` are set by one layer at most, every other plain option is that of the strongest layer |
| ConfigurationMerge.ConfigurationRaisesExactlyWhen | client/configuration/configuration.py:1030-1042 | on layers of the annotated types it raises iff two of them set `source_directories` or two set `targets` |
| ConfigurationRoots.FindParentDirectoryContaining | client/find_directories.py:38-60 | finds the closest ancestor with the file within the limit, or none exists |
| ConfigurationRoots.FindOutermostDirectoryContainingFile | client/find_directories.py:89-120 | finds the farthest such ancestor |
| ConfigurationRoots.NearestIsClosest | client/find_directories.py:123-128 | the unlimited search gives the closest ancestor |
| ConfigurationRoots.RootsAreNested | client/find_directories.py:131-174 | the global root is an ancestor of or equal to the local root, so the relative root is `None` iff the local root is, and leads back to it |
| ConfigurationRoots.RootsAreClosest | client/find_directories.py:123-174 | the global root is the closest `.pyre_configuration`, or without any the closest `pyproject.toml`; the local root is the closest local configuration, and absent iff all are above the global root |
| ConfigurationRoots.CheckNestedLocalConfiguration | client/configuration/configuration.py:1079-1122 | unless it never ends: the outcome is decided by the first directory on the way up from which no covering configuration is seen, normal return if none is seen from there and else the one that does not cover the project; all nearer ones cover it, and after a normal return all of the same global project do |
| ConfigurationRoots.VerdictByFiles | client/configuration/configuration.py:1094-1122 | looping, passing and rejecting, each characterised by which configurations are seen from the checked directory and from the parents of the local configurations above it |
| ConfigurationRoots.LoopsExactlyWhen | client/configuration/configuration.py:1094-1122 | every number of turns can be taken iff from every such directory a covering configuration is seen; otherwise there is at most one turn per directory above |
| ConfigurationRoots.RejectedAfterCovered | client/configuration/configuration.py:1094-1122 | a rejection names a local configuration above, and every nearer one covers the project |
| ConfigurationRoots.TerminatesWithoutRootConfiguration | client/configuration/configuration.py:1094-1122 | without a local configuration in the filesystem root the check always ends |
| ConfigurationRoots.RootConfigurationLoops | client/configuration/configuration.py:1094-1122 | for every project a file system with a local configuration in it, on which its check never ends |
| ConfigurationRoots.PassMeansCovered | client/configuration/configuration.py:1094-1122 | normal return means that every local configuration above the project within the same global project ignores it |
| TextRanges.TextAtRange | client/commands/source_code_context.py:59-94 | `None` iff the range is not valid, otherwise the slice of the joined lines between the two flat offsets |
| TextRanges.OffsetsAreOrdered | client/commands/source_code_context.py:81-84 | one position is not after another by line and column iff its flat offset is not larger, and different positions have different offsets |
| TextRanges.AdjacentRanges | client/commands/source_code_context.py:59-94 | the texts of adjacent ranges concatenate to the text of the whole range |
| AnnotationCounts.AnnotationCollector.Visit | client/coverage_data.py:292-329 | visiting any tree restores the context and appends its functions in order, each judged in its context |
| AnnotationCounts.AnnotationCollector.VisitFunctionDef | client/coverage_data.py:298-326 | records the function with its parent outside and its method status inside the definition |
| AnnotationCounts.AnnotationCollector.LeaveFunctionDef | client/coverage_data.py:201-204 | undoes entering the function, whatever the context was |
| AnnotationCounts.FunctionsAre | client/coverage_data.py:215-326 | exactly the function definitions of a tree are recorded; each is a method iff it is in a class and neither it nor a function around it is a static method, and its parent are the names of the classes around it |
| AnnotationCounts.FunctionsAreCounted | client/coverage_data.py:298-326 | every definition is recorded once |
| AnnotationCounts.WeightsAre | client/commands/statistics.py:182-210 | a function counts for one return and for its parameters but the implicit one, annotated ones by their annotation |
| AnnotationCounts.VerdictMeaning | client/coverage_data.py:107-148 | a function is fully annotated iff its own return and parameter counts agree, and not annotated iff nothing is, the implicit parameter included |
| AnnotationCounts.FullyAnnotatedWhenCountsAgree | client/commands/statistics.py:182-210 | all functions are fully annotated iff annotated returns and parameters equal all returns and parameters |
| AnnotationCounts.NothingAnnotatedWhenCountsAreZero | client/commands/statistics.py:182-210 | no function is partially or fully annotated iff no return and no parameter is counted as annotated and no method annotates its implicit parameter |
| AnnotationCounts.NotAnnotatedMeaning | client/coverage_data.py:107-148 | a function is not annotated iff its own counts are zero and its implicit parameter has no annotation |
| AnnotationCounts.AnnotatedSelfIsNotCounted | client/coverage_data.py:125-132 | the last condition is needed: a method that annotates only `self` is counted as partially annotated |
| AnnotationCounts.CollectStatistics | client/commands/statistics.py:252-276 | every module is counted by a fresh visitor |
| AnnotationCounts.AggregateStatistics | client/commands/statistics.py:306-327 | every count is the sum over the modules |
| AnnotationCounts.Statistics | client/commands/statistics.py:176-327 | for every list of modules the aggregated counts satisfy both equivalences, and the function count is the number of definitions |

## Left out

- DaemonProtocol.SingleBackgroundTask: coroutines are atomic steps between `await`s; liveness, timers and telemetry are not modelled.
- DaemonProtocol.RestartCap: runs end before the final `ensure_task_stop` of the dispatcher, since requests that are still outstanding may launch a task after it.
- EditorView.Live: unsaved-changes support is off; with it on, request handlers publish overlay errors as well. Status tracking and status messages are only points of interruption.
- BackwardSearch.DependencyGraph.FindTracesForCallees: for a name not in the dictionary at the outset it does not say whether the answer is `None` or empty, because that depends on earlier queries.
- CallGraphLaws.UnionCallGraphFormat.UnionCallGraph: does not capture that the first graph's sets are shared and updated in place, because sets are values.
- Input formats of call graphs (JSON validation, qualifier normalisation) and `Entrypoints` name truncation: the model starts from built graphs and a set of entrypoints.
- `print_shortest_trace`: it records whole frames but tests keys, so it has no property of interest.
- Enumeration of frames with `deduplicate=False`, which only serves size statistics, and issue traces.
- TaintModels.MapTaintConditions: the deep copy followed by updates in place is one new value.
- OutputIndex.IndexingIsComplete: starts from empty dictionaries; across files only soundness and independence of order are stated, because all indexes of a process share their default dictionaries.
- JSON parsing and the file system: a parser from lines to messages and the sets of directories with configuration files are given.
- Loading, validating and expanding configuration files, `no_logger`, and `PlatformAware` other than merging.
- TextRanges.TextAtRange: takes the lines as given; which characters `str.splitlines` splits at is not modelled, nor is the window around a position.
- AnnotationCounts.AggregateStatistics: counts of globals, attributes, lines, suppressions and explicit `Any` would only add easy members.
