# Verified models of the CppUtil components

Dafny models of the stateful parts of a C++ utility library and of the build-graph code of its
vendored build tool, with proofs of what those parts promise. `dafny verify dfyconfig.toml` checks
everything.

| file | models |
|---|---|
| `SegmentTree.dfy` | the lazy segment tree over two heap-indexed arrays, against a flat array |
| `TreiberStack.dfy` | the lock-free stack, any number of threads, one step per atomic operation |
| `ThreadPool.dfy` | queue, stop flag, mutex, sleeping workers, notifications, destructor |
| `DoubleBuffer.dfy` | readers, reference counts, the writer's two rounds and the swap |
| `RcuPointer.dfy` | copy, modify, compare-and-swap over reference-counted versions |
| `DependencyGraph.dfy`, `DependencyAnalyzer.dfy` | expansion, reversal and sorting of build targets |
| `Decimal.dfy`, `Json.dfy`, `JsonRoundTrip.dfy`, `JsonTyping.dfy`, `JsonReading.dfy`, `JsonHelper.dfy` | JSON marshalling and back |
| `InclusionStacks.dfy` | the include-level listing parser, against a tree walk |
| `Trie.dfy` | the pointer-based trie, against a set of words |
| `HttpRequest.dfy`, `HttpMessage.dfy` | the incremental request reader, and printed requests read back |
| `LogRotation.dfy` | hour suffixes and trimming of log history |

## How it is modelled

- Arrays, objects and loops of the source stay arrays, classes and loops. The concurrent components
  are step systems: every atomic operation or critical-section step of any party is one action, a
  run is any sequence of enabled actions, and theorems are about the state after every run. Each
  compare-and-swap, load and store is one sequentially consistent step.
- Integers are unbounded. Dictionary, set and unordered-container iteration is in arbitrary order.
- The clock, `os.path.normpath`, the updater functions and the JSON library's reading of null are
  parameters; so every statement holds for each choice of them.

## Assumptions taken from the code's own contract

- Segment tree: the length is a power of two (the constructor checks it) and a range meets 1..n.
- Lock-free stack: a node is not pushed while it is on the stack, being pushed, or held by a popper.
  Pushing every node at most once implies this (`PushingOnceIsDisciplined`). The condition is exact:
  after any call that lacks it some run breaks the stack (`UndisciplinedPushBreaks`);
  `ReusedNodeBreaksTheStack` is a complete run.
- Double buffer: a reader whose index is outdated does not copy the pointer of the write buffer after
  the writer has seen it unused and before its update is published. The component's README admits
  that race; every such copy does harm (`UndisciplinedCopyHarms`), `SwapBetweenLoadsTearsRead` is a run.
- RCU pointer: the initial pointer and all stored pointers are non-null.
- Build graph: every dependency names a known target.
- Printed requests (`HttpMessage.Sendable`): GET or POST; no part holds a line feed; uri and query parts
  hold no blank and no `?`, the version no blank, header names no colon.
- JSON: unmarshal.h reads container elements into `T tmp`, which leaves scalars and raw pointers
  uninitialised; the model takes them as zero and null.

## Where the code does not do what one would expect

- A point update below a pending range mark leaves wrong sums: `Tree.PointUpdate` proves it is right
  exactly when no mark is pending above the position; `PendingMarkBreaksPointUpdate` is a two-element
  example. Querying the point first clears the way.
- The topological sort's docstring says dependents come first; the code puts dependencies first, and
  that is what is proved. A duplicate in a dependency list would make its length assertion fail
  (`SortDuplicate`); target.py and proto_library_target.py filter duplicates as they fill the
  lists, so this does not reach the sort.
- The docstring of the inclusion parser shows names with the build directory; the code removes it.
- Log files are deleted too young: the suffix test runs ahead of the hours by 76 for every midnight and
  by at least 6976 for every new month (`GapIsHoursAndDrift`). `RetentionExact` is the exact condition
  for every retention time, and `EveryRetentionLosesYoungFiles` shows that none is safe.
- A pointer to the text "nullptr", a non-null pointer read into a null one, and (depending on the
  JSON library) an empty container do not survive marshalling (`LostInTransit`); `RoundTrip` is the
  exact condition.
- The request reader never enters its body phase (`BodyNeverRead`) and accepts every complete request
  whose first line is blank, without a method (`OverIffFirstLine`, `BlankRequestAccepted`). How the
  bytes are cut into chunks can change the outcome; `CutMattersIff` says exactly when. The version
  it stores keeps the carriage return of its line (`PrintedRequestReadsBack`). A header value is cut at
  its first colon, so a port is lost (`HeaderSurvivesIffNoColon`, `PortLostFromHost`).
- A pool without workers ends with its tasks undone (`AllFinishedWhenJoined`, `NoWorkersNoWork`).

## Model

| member | source | states |
|---|---|---|
| SegmentTree.NodeLayout | data_structure/segment_tree/segment_tree.cc:8-30 | a node covering L positions starts at position current * L - n + 1, and its index is below 2n |
| SegmentTree.ChildrenCover | data_structure/segment_tree/segment_tree.cc:24-26 | the halves split at the middle are covered by 2c and 2c+1, both inside the arrays |
| SegmentTree.StoredSumIsTotal | data_structure/segment_tree/segment_tree.cc:32-36 | under the sum invariant a node's stored sum is the total of the elements it stands for, marks included |
| SegmentTree.MarkAddsToAll | data_structure/segment_tree/segment_tree.cc:75-80 | adding to a node's mark and, per covered position, to its sum adds to every element of its range |
| SegmentTree.PushDownKeepsElements | data_structure/segment_tree/segment_tree.cc:93-110 | moving a mark to the children changes no abstract element |
| SegmentTree.PushDownKeepsSums | data_structure/segment_tree/segment_tree.cc:93-110 | moving a mark to the children keeps the sum invariant at every node, in both directions |
| SegmentTree.RefreshedSum | data_structure/segment_tree/segment_tree.cc:112-114 | recomputing a sum makes the node right exactly when it has no mark and its children are right |
| SegmentTree.RangeAddedByHalves | data_structure/segment_tree/segment_tree.cc:81-91 | push down, update both halves, push up is the range update of the node: exactly the positions in range change, the sums are right, nothing outside the subtree is touched |
| SegmentTree.Tree.constructor | data_structure/segment_tree/segment_tree.cc:8-14 | a new tree of power-of-two length stands for all zeros, has right sums and no mark |
| SegmentTree.Tree.Build | data_structure/segment_tree/segment_tree.cc:16-30 | builds the unmarked tree of the slice of lazy_add_ at its positions, touching only the subtree |
| SegmentTree.Tree.PushDown | data_structure/segment_tree/segment_tree.cc:93-110 | clears the mark, keeps elements and sums, touches only the subtree |
| SegmentTree.Tree.RangeUpdateAt | data_structure/segment_tree/segment_tree.cc:72-91 | the recursive update adds to exactly the positions of the range inside the node; clear paths to other positions stay clear, and a one-point update clears the path to its point |
| SegmentTree.Tree.QueryAt | data_structure/segment_tree/segment_tree.cc:32-50 | the recursive query returns the flat sum of the range inside the node, changes no element and puts no mark on a clear path |
| SegmentTree.Tree.PointUpdateAt | data_structure/segment_tree/segment_tree.cc:52-70 | changes exactly element k, no mark, and keeps the sum invariant exactly when the path is free of marks |
| SegmentTree.Tree.RangeUpdate | data_structure/segment_tree/segment_tree.h:52-54 | the whole tree equals the flat array with the increment added in the range; points outside it that had no mark above them still have none, and a one-point update leaves none above its point |
| SegmentTree.Tree.Query | data_structure/segment_tree/segment_tree.h:62-64 | returns the flat sum; a one-point query leaves no mark above the point, and no query marks a clear point |
| SegmentTree.Tree.PointUpdate | data_structure/segment_tree/segment_tree.h:44-46 | element k changes; the tree stays valid if and only if no mark is pending above k |
| SegmentTree.Tree.Run | data_structure/segment_tree/segment_tree.h:44-64 | any sequence of updates and queries gives the answers and contents of a flat array, if each point update is at a point clear from the start, or since queried or range-updated alone, with no wider range update over it in between |
| SegmentTree.PendingMarkBreaksPointUpdate | data_structure/segment_tree/segment_tree.cc:52-70 | concrete state where a point update under a mark leaves a root sum of 1 for elements adding up to 11 |
| TreiberStack.StepKeepsShape | lockfree/lockfree_stack.cpp:53-83 | only a successful swap changes the abstract stack, and exactly by that push or pop; the chain from head stays finite, distinct and equal to it |
| TreiberStack.StepKeepsInv | lockfree/lockfree_stack.cpp:53-83 | every disciplined step keeps the invariant, in particular that a popper holding (h, next) has the right next |
| TreiberStack.NothingLostOrDuplicated | lockfree/lockfree_stack.cpp:53-83 | in a legal history pushed nodes are the popped ones plus those left, as multisets |
| TreiberStack.DisciplinedRunsAreStacks | lockfree/lockfree_stack.cpp:53-83 | every disciplined interleaving of any threads is a legal sequential stack history whose contents are the chain from head, with no node lost or duplicated |
| TreiberStack.EveryCallTakesEffectOnce | lockfree/lockfree_stack.cpp:53-83 | in every run, disciplined or not, each Push call has put its node on the stack exactly once or a thread is still at it, and each Pop call has returned exactly once or is still at it |
| TreiberStack.PushingOnceIsDisciplined | lockfree/lockfree_stack.cpp:53-68 | if no node is pushed twice the discipline holds in every run |
| TreiberStack.PushingOnceIsSafe | lockfree/lockfree_stack.cpp:53-83 | if no node is pushed twice every interleaving is a stack and no node is popped twice |
| TreiberStack.UndisciplinedPushBreaks | lockfree/lockfree_stack.cpp:53-83 | the discipline is exact: in every state the invariant allows, a call pushing a node that is on the stack, being pushed or held can be continued, without another such call, to a state that is not a stack |
| TreiberStack.DestructorEmpties | lockfree/lockfree_stack.cpp:43-51 | in every run of the destructor, whatever swaps fail, the nodes popped are a prefix of the stack, top first, the rest is still linked, and a pop that returns null means nothing is left |
| TreiberStack.DestructorRunBounded | lockfree/lockfree_stack.cpp:43-51 | before that null such a run takes at most 4 steps per node, 3 per failed swap and 3 more, so it ends unless swaps fail for ever |
| TreiberStack.DestructorCanEnd | lockfree/lockfree_stack.cpp:43-51 | there always is a run to the end: every node popped once, then null |
| TreiberStack.ReusedNodeBreaksTheStack | lockfree/lockfree_stack.cpp:70-83 | a run that reuses a held node puts a popped node back on top |
| ThreadPool.StepKeepsInv | threadpool/threadpool.h:34-90 | every step of workers, callers and destructor keeps mutex, task, phase and wake-up invariants |
| ThreadPool.FirstAcceptedFirstTaken | threadpool/threadpool.h:47-48 | in every run tasks leave in the order accepted, each to one worker of the pool, which runs what it took last |
| ThreadPool.EveryCallAccounted | threadpool/threadpool.h:55-76 | in every run the calls of Enqueue with a task are those accepted, those still on their way and those that came through after stop; none is refused while the pool runs |
| ThreadPool.EnqueueAlone | threadpool/threadpool.h:64-76 | with the mutex free a call puts its task at the end of the queue, or is refused after stop, whatever else the pool is doing |
| ThreadPool.CallerCanReturn | threadpool/threadpool.h:64-76 | a call of Enqueue never hangs: from every state the invariant allows at most four steps bring it back |
| ThreadPool.NothingAcceptedAfterStop | threadpool/threadpool.h:67-70 | after stop no run accepts a task |
| ThreadPool.AllFinishedWhenJoined | threadpool/threadpool.h:80-90 | when the joins have returned every accepted task has finished exactly as often as accepted, if and only if there was a worker or no work |
| ThreadPool.NoWorkersNoWork | threadpool/threadpool.h:80-90 | a full run of a pool without workers that ends with its task accepted and undone |
| ThreadPool.NoLostWakeup | threadpool/threadpool.h:40-49 | in every run with a non-empty queue a worker is awake or a notification is pending |
| ThreadPool.EveryTaskHasAWakeup | threadpool/threadpool.h:64-76 | while a worker sleeps, queued tasks do not outnumber awake idle workers plus pending notifications |
| ThreadPool.FrontCanBeTaken | threadpool/threadpool.h:34-76 | from every state the invariant allows, with a worker and a queued task, at most four steps of the parties at work take exactly the front task |
| ThreadPool.WorkCanAlwaysBeTaken | threadpool/threadpool.h:34-76 | so in every run of a pool with workers queued work can be taken, with no new call and no spurious wake-up |
| ThreadPool.ShutdownAdvances | threadpool/threadpool.h:81-89 | after notify_all nobody sleeps again, and each worker step lowers the measure by one, so a run has only that many |
| ThreadPool.ShutdownNeverStuck | threadpool/threadpool.h:86-89 | during shutdown the holder of the mutex or a live worker can step, until the destructor can finish |
| DoubleBuffer.StepKeepsBuffers | double_buffer/double_buffer.h:47-84 | at every writer phase each buffer holds the fold of the updates that phase allows, or is torn |
| DoubleBuffer.StepKeepsInv | double_buffer/double_buffer.h:38-84 | every disciplined step of readers and writer keeps the invariant |
| DoubleBuffer.ReadersSeeWholePrefixes | double_buffer/double_buffer.h:38-40 | in every disciplined run a reader's buffer is whole and equals the fold of a prefix of the serialised updates |
| DoubleBuffer.NoReaderOnTornBuffer | double_buffer/double_buffer.h:73-80 | no reader holds the buffer the writer has claimed, from seeing it unused until its update is published |
| DoubleBuffer.BuffersAgreeWhenFree | double_buffer/double_buffer.h:47-58 | whenever the writer mutex is free both buffers equal the fold of all completed updates |
| DoubleBuffer.VersionsOnlyGrow | double_buffer/double_buffer.h:38-40 | a held version stays the same until released and later loads never see fewer updates, even when a swap falls between their two steps |
| DoubleBuffer.UpdatesInCallOrder | double_buffer/double_buffer.h:47-58 | the updates of every run are those of its calls, none lost or added, in the order of the mutex |
| DoubleBuffer.LoadShowsPublished | double_buffer/double_buffer.h:38-40 | an uninterrupted Load always succeeds and shows every published update |
| DoubleBuffer.ReleasedUpdateFinishes | double_buffer/double_buffer.h:47-80 | from every state the invariant allows, once readers let go the update in progress completes in at most ten steps |
| DoubleBuffer.UndisciplinedCopyHarms | double_buffer/double_buffer.h:38-40 | in every state the invariant allows, a copy the discipline forbids shows an unpublished update, or the writer's next steps leave the reader with a torn buffer |
| DoubleBuffer.SwapBetweenLoadsTearsRead | double_buffer/README.md:45-51 | a run where a swap between the two loads leaves a reader on the buffer being updated |
| RcuPointer.StepKeepsInv | rcu_ptr/rcu_ptr.h:26-68 | every step, freeing and reusing addresses included, keeps the invariant |
| RcuPointer.CellIsFoldOfCommits | rcu_ptr/rcu_ptr.h:26-68 | in every interleaving the cell's content is the fold of the committed stores and updates in commit order |
| RcuPointer.LogIsCommits | rcu_ptr/rcu_ptr.h:36-68 | the log folded there is exactly what the stores and successful swaps of the run published, in their order |
| RcuPointer.StorePublishes | rcu_ptr/rcu_ptr.h:36-47 | both forms of Store can always be taken and leave the cell with the value given |
| RcuPointer.LoadYieldsCurrent | rcu_ptr/rcu_ptr.h:26-28 | Load always succeeds and yields the version that all commits so far have led to |
| RcuPointer.NoUpdateIsLost | rcu_ptr/rcu_ptr.h:57-68 | in every run each call of Update has returned or a thread is still at it, and what is committed under its ticket is the function it was called with |
| RcuPointer.UpdateCanFinish | rcu_ptr/rcu_ptr.h:57-68 | from every state the invariant allows a call of Update in progress can return by its own steps alone |
| RcuPointer.FreedExactlyWhenUnused | rcu_ptr/rcu_ptr.h:20-28 | dropping a version forgets it and no other, and an object can be freed exactly when neither the cell nor any thread refers to it |
| RcuPointer.FinishedUpdatesAppliedOnce | rcu_ptr/rcu_ptr.h:57-68 | every finished Update was applied exactly once and none in progress has been |
| RcuPointer.RetryMeansOthersCommitted | rcu_ptr/rcu_ptr.h:65-67 | a swap fails only if another operation committed since the attempt loaded the pointer |
| RcuPointer.LoadedVersionNeverChanges | rcu_ptr/rcu_ptr.h:20-28 | a loaded version keeps its value until dropped, even if old pointers are stored again |
| DependencyAnalyzer.UniqueDeps | thirdparty/blade-build-v2.0/src/blade/dependency_analyzer.py:68-76 | the backward loop keeps exactly the last occurrence of each element |
| DependencyGraph.KeepLastElements | thirdparty/blade-build-v2.0/src/blade/dependency_analyzer.py:68-76 | keeping last occurrences keeps the elements and leaves no duplicates |
| DependencyGraph.KeepLastKeepsOrder | thirdparty/blade-build-v2.0/src/blade/dependency_analyzer.py:68-76 | keeping last occurrences keeps every element before all its dependencies |
| DependencyGraph.ExpansionInLinkOrder | thirdparty/blade-build-v2.0/src/blade/dependency_analyzer.py:96-107 | in an expansion a target stands before everything it depends on directly or indirectly |
| DependencyGraph.ExpandedMeansNoLoop | thirdparty/blade-build-v2.0/src/blade/dependency_analyzer.py:97-102 | a target with an expansion reaches no cycle |
| DependencyAnalyzer.UniqueIsExpansion | thirdparty/blade-build-v2.0/src/blade/dependency_analyzer.py:96-107 | the de-duplicated concatenation is exactly the reachable set, in link order, without duplicates |
| DependencyAnalyzer.Targets.ExpandTargetDeps | thirdparty/blade-build-v2.0/src/blade/dependency_analyzer.py:79-110 | terminates; returns and memoises the expansion, made of the dependencies in their order, each followed by its own list; keeps all memoised ones, restores the root set; a reported loop is a real cycle |
| DependencyAnalyzer.ExpansionsDetermined | thirdparty/blade-build-v2.0/src/blade/dependency_analyzer.py:96-107 | two sets of lists made that way agree down to the order, so the memoised expansions are determined by the graph |
| DependencyAnalyzer.Targets.ExpandDeps | thirdparty/blade-build-v2.0/src/blade/dependency_analyzer.py:55-65 | ends in the loop error exactly when the graph has a cycle; otherwise every target has its expansion |
| DependencyAnalyzer.Targets.ExpandDependents | thirdparty/blade-build-v2.0/src/blade/dependency_analyzer.py:113-122 | dependents are the reversed edges and expanded dependents the reversed reachability |
| DependencyAnalyzer.Release | thirdparty/blade-build-v2.0/src/blade/dependency_analyzer.py:143-148 | one round of the sort keeps the counters right and queues exactly the targets that became ready |
| DependencyAnalyzer.Targets.TopologicalSort | thirdparty/blade-build-v2.0/src/blade/dependency_analyzer.py:125-150 | the length assertion holds if and only if the graph is acyclic and no dependency list has duplicates; then every target stands once, after its dependencies |
| DependencyAnalyzer.SortedAllIffOrderable | thirdparty/blade-build-v2.0/src/blade/dependency_analyzer.py:142-149 | when the work list is empty all targets are sorted exactly when the graph can be ordered |
| DependencyAnalyzer.SortDuplicate | thirdparty/blade-build-v2.0/src/blade/dependency_analyzer.py:125-150 | on a graph with a dependency listed twice the pipeline finds no loop and the sort ends in a length mismatch |
| DependencyAnalyzer.IndirectDepsComeFirst | thirdparty/blade-build-v2.0/src/blade/dependency_analyzer.py:49-52 | in the sorted order indirect dependencies come first too |
| DependencyAnalyzer.Targets.AnalyzeDeps | thirdparty/blade-build-v2.0/src/blade/dependency_analyzer.py:24-52 | the pipeline reports a loop exactly on cycles and otherwise leaves right expansions, direct and indirect dependents and order; the sort fails only on a duplicate dependency |
| Decimal.ParsePrinted | json_helper/unmarshal.h:297-375 | parsing a printed integer key gives the key back over the whole range of its type |
| Decimal.KeyOfText | json_helper/unmarshal.h:297-375 | any name of white space, optional sign, digits and other text has the key its digits spell, if in range, unsigned keys modulo their width |
| Decimal.NoKeyWithoutDigits | json_helper/unmarshal.h:297-375 | any other name has no key |
| Decimal.ToStringInjective | json_helper/marshal.h:189-199 | no two integer keys print alike |
| JsonHelper.Marshal | json_helper/marshal.h:84-253 | returns false exactly when a type without an overload is met, otherwise leaves an encoding of the value |
| JsonHelper.MarshalSet | json_helper/marshal.h:225-238 | every element of the set appears as an item, whatever the iteration order, and there are as many items as elements |
| JsonHelper.MarshalIntMap | json_helper/marshal.h:189-199 | the object has exactly one member per entry: printing keys never merges two |
| JsonHelper.MarshalFields | json_helper/marshal.h:71-81 | every field ends up under its own name and other names are untouched |
| JsonHelper.Unmarshal | json_helper/unmarshal.h:106-518 | the recursion over types computes the decoding that ReadsAnyTree characterises, with failures, exceptions and unchanged objects |
| JsonHelper.UnmarshalIntMembers | json_helper/unmarshal.h:297-315 | the loop over member names reads each into the entry of its parsed key |
| JsonRoundTrip.RoundTrip | json_helper/unmarshal.h:106-518 | reading back any encoding of a value returns true and the value if and only if containers are non-empty (or null reads as empty) and pointers can be restored |
| JsonTyping.DecodeKeepsType | json_helper/unmarshal.h:106-518 | for every tree, malformed or of another shape, an object Unmarshal reads into without throwing stays a value of its type, keys and integers in range |
| JsonReading.ReadsAnyTree | json_helper/unmarshal.h:106-518 | for every type, tree and object: Unmarshal throws exactly when a number or key is out of range, a key has no digits or a field is asked of a scalar or array; otherwise it returns whether the tree has the type's shape and leaves what the tree spells, unread parts as they were |
| JsonReading.TrueIffShaped | json_helper/unmarshal.h:106-518 | Unmarshal returns true exactly on trees of the type's shape, with the value they spell |
| JsonReading.DistinctNamesOwnEntries | json_helper/unmarshal.h:276-295 | where names differ every member has its own entry, read into a fresh object |
| JsonReading.WrongItemsAreZero | json_helper/unmarshal.h:255-274 | items of a wrong kind make the read fail and leave zeros |
| JsonReading.MissingFieldFails | json_helper/unmarshal.h:86-104 | a number the tree does not name keeps its value and makes the read fail |
| JsonHelper.MarshalThenUnmarshal | json_helper/unmarshal.h:86-104 | Marshal followed by Unmarshal gives the value back exactly under that condition |
| JsonRoundTrip.LostInTransit | json_helper/unmarshal.h:139-156 | three concrete values that do not come back |
| InclusionStacks.ParseInclusionStacks | thirdparty/blade-build-v2.0/src/blade/inclusion_check.py:100-140 | the loop keeps the stack as long as the current level and computes the run over the lines |
| InclusionStacks.FindSpace | thirdparty/blade-build-v2.0/src/blade/inclusion_check.py:149 | the first blank, or -1 exactly when there is none |
| InclusionStacks.LineParses | thirdparty/blade-build-v2.0/src/blade/inclusion_check.py:143-156 | a printed listing line, whatever white space ends it, parses back to its level and path |
| InclusionStacks.RemoveBuildDirPrefix | thirdparty/blade-build-v2.0/src/blade/inclusion_check.py:159-167 | the path is the result, or the build directory followed by it |
| InclusionStacks.SkippedOver | thirdparty/blade-build-v2.0/src/blade/inclusion_check.py:129-131 | everything included by a generated or absolute header is passed over |
| InclusionStacks.ListingGivesTreeWalk | thirdparty/blade-build-v2.0/src/blade/inclusion_check.py:64-140 | for the listing of every include forest, other output after it or not, the parser returns the direct headers and stacks of the tree walk and its level assertion never fails |
| InclusionStacks.StacksAreTrails | thirdparty/blade-build-v2.0/src/blade/inclusion_check.py:102-113 | the stacks are exactly the chains of inclusions from a root to the first header under the build directory, none of them absolute |
| InclusionStacks.DocumentedListing | thirdparty/blade-build-v2.0/src/blade/inclusion_check.py:67-99 | the documented listing gives the documented result, for any names and with the build directory removed |
| InclusionStacks.StopsIff | thirdparty/blade-build-v2.0/src/blade/inclusion_check.py:119-127 | reading ends exactly at a line without a leading dot or without a blank |
| InclusionStacks.JumpFails | thirdparty/blade-build-v2.0/src/blade/inclusion_check.py:132 | a listing that starts below level one makes the level assertion fail |
| TrieOfWords.GrowKeepsTree | data_structure/trie/trie.h:19-23 | hanging a new node below an existing one keeps the nodes a tree without sharing |
| TrieOfWords.Trie.Insert | data_structure/trie/trie.h:16-26 | the words become exactly the old ones and the new one |
| TrieOfWords.Trie.InsertAll | data_structure/trie/trie.h:16-26 | after any sequence of inserts the words are exactly those inserted |
| TrieOfWords.Trie.SearchPrefix | data_structure/trie/trie.h:39-49 | returns the node its prefix leads to, null exactly when there is none |
| TrieOfWords.Trie.Search | data_structure/trie/trie.h:29-32 | true exactly for inserted words |
| TrieOfWords.Trie.StartWith | data_structure/trie/trie.h:34-36 | true exactly for the empty prefix and prefixes of inserted words |
| HttpRequest.Request.OnReadable | http/http_server/http_request.cpp:11-91 | one call moves the reader's state and status as the step function says |
| HttpRequest.Request.ReadLine | http/http_server/http_request.cpp:38-80 | one pass of the loop does to the fields what the line's place in the request says |
| HttpRequest.Request.ParseRequestLine | http/http_server/http_request.cpp:108-126 | sets method, url, query pairs and version up to the part that is missing, and says whether all were there |
| HttpRequest.ChunkingDoesNotMatter | http/http_server/http_request.cpp:11-31 | every way of cutting a request of any size, no earlier cut falling right after a blank line within the limit, gives the same final status and fields |
| HttpRequest.EarlyCutOutcome | http/http_server/http_request.cpp:11-91 | fields and status after any unclean cut: a refused first line is refused for good, any other leaves the request finished and later calls undecided |
| HttpRequest.CutMattersIff | http/http_server/http_request.cpp:11-91 | for all chunks, cutting leaves status and fields as in one piece if and only if the cuts are clean, or the request line is refused and sets no field or the whole is complete within the limit |
| HttpRequest.RequestLineTwice | http/http_server/http_request.cpp:108-151 | parsing the same request line again changes nothing |
| HttpRequest.CompleteIsDecided | http/http_server/http_request.cpp:29-90 | a buffer within the limit that ends in a blank line is READ_OVER or READ_ERROR, never READ_CONTINUE |
| HttpRequest.OverIffFirstLine | http/http_server/http_request.cpp:29-61 | a complete request within the limit is READ_OVER if and only if its first line is blank or a GET or POST line of three parts, has a method if and only if the first line is not blank, and otherwise is READ_ERROR with the fields of that line |
| HttpRequest.ShortLine | http/http_server/http_request.cpp:108-118 | a line of one or two words sets method, or method and url, alone and is refused |
| HttpRequest.LongLine | http/http_server/http_request.cpp:108-126 | a line of three words sets method, url and version, more words are ignored, and only GET and POST are accepted |
| HttpRequest.UrlParts | http/http_server/http_request.cpp:128-151 | the url up to its first '?' is the uri and the query ends at a second '?' |
| HttpRequest.NoColonNoHeader | http/http_server/http_request.cpp:64-71 | a header line without a colon sets nothing |
| HttpRequest.FinishedStays | http/http_server/http_request.cpp:38-46 | nothing after the blank line changes any field |
| HttpRequest.OverIsFinal | http/http_server/http_request.cpp:34-36 | after READ_OVER further chunks change no field and decide nothing; the status is READ_CONTINUE until the limit is passed |
| HttpRequest.BoundaryAfterBlankLineMatters | http/http_server/http_request.cpp:29-36 | bytes accepted in one piece that end in READ_CONTINUE when cut right after a blank line |
| HttpRequest.BodyNeverRead | http/http_server/http_request.cpp:38-46 | no input ever fills the body parameters |
| HttpRequest.BlankRequestAccepted | http/http_server/http_request.cpp:38-46 | a request of blank lines only is accepted without a method |
| HttpRequest.JoinSplit | http/http_server/http_request.cpp:33-36 | splitting into lines loses nothing |
| HttpRequest.ReadQuery | http/http_server/http_request.cpp:135-148 | the nested loops set exactly the query's key-value pairs, later ones overwriting |
| HttpRequest.SetAllKeepsLast | http/http_server/http_request.cpp:141-147 | every key ends up with its last value and other keys stay as they were |
| HttpRequest.PairsInTurn | http/http_server/http_request.cpp:141-147 | the keys and values of a part, listed in turn, are its pieces between '=', with one empty value added when their number is odd |
| HttpRequest.LoneKey | http/http_server/http_request.cpp:141-147 | a query that is one plain word is a key with an empty value |
| HttpRequest.QueryRoundTrip | http/http_server/http_request.cpp:128-151 | a query printed from any pairs reads back as those pairs if and only if no part holds '=' or '&' |
| HttpMessage.RequestLineReadsBack | http/http_server/http_request.cpp:108-126 | a printed request line gives back verb, url, uri, version and the pairs of its query, each in its own field |
| HttpMessage.ParamsSurviveIffPlain | http/http_server/http_request.cpp:128-151 | the pairs read from a printed url are its parameters if and only if no part of them holds '=' or '&' |
| HttpMessage.HeaderReadsBack | http/http_server/http_request.cpp:64-74 | every printed header line sets exactly its trimmed name, to its trimmed value up to the first colon |
| HttpMessage.HeaderSurvivesIffNoColon | http/http_server/http_request.cpp:64-74 | a header is stored as it was sent if and only if its parts have no surrounding blanks and its value has no colon |
| HttpMessage.ValueStopsAtColon | http/http_server/http_request.cpp:66-72 | what is stored of a value with a colon is the part before it |
| HttpMessage.PortLostFromHost | http/http_server/http_request.cpp:66-72 | "localhost:8080" is stored as "localhost" |
| HttpMessage.PrintedRequestReadsBack | http/http_server/http_request.cpp:11-151 | a printed request within the size limit, any header values and query parts in it, is READ_OVER in one call with every part found |
| HttpMessage.CompleteOnlyAtTheEnd | http/http_server/http_request.cpp:29-31 | no proper prefix of a printed request passes for complete |
| HttpMessage.EveryChunkingReadsBack | http/http_server/http_request.cpp:11-151 | cut anywhere into non-empty chunks, a printed request ends in READ_OVER with every part found |
| LogRotation.SuffixOrder | logger/file_appender.cc:79-89 | suffixes are strictly increasing in calendar hours and distinct hours have distinct suffixes |
| LogRotation.SuffixReadsBack | logger/file_appender.cc:79-89 | year, month, day and hour are read back from the suffix by division and remainder |
| LogRotation.GapAtLeastHours | logger/file_appender.cc:79-89 | two suffixes differ by at least their distance in hours, exactly within a day and by at least 76 more across days |
| LogRotation.GapIsHoursAndDrift | logger/file_appender.cc:79-89 | two suffixes differ by exactly the hours between them and the drift of the dates, which is 76 per day within a month, zero only within a day and at least 6976 over a month change |
| LogRotation.FileAppender.CutIfNeed | logger/file_appender.cc:91-127 | a rotation keeps exactly the files the suffix test keeps, and no remembered file is older than the retention time |
| LogRotation.FileAppender.DeleteOverdueFile | logger/file_appender.cc:129-165 | erases exactly the suffixes that fail the test |
| LogRotation.RetentionExact | logger/file_appender.cc:154 | for every retention time the test means "older than the retention time" if and only if the file is that old or the drift fits in the time it has left; within a month the drift is 76 per midnight |
| LogRotation.EveryRetentionLosesYoungFiles | logger/file_appender.cc:154 | for every positive retention time some file young enough to keep is deleted |
| LogRotation.MidnightDeletesYoungFile | logger/file_appender.cc:154 | a one-hour-old file deleted at midnight under 24 hours of retention |

## Left out

- Sockets, epoll, TCP, the HTTP client and the Redis proxy: plumbing over libraries that are not modelled.
- HTTP responses: only a weak prefix claim would hold of the sending code.
- Shared-memory message queues: stubs and unfinished bodies.
- The ring buffer queue, random numbers, string helpers, log formatting, backtraces: would only add easy members.
- C++ memory orders and the freeing of popped stack nodes by other threads: every atomic operation is one sequentially consistent step.
- 32-bit wrap-around of segment tree sums and of the request size counter: integers are unbounded.
- `std::map<uint32_t, T>` in unmarshal.h: its overload indexes the address of the parameter, so only the unordered form of that key type is modelled.
- Floating-point values and JSON text: the model starts from JSON trees; sets hold no pointers, because their order would be by address.
- Exceptions thrown by pool tasks: a packaged task stores them, so a task simply finishes.
- The double-checked lock around log rotation, and real renames and deletes: rotation is one step and reports the suffixes removed.
- Daylight-saving shifts: calendar hours advance without gaps or repeats.
- The remaining build tool: visibility checks, rule-specific expansion hooks and code generation.
