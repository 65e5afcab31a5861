# Verified models of Insightify's core

This Dafny project models five cores of the repository and proves what they promise.

* **Chunk scheduler** (`Graphs`, `BitSets`, `GraphHelpers`, `Sorting`, `Chunks`, `Runs`, `Scheduler`).
  The ancestors of a target set run in weight-bounded chunks, several in flight, finishing in any
  order. `Runs` is a state machine over what has completed and what is in flight; its theorems hold
  for every run. `Scheduler` keeps in-degree counters and a ready set up to date in place and is
  proved to make only steps of that state machine. Launch failures, cancellation and the choice of
  the chunk that finishes next are an arbitrary environment; for each environment the contract
  leaves one outcome and one log (`ResultUnique`), and what they are is stated on the parameters
  alone (`ParallelismBounded`, `ParallelismUsed`, `LaunchedMember`, `OutcomeMeans`).
* **JSON delta** (`Json`, `DottedPaths`, `Delta`, `DeltaApply`, `JsonTrees`). `Diff` records changes
  under a budget in any map order and prints dotted paths; `Apply` parses them and assigns, on JSON
  values in `DeltaApply` and in place on linked objects in `JsonTrees`. The laws rest on `IsChange`
  (where two values part ways), which mentions neither paths as text nor a budget.
* **LRU+TTL cache and artifact store** (`LruSpec`, `Lru`, `ArtifactSpec`, `Transparency`, `Stores`).
  The cache of list nodes, key map and byte counter refines a list of entries; the cached store is
  compared with the plain store over all serial histories, whatever expires or is evicted. The
  clock is an argument of each operation and may be any number.
* **Word index** (`WordIndex`). A one-pass tokenizer with hash postings against the plain scan; the
  hash and the Unicode classes are arbitrary functions.
* **Uids** (`Uids`, `GraphUids`). Fresh-name search and the in-place renaming of a graph; the base
  name is an arbitrary function of the id.

Three findings differ from what one might expect of the code. `Apply` cannot set a member to null,
so `Diff` then `Apply` is the identity exactly when no changed member of the target is null
(`DiffApplyIdentity`, `NullMemberIsLost`). The cached artifact store answers differently from the
plain one exactly when a Put stores inside the listing of another run id, or a Get with a blank
argument hits a stored key (`TransparentExactly`, `StaleListing`, `BlankGetHits`). Graph renaming is
injective exactly when no id reads like the numbered form of a repeated id
(`RenamingInjectiveExactly`, `RepeatedIDCollides`). The package comment of the word index speaks of
columns; the code stores lines only, and so does the model.

## Model

| member | source | states |
|---|---|---|
| GraphHelpers.ComputeIndegrees | internal/common/scheduler/HeavierStartScheduler.go:234-243 | each counter is the number of edges, with multiplicity, that enter the node |
| GraphHelpers.BuildReverseGraph | internal/common/scheduler/HeavierStartScheduler.go:246-255 | the reversed graph has every edge turned round, with the same multiplicity |
| GraphHelpers.ComputeNeededNodes | internal/common/scheduler/HeavierStartScheduler.go:258-276 | the result is exactly the targets and all nodes from which a target can be reached |
| GraphHelpers.CollectAncestors | internal/common/scheduler/HeavierStartScheduler.go:260-274 | the queue ends in a set closed under predecessors, around the targets, and inside any other such set |
| GraphHelpers.AncestorsClosed | internal/common/scheduler/HeavierStartScheduler.go:257-276 | the needed set is closed under predecessors |
| GraphHelpers.AncestorsLeast | internal/common/scheduler/HeavierStartScheduler.go:257-276 | the needed set lies inside every set that holds the targets and is closed under predecessors |
| GraphHelpers.ReleaseSuccessors | internal/common/scheduler/HeavierStartScheduler.go:292-297 | relaxing a node queues exactly the nodes that lose their last edge, each after its predecessors |
| GraphHelpers.ToposortAny | internal/common/scheduler/HeavierStartScheduler.go:279-303 | succeeds exactly on acyclic graphs, and then lists every node once with all edges pointing forward |
| GraphHelpers.TopologicalIsAcyclic | internal/common/scheduler/HeavierStartScheduler.go:279-303 | a complete list with predecessors first excludes every cycle |
| GraphHelpers.LeftoverMeansCycle | internal/common/scheduler/HeavierStartScheduler.go:299-301 | if some nodes are left, each held back by another, there is a cycle |
| GraphHelpers.DescendantCounts | internal/common/scheduler/HeavierStartScheduler.go:307-335 | counts, per node, the distinct nodes reachable by at least one edge; no result exactly when there is a cycle |
| GraphHelpers.UniteChildren | internal/common/scheduler/HeavierStartScheduler.go:319-324 | the bits of a node are exactly its descendants |
| BitSets.PopulationCount | internal/common/scheduler/HeavierStartScheduler.go:327-333 | the word-wise bit count is the size of the set that the bits stand for |
| BitSets.OrHas | internal/common/scheduler/HeavierStartScheduler.go:321 | Or of bit sets is union |
| BitSets.SetBitHas | internal/common/scheduler/HeavierStartScheduler.go:322 | SetBit adds exactly one element |
| Graphs.DescendantCountDrops | internal/common/scheduler/HeavierStartScheduler.go:305-307 | the descendant count strictly drops along every edge of an acyclic graph |
| Graphs.PendingZero | internal/common/scheduler/HeavierStartScheduler.go:211-217 | a counter of pending edges is zero exactly when all predecessors are finished |
| Graphs.PendingFinish | internal/common/scheduler/HeavierStartScheduler.go:211-212 | finishing a node takes away exactly its edges, with multiplicity |
| GraphHelpers.ReleaseEdges | internal/common/scheduler/HeavierStartScheduler.go:211-218 | the counters again count the pending edges, and exactly the needed, unfinished nodes with no pending edge become ready |
| Chunks.PickBest | internal/common/scheduler/HeavierStartScheduler.go:366-388 | list, sort and scan find the ready node that comes first, in the order that MemberComesFirst spells out, among those that still fit, whatever the order of the map |
| Chunks.BuildChunkDesc | internal/common/scheduler/HeavierStartScheduler.go:342-422 | each member was the best fit on the frontier when chosen, lookahead included, and nothing on the final frontier fits |
| Chunks.FrontierStep | internal/common/scheduler/HeavierStartScheduler.go:389-411 | choosing a node moves the frontier by exactly the nodes it releases |
| Chunks.MemberComesFirst | internal/common/scheduler/HeavierStartScheduler.go:370-388 | whatever else fitted when a member was chosen has fewer descendants, or as many and is heavier, or agrees in both and has the larger id |
| Chunks.MemberFitted | internal/common/scheduler/HeavierStartScheduler.go:384-392 | each member was on the frontier and fitted when it was chosen |
| Chunks.ChunkIsFull | internal/common/scheduler/HeavierStartScheduler.go:383-418 | every node on the final frontier would exceed the bound together with the chunk |
| Chunks.WeightAdds | internal/common/scheduler/HeavierStartScheduler.go:392 | the weight of a chunk is the sum of its members' weights |
| Chunks.GreedyChunkUnique | internal/common/scheduler/HeavierStartScheduler.go:359-381 | the chunk is determined by the set of candidates alone |
| Chunks.GreedyChunkBasics | internal/common/scheduler/HeavierStartScheduler.go:385-392 | a chunk has no duplicates, is in range, and weighs at most the bound |
| Chunks.EmptyChunkMeansAllHeavy | internal/common/scheduler/HeavierStartScheduler.go:134-147 | an empty chunk means that every candidate alone is over the bound |
| Runs.GreedyMembers | internal/common/scheduler/HeavierStartScheduler.go:395-411 | the lookahead never takes a finished node or one in flight in another chunk, nor a node with an unsettled predecessor |
| Runs.FrontierMeaning | internal/common/scheduler/HeavierStartScheduler.go:389-411 | the incremental frontier is exactly the needed, untouched nodes whose predecessors are finished or chosen |
| Runs.NoEdgeAcrossChunks | internal/common/scheduler/HeavierStartScheduler.go:211-217 | no edge leads from one chunk in flight into another, so a completion never promotes a node in flight elsewhere |
| Runs.InvHolds | internal/common/scheduler/HeavierStartScheduler.go:189-224 | in every run chunks in flight are disjoint, unfinished, settled and within the bound, and the finished set is closed under predecessors |
| Runs.Precedence | internal/common/scheduler/HeavierStartScheduler.go:120-219 | in every run each predecessor of a launched node has finished or stands earlier in the same chunk |
| Runs.LaunchedAtMostOnce | internal/common/scheduler/HeavierStartScheduler.go:149-178 | in every run no node is launched twice, and what was launched is exactly what has finished or is in flight |
| Runs.LaunchesBounded | internal/common/scheduler/HeavierStartScheduler.go:116-117 | at most one launch per needed node, so at most n, and every launch finishes at most once |
| Runs.FlightIsBounded | internal/common/scheduler/HeavierStartScheduler.go:121 | at most nParallel chunks in flight, pairwise disjoint, weighing at most nParallel times the bound |
| Runs.Coverage | internal/common/scheduler/HeavierStartScheduler.go:189-226 | once all targets have finished, exactly their ancestors and themselves have, and nothing is in flight |
| Runs.NoDeadlock | internal/common/scheduler/HeavierStartScheduler.go:190-197 | with an open target and nothing in flight some node is available |
| Runs.HeavyNeverCompletes | internal/common/scheduler/HeavierStartScheduler.go:133-147 | with non-negative weights and a needed node over the bound no run ever finishes all targets |
| Runs.PriorityIsTopological | internal/common/scheduler/HeavierStartScheduler.go:337-341 | the priority puts the tail of every edge before its head |
| Scheduler.State.constructor | internal/common/scheduler/HeavierStartScheduler.go:104-117 | the initial counters and ready set are those of the empty run |
| Scheduler.State.LaunchOne | internal/common/scheduler/HeavierStartScheduler.go:122-178 | one turn of the launch loop: exactly one more launch that the state machine allows and the environment lets succeed, nothing available, or an error with its exact reason |
| Scheduler.State.TryLaunch | internal/common/scheduler/HeavierStartScheduler.go:120-181 | keeps the log so far and launches until the parallelism bound is reached or nothing is available |
| Scheduler.State.FinishNode | internal/common/scheduler/HeavierStartScheduler.go:206-218 | booking one node keeps the counters exact and the ready set right outside the chunk, although it may re-add a member of the chunk |
| Scheduler.State.Receive | internal/common/scheduler/HeavierStartScheduler.go:202-219 | receives the completion that the environment chooses, as one step of the state machine, which finishes at least one more node |
| Scheduler.State.Run | internal/common/scheduler/HeavierStartScheduler.go:183-226 | the event loop keeps the log so far, receives a completion only when no more can be launched and a target is open, and ends with all targets finished or for a stated cause |
| Scheduler.ScheduleHeavierStart | internal/common/scheduler/HeavierStartScheduler.go:69-227 | validation errors exactly when due, otherwise a run of the state machine that heeds the environment at each event and ends in success or for cause, never in deadlock |
| Scheduler.ResultUnique | internal/common/scheduler/HeavierStartScheduler.go:69-227 | the contract of ScheduleHeavierStart determines outcome and log: for one environment no two different results meet it, so nothing depends on map order |
| Scheduler.NextEventUnique | internal/common/scheduler/HeavierStartScheduler.go:120-219 | after a given log at most one launch or completion can come next |
| Scheduler.StopIsFinal | internal/common/scheduler/HeavierStartScheduler.go:134-226 | where the call may end, nothing more may be launched or received |
| Scheduler.ParallelismBounded | internal/common/scheduler/HeavierStartScheduler.go:83-121 | at every moment at most max(1, nParallel) chunks are in flight, weighing at most that many times capPerChunk |
| Scheduler.ParallelismUsed | internal/common/scheduler/HeavierStartScheduler.go:83-121 | a completion is awaited only with exactly max(1, nParallel) chunks in flight, or with no unlaunched needed node whose predecessors have all finished |
| Scheduler.LaunchedMember | internal/common/scheduler/HeavierStartScheduler.go:365-412 | each member of a launched chunk is needed, new, settled and fits; whatever else could have come has fewer descendants, or is heavier, or has the larger id |
| Scheduler.LaunchedChunkIsFull | internal/common/scheduler/HeavierStartScheduler.go:365-418 | a launched chunk is not empty and nothing that could come next still fits |
| Scheduler.EnvironmentHeeded | internal/common/scheduler/HeavierStartScheduler.go:153-206 | no launch is booked that failed, no completion is received after a cancellation or with all targets finished, and the completion is the one the environment picks |
| Scheduler.OutcomeMeans | internal/common/scheduler/HeavierStartScheduler.go:78-226 | what each outcome says about parameters, environment and finished nodes, validation errors included |
| Scheduler.DoneMeansCovered | internal/common/scheduler/HeavierStartScheduler.go:189-226 | success means exactly the needed nodes finished, nothing in flight, and at most one completion per needed node |
| Scheduler.ScheduleProgress | internal/common/scheduler/HeavierStartScheduler.go:133-147 | the deadlock error is unreachable; without failures, cancellation or heavy nodes the call succeeds |
| Scheduler.HeavyNodeBlocksSuccess | internal/common/scheduler/HeavierStartScheduler.go:136-144 | with a needed node over the bound the call never succeeds |
| Scheduler.FailedChunkWasSafe | internal/common/scheduler/HeavierStartScheduler.go:153-168 | a chunk whose launch failed was fresh and settled too |
| Json.ChangesAre | internal/common/delta/delta.go:59-100 | the changes between two values are the members of only one of them and the differing values that are not both objects |
| Json.ChangeMeans | internal/common/delta/delta.go:59-100 | a change, without recursion: objects on the whole way in both values, and at its end a member of only one of them or two that differ and are not both objects |
| Json.NoChangeMeansEqual | internal/common/delta/delta.go:63-65 | there is no change exactly between equal values |
| Json.ChangesPrefixFree | internal/common/delta/delta.go:66-99 | no change lies inside another |
| Json.AssignRemovesChange | internal/common/delta/delta.go:227-313 | assigning one change removes exactly that change, unless the target holds a null there |
| Json.AssignAllRemovesChanges | internal/common/delta/delta.go:43-57 | assigning distinct changes leaves exactly the others and the null members |
| Json.SetAtCommutes | internal/common/delta/delta.go:227-313 | assignments at unrelated paths commute |
| Json.SetAtReads | internal/common/delta/delta.go:263-282 | the assigned member can be read back, a null removes it, and only objects can be assigned to |
| Json.SetAtElsewhere | internal/common/delta/delta.go:263-282 | members at unrelated paths stay as they are |
| Json.SetAtMakesWay | internal/common/delta/delta.go:264-290 | everything on the way is an object afterwards, whatever stood there |
| Json.AssignAllPermutes | internal/common/delta/delta.go:46-55 | the order of unrelated assignments does not matter |
| DottedPaths.ParsePart | internal/common/delta/delta.go:195-222 | the bracket loop appends exactly the tokens of the part |
| DottedPaths.ParsePathTokens | internal/common/delta/delta.go:183-225 | the parsing loops compute the tokens of the field |
| DottedPaths.PathRoundTrip | internal/common/delta/delta.go:147-152 | printing a key path and parsing it gives the keys back exactly when every key is non-empty, trimmed, dot-free and without a bracket pair |
| DottedPaths.ParsedKeysAreGood | internal/common/delta/delta.go:189-224 | a field that parses to plain keys parses to such keys only |
| DottedPaths.BlankPartsSkipped | internal/common/delta/delta.go:190-194 | blank parts of a field are skipped |
| DottedPaths.BracketedPart | internal/common/delta/delta.go:195-221 | a bracketed index makes an indexed token with the trimmed key, the rest follows, and an index that is no number is an error |
| DottedPaths.IndexedField | internal/common/delta/delta.go:189-224 | a field of one part with an index is read as that or rejected |
| Delta.Recorder.RecordModified | internal/common/delta/delta.go:116-129 | records the change under its trimmed field or `$`, if the budget allows, and nothing otherwise |
| Delta.Recorder.RecordAdded | internal/common/delta/delta.go:102-107 | an added member enters both lists or neither |
| Delta.Recorder.RecordRemoved | internal/common/delta/delta.go:109-114 | a removed member enters both lists or neither |
| Delta.Recorder.DiffAny | internal/common/delta/delta.go:59-100 | in any map order, records min(budget, number of changes) distinct changes, each once |
| Delta.Recorder.ListOld | internal/common/delta/delta.go:68-79 | the first loop lists the changes under the members of `before` as far as the budget reaches |
| Delta.Recorder.ListNew | internal/common/delta/delta.go:80-89 | the second loop lists the members that only `after` has as far as the budget reaches |
| Delta.Diff | internal/common/delta/delta.go:30-39 | the delta lists as many distinct changes as the budget allows, 200 for a budget of zero or less |
| Delta.ModificationsAre | internal/common/delta/delta.go:116-129 | min(budget, number of changes) modifications, one per change, with its trimmed dotted path or `$`, its old and its new value |
| Delta.AddedAndRemovedAre | internal/common/delta/delta.go:102-114 | `added` names members that only `after` has, `removed` those that only `before` has, each once, and within the budget all of them |
| DeltaApply.FieldPointsBack | internal/common/delta/delta.go:116-120 | a recorded field leads back to its change exactly when the keys are good and the path is not the single key `$` |
| DeltaApply.ApplyLeaves | internal/common/delta/delta.go:43-57 | applying a delta from Diff succeeds and leaves exactly what the budget cut off and the null members |
| DeltaApply.DiffApplyIdentity | internal/common/delta/delta.go:30-57 | within the budget, Diff then Apply gives `after` exactly when no changed member of `after` is null |
| DeltaApply.BudgetedProgress | internal/common/delta/delta.go:59-129 | after a truncated delta N - min(budget, N) changes are left |
| DeltaApply.RoundsConverge | internal/common/delta/delta.go:24-57 | repeated rounds of Diff and Apply reach `after`, one budget of changes per round |
| DeltaApply.LeftRunsOut | internal/common/delta/delta.go:121-126 | after k rounds max(0, N - k * budget) changes are left |
| DeltaApply.FieldsIndependent | internal/common/delta/delta.go:59-129 | the fields of a delta are pairwise distinct and none points inside another |
| DeltaApply.OrderIndependent | internal/common/delta/delta.go:46-55 | applying the modifications in any order gives the same result |
| DeltaApply.RootFields | internal/common/delta/delta.go:47-51 | a blank field and a padded `$` stand for the whole value |
| DeltaApply.WhenAModFails | internal/common/delta/delta.go:52-54 | a modification fails exactly when its field is unreadable or leads below a value that is no object |
| DeltaApply.OneAfterTheOther | internal/common/delta/delta.go:46-56 | modifications are applied in order, up to the first that fails |
| DeltaApply.WellFormedSuffices | internal/common/delta/delta.go:147-152 | well-formed values whose target has no null members meet all these conditions |
| DeltaApply.NullMemberIsLost | internal/common/delta/delta.go:275-282 | a concrete null member that no delta reproduces |
| DeltaApply.DottedKeyIsMisread | internal/common/delta/delta.go:189-198 | every key made of two good keys and a dot is written nested instead |
| JsonTrees.Enter | internal/common/delta/delta.go:263-289 | goes to the member object, or to a new empty one that replaces what was there, and changes nothing else |
| JsonTrees.Store | internal/common/delta/delta.go:275-282 | stores the last member, or deletes it for null, and changes nothing else |
| JsonTrees.SetKeys | internal/common/delta/delta.go:233-311 | the walk, on any heap, shared objects and cycles included, rewrites exactly the one member at its end and makes the objects missing on its way |
| JsonTrees.RewritesAssign | internal/common/delta/delta.go:233-311 | that rewriting gives the tree of the root the assigned value and no other tree another one |
| JsonTrees.SetJSONValue | internal/common/delta/delta.go:227-313 | parses the field and assigns below the root in place; fails exactly when the field is unreadable or the root is no object |
| JsonTrees.Apply | internal/common/delta/delta.go:43-57 | replays the modifications in order, in place and on any heap, up to the first that fails |
| JsonTrees.ApplyAgrees | internal/common/delta/delta.go:43-57 | on objects that are not shared Apply in place gives what applying the modifications to values gives |
| JsonTrees.RootIsKept | internal/common/delta/delta.go:46-55 | the root object is kept unless a modification replaces it |
| JsonTrees.WalkAssigns | internal/common/delta/delta.go:233-311 | from any object on the way the rest of the walk assigns the rest of the path |
| JsonTrees.EnterMember | internal/common/delta/delta.go:283-285 | going to a member object, only that object is still to be changed |
| JsonTrees.EnterNew | internal/common/delta/delta.go:272-289 | a new object under a key shares nothing with the others |
| JsonTrees.StoreMember | internal/common/delta/delta.go:275-281 | storing another tree as a member keeps all objects unshared and faithful to their values |
| JsonTrees.SharingInPlace | internal/common/delta/delta.go:46-55 | an object that is changed and then also stored as a new member shows its changed value there |
| JsonTrees.SharingOnValues | internal/common/delta/delta.go:46-55 | on values the same two assignments give the new member the first value, so sharing makes a difference |
| LruSpec.EvictKeepsLongestPrefix | internal/cache/memory/lru_ttl.go:119-129 | the survivors are the longest most-recent-first prefix within both limits |
| LruSpec.EntriesAreLatest | internal/cache/memory/lru_ttl.go:63-106 | in every history keys are unique and each entry has value, expiry and size of the latest Set of its key |
| LruSpec.HitIsLatestSet | internal/cache/memory/lru_ttl.go:43-61 | a hit is the latest Set, unexpired, with no later Delete or Clear |
| LruSpec.LimitsAlwaysHold | internal/cache/memory/lru_ttl.go:119-129 | after every history there are at most maxEntries entries, and at most maxBytes bytes if that is positive |
| LruSpec.GetAfterSet | internal/cache/memory/lru_ttl.go:63-95 | a value that fits on its own can be read back exactly until it expires |
| LruSpec.MostRecentFirst | internal/cache/memory/lru_ttl.go:59 | in every history the keys stand in strictly falling order of their last use, a Set or a hit |
| LruSpec.HitSurvivesSet | internal/cache/memory/lru_ttl.go:43-95 | a key that was just hit survives the Set of another key when both entries fit |
| LruSpec.GetKeepsEntries | internal/cache/memory/lru_ttl.go:43-61 | a Get changes no entry and drops only the expired one |
| LruSpec.RemoveKeyBytes | internal/cache/memory/lru_ttl.go:131-142 | removing an entry frees exactly its bytes |
| Lru.LRUTTL.constructor | internal/cache/memory/lru_ttl.go:27-41 | an empty cache with the limits made positive |
| Lru.LRUTTL.MapMatchesList | internal/cache/memory/lru_ttl.go:50-54 | the map finds exactly the entry that the list holds |
| Lru.LRUTTL.RemoveElement | internal/cache/memory/lru_ttl.go:131-142 | unlinks one entry from list, map and counter; the clamp never fires |
| Lru.LRUTTL.Get | internal/cache/memory/lru_ttl.go:43-61 | moves a live entry to the front, drops an expired one, and answers as the entry list does |
| Lru.LRUTTL.Refresh | internal/cache/memory/lru_ttl.go:73-80 | overwrites an element in place and moves it to the front |
| Lru.LRUTTL.EvictLocked | internal/cache/memory/lru_ttl.go:119-129 | the removal loop computes the eviction of the entry list |
| Lru.LRUTTL.Set | internal/cache/memory/lru_ttl.go:63-95 | puts the new entry in front, evicts, and leaves both limits met |
| Lru.LRUTTL.Delete | internal/cache/memory/lru_ttl.go:97-106 | removes the entry of the key and no other |
| Lru.LRUTTL.Clear | internal/cache/memory/lru_ttl.go:108-117 | empties the cache |
| ArtifactSpec.ListingUnique | internal/cache/artifact/memory_store.go:81-89 | the sorted listing is determined by the stored keys |
| ArtifactSpec.ListingUnaffected | internal/cache/artifact/memory_store.go:76-89 | a Put changes only listings whose prefix its new key has |
| ArtifactSpec.SlashesRemoved | internal/cache/artifact/cached_store.go:209-211 | exactly the leading slashes of a path are removed |
| Strings.StringLeMeans | internal/cache/artifact/memory_store.go:88 | names are sorted as in a dictionary: a prefix first, else the first difference decides |
| Transparency.ArgumentsChecked | internal/cache/artifact/memory_store.go:30-39 | blank run ids are rejected first, then blank paths, and nothing else |
| Transparency.KeyMeans | internal/cache/artifact/memory_store.go:40 | white space around run id and path and slashes before the path do not matter; the key is run, slash, name |
| Transparency.PutThenGet | internal/cache/artifact/memory_store.go:25-64 | what was put can be got under its own key, other keys answer as before, and an empty store finds nothing |
| Transparency.RejectedOrRead | internal/cache/artifact/memory_store.go:25-75 | a rejected request and a read store nothing |
| Transparency.ListNames | internal/cache/artifact/memory_store.go:70-90 | a listing holds exactly the names stored under the run, each once, in order |
| Stores.MemoryStore.Put | internal/cache/artifact/memory_store.go:25-42 | stores under the joined key, or rejects a blank argument |
| Stores.MemoryStore.Get | internal/cache/artifact/memory_store.go:44-64 | answers the stored bytes, not found, or rejects a blank argument |
| Stores.MemoryStore.List | internal/cache/artifact/memory_store.go:70-90 | answers the sorted names under the run, whatever the order of the map |
| Stores.CachedStore.Put | internal/cache/artifact/cached_store.go:132-145 | writes through, caches the blob and drops the listing of the run |
| Stores.CachedStore.Get | internal/cache/artifact/cached_store.go:147-164 | answers from the cache, else reads through and caches |
| Stores.CachedStore.List | internal/cache/artifact/cached_store.go:186-207 | answers from the cache, else lists through and caches |
| Transparency.NoInterferenceSuffices | internal/cache/artifact/cached_store.go:132-211 | without interference every response in every history equals that of the plain store |
| Transparency.StaleListing | internal/cache/artifact/cached_store.go:142 | a Put of another run inside a cached listing makes the next List stale |
| Transparency.BlankGetHits | internal/cache/artifact/cached_store.go:147-152 | a Get with a blank argument is answered from the cache where the plain store rejects it |
| Transparency.StaleListingExample | internal/cache/artifact/cached_store.go:142 | run `a` is listed, then run `a/b` stores `c`: the next listing of `a` is stale |
| Transparency.BlankGetExample | internal/cache/artifact/cached_store.go:147-152 | path `/` is stored, then a Get with an empty path answers its content |
| Transparency.TransparentExactly | internal/cache/artifact/cached_store.go:132-211 | for any cache limits, all histories of a workload are transparent exactly when it has no interference |
| Transparency.SlashFreeSuffices | internal/cache/artifact/cached_store.go:209-211 | run ids without a slash and non-blank Gets exclude interference |
| Transparency.ContentsAreCached | internal/cache/artifact/cached_store.go:138-163 | a content that was put or read through is answered from the cache until it expires, if it fits |
| Transparency.ListingsAreCached | internal/cache/artifact/cached_store.go:195-206 | a listing that was read through is answered from the cache until it expires |
| Text.TrimPadded | internal/cache/artifact/cached_store.go:209-211 | trimming takes away exactly the white space at both ends |
| WordIndex.Index.Build | internal/common/wordidx/indexer.go:42-85 | the one-pass loop collects, in order, one word per maximal run that holds a start-rune, from the first one to the end, with its line |
| WordIndex.TakeWord | internal/common/wordidx/indexer.go:64-79 | the inner loop takes exactly the word that starts at the cursor |
| WordIndex.WordsAre | internal/common/wordidx/indexer.go:42-85 | the words in order of position: one for each place where a word starts, with its text and one more than the number of newlines before it as line |
| WordIndex.WordRunes | internal/common/wordidx/indexer.go:46-47 | which runes a word starts with, goes on with and stops at |
| WordIndex.NewlinesCount | internal/common/wordidx/indexer.go:52-57 | the line counter is the number of newlines before the position |
| WordIndex.Index.Add | internal/common/wordidx/indexer.go:87-97 | keeps every posting list equal to the indices of the words with that hash |
| WordIndex.Index.Find | internal/common/wordidx/indexer.go:100-114 | answers the lines of a plain filter of the words, for every hash function |
| WordIndex.LinesAre | internal/common/wordidx/indexer.go:100-114 | the plain filter gives the line of each occurrence, in order of the words |
| WordIndex.AggIndex.IndexOne | internal/common/wordidx/indexer.go:461-482 | appends the words of one file, or notes a failure |
| WordIndex.AggIndex.Find | internal/common/wordidx/indexer.go:434-447 | answers all postings under the hash, nothing after a failure |
| WordIndex.AggFindExact | internal/common/wordidx/indexer.go:434-447 | that answer is the exact occurrences precisely when no other indexed word has the same hash |
| WordIndex.TextRefsAre | internal/common/wordidx/indexer.go:474-481 | the exact positions in a file are its lines under its path |
| WordIndex.FilesTogether | internal/common/wordidx/indexer.go:473-481 | postings are contiguous and in order per file |
| WordIndex.OrderOfFiles | internal/common/wordidx/indexer.go:472-481 | the postings do not depend, as a multiset, on the order in which files were indexed |
| Uids.UIDGenerator.Generate | internal/common/utils/uid.go:36-60 | terminates with a name never used: the base, or the base with the first free number above the last one given |
| Uids.UIDGenerator.GenerateForKey | internal/common/utils/uid.go:64-79 | the name of a known key is repeated, a new key gets the base name of the id, or that with a number if it is taken, and different keys never share a name |
| Uids.DecimalInjective | internal/common/utils/uid.go:52 | different numbers print differently |
| Uids.DecimalReadsBack | internal/common/utils/uid.go:52 | a numeral reads back to its number and has no leading zero |
| Uids.TakenShrinks | internal/common/utils/uid.go:50-55 | each taken candidate is met only once, so the search ends |
| GraphUids.RenameNode | internal/common/utils/graph_uid.go:27-53 | gives a node the name that the generator has for its key, or a new one made from its seed, and counts its id |
| GraphUids.RenameNodes | internal/common/utils/graph_uid.go:24-58 | the nodes get their names one after the other; generator and table are what that leaves |
| GraphUids.RenameEdges | internal/common/utils/graph_uid.go:60-70 | each edge end follows the table, or stays |
| GraphUids.AssignGraphNodeUIDs | internal/common/utils/graph_uid.go:17-73 | renames nodes and edges in place; the new uids are pairwise different exactly when no id reads like the numbered form of a repeated id; the table maps each id to the name of its last node |
| GraphUids.NewNamesMean | internal/common/utils/graph_uid.go:31-54 | a node with a new key gets the base name of its trimmed uid, else of its trimmed label, else of `node-` and its position from one, with a number if that is taken; its name was never taken before |
| GraphUids.NamesAreStable | internal/common/utils/graph_uid.go:52-53 | a node whose key the generator knows gets the name it had before |
| GraphUids.SameKeyExactly | internal/common/utils/graph_uid.go:39-50 | nodes of one or two views have the same key exactly with the same id as the same occurrence, or with no id, the same position and label |
| GraphUids.LastIsLast | internal/common/utils/graph_uid.go:55-57 | the node whose name the table holds is the last one with its id |
| GraphUids.RenamingInjectiveExactly | internal/common/utils/graph_uid.go:39-53 | the uids are pairwise different exactly when no node has an id that equals a repeated id, a `#` and the number of a later occurrence |
| GraphUids.DistinctKeysExactly | internal/common/utils/graph_uid.go:39-50 | two nodes share a key exactly when there is such an id |
| GraphUids.NumberReadsBack | internal/common/utils/graph_uid.go:45-47 | an id with a number reads back to the id and the number |
| GraphUids.DistinctIDsDistinctKeys | internal/common/utils/graph_uid.go:39-50 | distinct non-blank ids, with any number of blank ones, give distinct keys |
| GraphUids.RepeatedIDCollides | internal/common/utils/graph_uid.go:41-47 | an instance: a repeated id collides with an id that ends in its number |
| GraphUids.EdgesFollowNodes | internal/common/utils/graph_uid.go:60-70 | with distinct ids an edge end that is the trimmed id of a node is carried to the new name of that node; an end that repeats a uid with blanks around it stays |
| GraphUids.EdgeEndsWithoutNodeStay | internal/common/utils/graph_uid.go:60-70 | an edge end with blanks around it, or that is the id of no node, stays as it is |

## Left out

- Scheduler: goroutines and channels (a completion is an arbitrary choice among the chunks in flight), nil checks of the parameters, the permit broker beyond its failing, and the error text.
- Scheduler: integer overflow of weight sums; weights are unbounded integers and non-negative only where a lemma says so.
- JsonTrees.SetJSONValue: a field with an array index is reported as outside the model; arrays are values, because plain keys never lead into one.
- JsonTrees.ApplyAgrees: on shared objects Apply in place is proved step by step only, because its result then differs from the values, as SharingInPlace and SharingOnValues show.
- Delta: normalisation of Go structs and raw messages, NaN, and the text of errors; numbers are real numbers.
- DeltaApply.DiffApplyIdentity: keys that a dotted field cannot carry are excluded by AllReadable; FieldPointsBack says exactly which they are and DottedKeyIsMisread shows why.
- Lru: mutexes; each operation is atomic and reads the clock once.
- Stores.CachedStore.Get: defensive copies of byte slices are not visible, because contents are values.
- Stores: GetURL with its cache, metrics, nil receivers and configuration defaults.
- WordIndex.Index.Build: starts from decoded runes, not bytes, and keeps no column counter, which the code never stores.
- WordIndex: Builder, file scanning, worker pools and waiting; indexing one file is atomic.
- Uids: the slug and hash text of the base name.
- GraphUids.AssignGraphNodeUIDs: assumes that no node or edge object occurs twice in the view; nil receivers and a nil generator are not modelled.
- Stores.CachedStore.List: the plain store answers an empty run with an empty slice and the cached store with nil; the model does not tell the two apart.
- The project, uiworkspace and ui stores, the disk stores, directory scanning, HTTP, LLM clients and generated code are not part of this model.
