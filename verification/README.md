# myctk: verified models of the allocator, the hash table and the graph engine

The project models the three parts of myctk whose correctness no finite set of
examples settles, and proves what they are for.

**The mspace allocator** (`cmod/malloc.cpp`), on one fixed segment.
`Bits`, `BinMaps` and `MallocIndex` hold the bit tricks that map sizes to bins and
find the next nonempty one. `MallocTrie` is the value of a tree bin, `MallocTree`
and `MallocUnlink` its pointer form, `TreeBins` the 32 tree bins with insertion,
unlinking and best-fit search over pointers, `BestFit` the argument that the search
is exact, `SmallBins` the small bins and their rings. `MallocHeap` is the boundary-tag
layout of a segment and what each change of tags does to it; `MSpace` puts bins, designated
victim, top chunk and usage counter together into `mspace_malloc` and `mspace_free`;
`MSpaceRuns` creates an mspace and runs any session of requests and releases on it.
The main results: a request is served by the least binned chunk that fits, by the
designated victim or by the top chunk, in an order that depends on its size, and what
remains goes where it should; a freed chunk becomes one with the free chunks it
touches; every run keeps the heap invariant; live payloads are disjoint, aligned, large
enough, inside the caller's buffer and clear of the allocator's own state; the usage
counter is the sum of the live chunks (`MSpaceRuns.RunIn` says all of it at once).

**The robin-hood hash table** (`cmod/cmod_robin_hood.hpp`), on its two arrays.
`RobinHoodLayout` is the probe invariant and what an insertion, an erasure and a
rescale of the info bytes do to it; `RobinHood` is the class; `RobinHoodCrowd` says
from the keys' hashes alone how far from home a table puts its elements, and
`RobinHoodLoss` is a table that loses one. The main result is that any sequence of operations that does not throw leaves the table standing for
the finite map the operations describe, for every hash function, that no info byte
ever overflows, that the retry loop of an insertion ends, and that a traversal is
exact.

**The didagle engine** (`didagle/`). `DagTables`, `DagCircle` and `DagBuild` build
a graph from named vertices, declared edges and data; `DagHang` says exactly when the
search for circles ends, `DagTaken` what becomes of a graph with a taken name; `DagGraph` is what a built
graph means, by recursion and without a schedule; `DagEngine` runs it as an
interleaving of atomic actions of any number of threads, a slot write and the
counter decrement after it being two actions; `DagRun` joins the two, and
`DagDeclared` says from the declarations alone which edges a graph has, what each
accepts, and what a run's results must then be. The main
results hold for every interleaving: each vertex executes exactly once and finds its
dependencies' final results, the done closure is called exactly once and when
nothing is left to do, every run ends, and the results are those of the recursive
meaning. `DataContext` is the lookup through possibly circular contexts, which gives
what a plain search without a shared exclude set would give,
`ContextPool` the pool of cluster contexts with its recursive reset, and `PoolRuns`
any sequence of operations on the pool.

`Collections` holds the few facts about sequences and sets that several parts use.

Code that updates state is a class or a method here, and each method is proved
against a value-level specification; the concurrent protocol is a step relation on
values. Where something the code is meant to do fails, an input shows it and the
condition under which it holds is stated for all inputs:

- A size from 2^40 on may land in the wrong tree bin: `MallocIndex.TreeIndexExact`.
- Some capacities that are accepted leave no sound heap: `MSpaceRuns.Create`, with
  the inputs `MSpaceRuns.UnusableCapacities` and `MSpaceRuns.MisreadTop`.
- A generated vertex id that is already taken hides a declared vertex, and the graph
  is built all the same: `DagTables.TableComplete`, with the inputs
  `DagTaken.HidesVertex` and the consequence `DagTaken.HiddenNeverDone`.
- The circle search ends in every order of the unordered sets it goes through if and
  only if no walk from a vertex, past vertices that do not lead straight back to it,
  comes to a vertex twice: `DagHang.TestEndsExactly`, with the input
  `DagCircle.LassoHangs`.
- A rehash moves all elements if and only if the keys of no proper prefix, in slot
  order, crowd the new buckets (some stretch of l buckets being home to l + 126 of
  them); otherwise exactly the elements before the first such slot survive:
  `RobinHood.Table.RehashPowerOfTwo`, with the input `RobinHoodLoss.LosesOne`. Up to
  127 elements are always moved: `RobinHoodCrowd.FewMove`.

## Model

| member | source | states |
|---|---|---|
| `Bits.HalveWordBytes` | cmod/cmod_robin_hood.hpp:1954-1959 | one shift by one bit and one mask with 0x7f in every byte halve all eight bytes of a word, none spilling into its neighbour |
| `Bits.BytesRoundTrip` | cmod/cmod_robin_hood.hpp:1954-1959 | taking a little-endian word apart into bytes gives back the bytes it was made of |
| `Bits.LeadingZeroBytes` | cmod/cmod_robin_hood.hpp:1118-1130 | trailing zero bits divided by eight is the position of the first nonzero byte of a word, and eight if there is none |
| `RobinHoodLayout.ProbeReaches` | cmod/cmod_robin_hood.hpp:1159-1170 | between a stored key's home and its slot every info byte is at least the one a probe for it carries there, so no early exit can miss it |
| `RobinHoodLayout.ProbeStops` | cmod/cmod_robin_hood.hpp:1215-1234 | a probe that meets a smaller info byte is for a key that is not stored, and this is where the key belongs |
| `RobinHoodLayout.ProbeHits` | cmod/cmod_robin_hood.hpp:1215-1234 | at a stored key's slot the info byte equals the probe's, so comparing only equal bytes is enough |
| `RobinHoodLayout.InsertKeepsLayout` | cmod/cmod_robin_hood.hpp:1242-1284 | shifting up to the next raw slot and writing where the probe stopped keeps the probe invariant and adds exactly that pair, around the wrap too |
| `RobinHoodLayout.EraseKeepsLayout` | cmod/cmod_robin_hood.hpp:1192-1210 | shifting displaced followers back keeps the probe invariant and removes exactly that key |
| `RobinHoodLayout.RescaleKeepsLayout` | cmod/cmod_robin_hood.hpp:1940-1962 | halving all info bytes is the layout of the same pairs for one hash bit less |
| `RobinHoodLayout.InsertKeepsTable` | cmod/cmod_robin_hood.hpp:1886-1938 | an insertion below the load limit keeps the whole table invariant, with the growth limit possibly set to zero |
| `RobinHoodLayout.EraseKeepsTable` | cmod/cmod_robin_hood.hpp:1642-1677 | an erasure keeps the table invariant with one element less |
| `RobinHoodLayout.RescaleKeepsTable` | cmod/cmod_robin_hood.hpp:1940-1962 | a rescale re-establishes the invariant with room for one more distance unit in every byte |
| `RobinHoodLayout.InsertionByteFits` | cmod/cmod_robin_hood.hpp:1245-1264 | while the growth limit is positive the byte a probe stops with fits in eight bits, whatever the hash |
| `RobinHoodLayout.AllowedBelowSize` | cmod/cmod_robin_hood.hpp:1738-1745 | the load limit is below the number of buckets, so a raw slot remains |
| `RobinHoodLayout.AllowedIs` | cmod/cmod_robin_hood.hpp:1738-1745 | the load limit is the percentage of the buckets rounded down, and short of it by at most the percentage for sizes too large to be multiplied by 100 |
| `RobinHoodLayout.AllowedGrows` | cmod/cmod_robin_hood.hpp:1738-1745 | doubling the buckets never lowers the load limit, across the change of formula |
| `RobinHoodLayout.GrowthIsBounded` | cmod/cmod_robin_hood.hpp:1964-1986 | doubling happens only below a bucket count fixed by the element count, which bounds the retries |
| `RobinHoodLayout.KeysOfSlots` | cmod/cmod_robin_hood.hpp:1600-1632 | ascending occupied slots hold as many different keys as there are slots |
| `RobinHoodLayout.HasRaw` | cmod/cmod_robin_hood.hpp:1738-1745 | fewer keys than slots leave a raw slot for every probe to stop at |
| `RobinHoodCrowd.DisplacedExactly` | cmod/cmod_robin_hood.hpp:1175-1190 | in every layout some element is d or more slots from home if and only if some stretch of l buckets is home to at least l + d keys |
| `RobinHoodCrowd.CrowdedIsDisplaced` | cmod/cmod_robin_hood.hpp:1175-1190 | one half: crowded keys need distance, by counting slots |
| `RobinHoodCrowd.DisplacedIsCrowded` | cmod/cmod_robin_hood.hpp:1175-1190 | the other half: the run of slots up to a displaced element holds keys at home before its own home only |
| `RobinHoodCrowd.FullExactly` | cmod/cmod_robin_hood.hpp:1242-1250 | with no hash bit left and a byte at its limit the table cannot take another element, and that is so if and only if its keys crowd by 126 |
| `RobinHoodCrowd.FewMove` | cmod/cmod_robin_hood.hpp:1774-1796 | up to 127 elements can be moved to any number of buckets, whatever the hash |
| `RobinHood.PickSize` | cmod/cmod_robin_hood.hpp:1685-1702 | the least power of two from 8 on whose load limit reaches the request, or zero exactly when doubling leaves the word first |
| `RobinHood.MaskNext` | cmod/cmod_robin_hood.hpp:1159-1163 | adding one and masking is the cyclic successor |
| `RobinHood.MaskPrev` | cmod/cmod_robin_hood.hpp:1175-1190 | subtracting one in 64 bits and masking is the cyclic predecessor |
| `RobinHood.Table.constructor` | cmod/cmod_robin_hood.hpp:1807-1825 | a new table is valid and stands for the empty map |
| `RobinHood.Table.KeyToIdx` | cmod/cmod_robin_hood.hpp:1145-1157 | home slot and info byte of a key at distance zero |
| `RobinHood.Table.FindIdx` | cmod/cmod_robin_hood.hpp:1215-1234 | the slot that holds the key and its value if it is in the map, the end position if and only if it is not |
| `RobinHood.Table.NextWhileLess` | cmod/cmod_robin_hood.hpp:1165-1170 | the probe skips the richer slots without passing the key's slot or a raw one |
| `RobinHood.Table.ShiftUp` | cmod/cmod_robin_hood.hpp:1175-1190 | every slot from the insertion point to the start moves one on with its byte grown by one unit, and the growth limit drops to zero only if some byte is then at its limit |
| `RobinHood.Table.ShiftDown` | cmod/cmod_robin_hood.hpp:1192-1210 | exactly the run of displaced followers moves one back, bytes shrunk by one unit, and the last slot becomes raw |
| `RobinHood.Table.EraseAt` | cmod/cmod_robin_hood.hpp:1642-1657 | erasing at a position removes exactly the key there from the map and ends on the next element: in the same slot if one was shifted back into it, else in the next occupied one, or at the end |
| `RobinHood.Table.Erase` | cmod/cmod_robin_hood.hpp:1659-1677 | erasing a key removes it from the map and returns 1 if it was there, 0 and no change otherwise |
| `RobinHood.Table.Locate` | cmod/cmod_robin_hood.hpp:1659-1677 | the search of erase finds the key's slot if and only if it is stored |
| `RobinHood.Table.Seek` | cmod/cmod_robin_hood.hpp:1886-1938 | the search before an insertion finds the key if stored, and otherwise stops where it belongs |
| `RobinHood.Table.SeekNew` | cmod/cmod_robin_hood.hpp:1242-1284 | for a key known to be new, skipping bytes that are not smaller ends where it belongs |
| `RobinHood.Table.Place` | cmod/cmod_robin_hood.hpp:1854-1877 | writing an absent key at that place adds exactly that pair |
| `RobinHood.Table.InsertMove` | cmod/cmod_robin_hood.hpp:1242-1284 | moving one element in adds it to the map, or changes nothing, and it fails if and only if the keys already there crowd the buckets |
| `RobinHood.Table.HalveWord` | cmod/cmod_robin_hood.hpp:1957-1959 | one word step of the rescale halves its eight info bytes and touches no other |
| `RobinHood.Table.HalveAll` | cmod/cmod_robin_hood.hpp:1954-1959 | the whole loop halves the byte of every slot and not the sentinel |
| `RobinHood.Table.TryIncreaseInfo` | cmod/cmod_robin_hood.hpp:1940-1962 | it succeeds if and only if a hash bit is left, halves the increment, restores the growth limit and leaves the map unchanged |
| `RobinHood.Table.InitData` | cmod/cmod_robin_hood.hpp:1807-1825 | fresh arrays of the given power of two, standing for the empty map, with the sentinel in place |
| `RobinHood.Table.RehashPowerOfTwo` | cmod/cmod_robin_hood.hpp:1774-1796 | it succeeds with the same map if and only if there is memory and no proper prefix of the elements, in slot order, crowds the new buckets; if one does, exactly the elements before the first such slot are left |
| `RobinHood.Table.IncreaseSize` | cmod/cmod_robin_hood.hpp:1964-1986 | the map is unchanged and either the table has doubled below the growth bound or a hash bit was given up, the measure by which retrying ends; each way to fail says what it came up against |
| `RobinHood.Table.InsertRetry` | cmod/cmod_robin_hood.hpp:1886-1938 | the while(true) shared by insert and operator[] ends for every hash and every table: the key is found, inserted, or growing fails |
| `RobinHood.Table.DoInsert` | cmod/cmod_robin_hood.hpp:1886-1938 | the pair is added if the key was new and the old value kept otherwise; overflow at the load limit leaves the map unchanged, and overflow while moving needs more than 127 elements |
| `RobinHood.Table.DoCreateByKey` | cmod/cmod_robin_hood.hpp:1828-1882 | operator[] ends at the key's slot, having added the default value exactly if the key was new |
| `RobinHood.Table.Clear` | cmod/cmod_robin_hood.hpp:1454-1471 | the map becomes empty, the buckets and the growth limit stay |
| `RobinHood.Table.Reserve` | cmod/cmod_robin_hood.hpp:1685-1702 | the map is unchanged, the load limit covers the request and half the buckets would not; it throws only if no power of two covers it, no memory is left or more than 127 elements do not move |
| `RobinHood.Table.FastForward` | cmod/cmod_robin_hood.hpp:1117-1131 | eight bytes at a time, an iterator reaches the first nonzero info byte and never skips the sentinel |
| `RobinHood.Table.Traverse` | cmod/cmod_robin_hood.hpp:1600-1632 | from begin() to end() every occupied slot is visited once, in order, and there are as many as keys |
| `RobinHood.Table.Perform` | cmod/cmod_robin_hood.hpp:1642-1702 | each operation does to the table what it does to a finite map |
| `RobinHood.Table.Run` | cmod/cmod_robin_hood.hpp:1145-1986 | any sequence of operations leaves the map obtained by applying them one after another to a finite map, up to the first that throws |
| `RobinHoodLoss.LosesOne` | cmod/cmod_robin_hood.hpp:1964-1986 | a valid table of 128 elements in 256 buckets, 127 of which share a hash, whose next insertion has to double the buckets and cannot move its last element |
| `DagGraph.RankGrows` | didagle/graph.cpp:59-68 | without circles every edge goes up in rank, the order all inductions follow |
| `DagGraph.HasStart` | didagle/graph_executor.cpp:497-502 | a graph fit to run has a vertex without dependencies |
| `DagGraph.MatchDependencies` | didagle/graph_executor.cpp:358-415 | the loop over result and mask bits passes if and only if every slot is set and its result is one the mask accepts |
| `DagGraph.MatchConfig` | didagle/graph_executor.cpp:376-399 | the configuration variable has to be true, or not to be if it is negated; a missing one counts as false |
| `DagGraph.RunVertex` | didagle/graph_executor.cpp:257-357 | a processor whose inputs are not injected is skipped, one whose errors are ignored gives zero unless it is a condition, and otherwise the code is that of the processor or the subgraph |
| `DagGraph.Execute` | didagle/graph_executor.cpp:358-415 | the code is zero if and only if there is something to run, every dependency's result is one its mask accepts, the configuration holds in time, and what is run succeeds; a dependency that does not match means skip |
| `DagGraph.DecideExactly` | didagle/graph_executor.cpp:358-415 | a vertex ends well if and only if that condition holds |
| `DagTables.GenIdInjective` | didagle/graph.cpp:26-30 | two generated ids of one graph differ if their numbers do |
| `DagTables.CondKeeps` | didagle/graph.cpp:31-42 | adding a generated condition vertex, under the number that is its turn, keeps the naming tables sound |
| `DagTables.PlaceKeeps` | didagle/graph.cpp:71-164 | naming one more vertex keeps the tables: one node per id, one producer per data id, conditions resolved |
| `DagTables.TableComplete` | didagle/graph.cpp:31-42 | every vertex is in the table under its id if and only if, as declared, no vertex goes by the name a condition vertex is given |
| `DagTables.CondNamesDiffer` | didagle/graph.cpp:26-30 | two condition vertices never share a name |
| `DagTables.TakenName` | didagle/graph.cpp:31-42 | a declared vertex that goes by the name of a condition vertex is in no table |
| `DagTables.DependKeeps` | didagle/graph_vertex.cpp:185-193 | one Depend keeps successor sets, dependency indices and masks in step: indices are a bijection onto 0..n-1, and a pair is linked if and only if it was declared, with the mask of the first declaration |
| `DagTables.GraphMirrored` | didagle/graph_executor.cpp:149-161 | the successor lists and indices handed to the executor mirror the dependency lists |
| `DagTables.GraphDeclared` | didagle/graph_vertex.cpp:185-193 | a vertex depends on exactly the declared vertices, each once, with the mask declared first |
| `DagCircle.FindExact` | didagle/graph_vertex.cpp:15-28 | whenever the search returns, it is right in both directions about reachability |
| `DagCircle.FindEnds` | didagle/graph_vertex.cpp:15-28 | without circles the search ends within as many nested calls as there are vertices |
| `DagCircle.TestCircle` | didagle/graph.cpp:59-68 | Yes means a circle through a table entry, No means none, and an acyclic graph always gets No, in any order of the table |
| `DagCircle.LassoHangs` | didagle/graph_vertex.cpp:15-28 | the input 0 -> 1, 1 -> 2, 2 -> 1: searching from 0 for 0 exceeds every depth |
| `DagHang.SearchEndsExactly` | didagle/graph_vertex.cpp:15-28 | the search from v for v ends in every order of the successor sets if and only if no walk from v, past vertices that do not have v next, comes to a vertex twice |
| `DagHang.DepthEnough` | didagle/graph_vertex.cpp:15-28 | and then as many nested calls as there are vertices are enough |
| `DagHang.RoundLists` | didagle/graph_vertex.cpp:15-28 | otherwise there is an order of the successor sets in which it exceeds every depth |
| `DagHang.TestEndsExactly` | didagle/graph.cpp:59-68 | TestCircle ends in every order of the successor sets and of the vertex table if and only if that holds for every vertex of the table |
| `DagBuild.Builder.constructor` | didagle/graph.cpp:69-70 | a builder starts with empty tables |
| `DagBuild.Builder.Identify` | didagle/graph.cpp:72-83 | a vertex gets the processor and the name that its place among the declared ones gives it |
| `DagBuild.Builder.GenerateCond` | didagle/graph.cpp:99-110 | a condition not seen before gets a generated vertex, and the tables stay sound |
| `DagBuild.Builder.AddExpected` | didagle/graph.cpp:99-113 | a vertex with an expectation comes to depend, on success, on the one vertex generated for that condition |
| `DagBuild.Builder.AddOutputs` | didagle/graph.cpp:131-145 | output ids get this vertex as their one producer; failure means an output without a field or an id with two producers |
| `DagBuild.Builder.NameVertex` | didagle/graph.cpp:71-164 | the tables cover one more vertex, or its settings are unknown, an input has no field, the name that is its own is taken or its outputs clash |
| `DagBuild.Builder.FindVertexById` | didagle/graph.cpp:51-58 | found if and only if the id is a node's, and then that node |
| `DagBuild.Builder.FindVertexByData` | didagle/graph.cpp:43-50 | found if and only if some vertex produces the id, and then its producer |
| `DagBuild.Builder.Depend` | didagle/graph_vertex.cpp:185-193 | the edge tables stay sound for the declarations so far and this one |
| `DagBuild.Builder.BuildDeps` | didagle/graph_vertex.cpp:205-215 | succeeds if and only if every name is known, having declared exactly those dependencies |
| `DagBuild.Builder.BuildSuccessors` | didagle/graph_vertex.cpp:194-204 | the same with the direction reversed |
| `DagBuild.Builder.BuildInput` | didagle/graph_vertex.cpp:249-279 | succeeds if and only if every source that is not external has a producer, having declared a dependency on each producer but the vertex itself |
| `DagBuild.Builder.BuildVertex` | didagle/graph_vertex.cpp:221-282 | succeeds if and only if all names of the vertex resolve, having made exactly the calls of Depend its lists and inputs give rise to, in order; `DagDeclared` says what these are in terms of the declarations |
| `DagBuild.Builder.BuildEdges` | didagle/graph.cpp:165-176 | declares exactly what all vertices declare, or some name does not resolve |
| `DagBuild.Builder.VerifyVertex` | didagle/graph_vertex.cpp:90-103 | holds if and only if a start vertex declares no dependency and any other has an edge |
| `DagBuild.Builder.SetupSuccessors` | didagle/graph_executor.cpp:149-161 | each successor gets this vertex's index among its dependencies; it aborts if and only if a successor is in no table |
| `DagBuild.Builder.Circles` | didagle/graph.cpp:59-68 | with fresh names, No means the graph is fit to run; Yes means it is not; with enough stack it does not end only if some walk goes round |
| `DagBuild.Builder.Build` | didagle/graph.cpp:69-198 | a build that succeeds leaves a mirrored, acyclic, nonempty graph if the declared names are fresh and a hidden vertex if they are not; each rejection states its reason; not ending means a walk that goes round or a stack smaller than the graph |
| `DagEngine.InitialInv` | didagle/graph_executor.cpp:515-522 | the state after Reset, with the start vertices dispatched, satisfies the protocol invariant |
| `DagEngine.ActKeeps` | didagle/graph_executor.cpp:523-602 | every action of every thread keeps the protocol invariant |
| `DagEngine.SlotsFinal` | didagle/graph_executor.h:84-93 | once a vertex is no longer waiting, each of its slots holds its dependency's final result, which is its meaning |
| `DagEngine.DecidesMeaning` | didagle/graph_executor.cpp:358-415 | what Execute decides from the slots is what the recursive meaning says |
| `DagEngine.PerformExec` | didagle/graph_executor.cpp:358-415 | the engine's action is a call of Execute on the vertex's slots |
| `DagEngine.OkExactly` | didagle/graph_executor.cpp:358-415 | in every reachable state, a vertex that has finished is good if and only if it has a processor or a subgraph, each dependency's result is one its mask accepts, its configuration variable holds in time, and its processor (injected, with code zero or errors ignored) or subgraph (with code zero) succeeded |
| `DagEngine.StillWaiting` | didagle/graph_executor.h:84-93 | between the slot write and its decrement the successor is still waiting and its counter positive, so the 32-bit counter never wraps |
| `DagEngine.ReadyToExecute` | didagle/graph_executor.cpp:523-570 | a vertex about to execute has not executed, and its slots hold the final results of dependencies that have executed and emitted |
| `DagEngine.LastJoin` | didagle/graph_executor.cpp:571-602 | the vertex whose join decrement returns 1 has no successors and every other vertex has joined, so its early return loses nothing |
| `DagEngine.FiresQuiescent` | didagle/graph_executor.cpp:571-602 | when the closure is called no other thread has a vertex to run, a slot to write or a counter to decrement |
| `DagEngine.SafeState` | didagle/graph_executor.cpp:523-602 | no vertex executes twice, no result differs from its meaning, the closure is called at most once and only when every vertex has a result |
| `DagEngine.ActDecreases` | didagle/graph_executor.cpp:523-602 | every action uses up some of a finite amount of work |
| `DagEngine.RunBounded` | didagle/graph_executor.cpp:523-602 | every run is bounded in length and keeps the invariant, whatever the interleaving |
| `DagEngine.NoneWaits` | didagle/graph_executor.cpp:571-602 | if no thread has anything to do, no vertex is left waiting: there is no deadlock |
| `DagEngine.StuckIsDone` | didagle/graph_executor.cpp:571-602 | and every vertex has executed once with its meaning as result, and the closure has been called once |
| `DagEngine.RunSafe` | didagle/graph_executor.cpp:358-602 | all safety statements together for the last state of every run |
| `DagEngine.CompleteRun` | didagle/graph_executor.cpp:358-602 | every run that cannot go on has executed each vertex exactly once, called the closure exactly once and left the recursive meaning as results |
| `DagEngine.CompleteExactly` | didagle/graph_executor.cpp:358-602 | the same at the end of every run, over the results the run ends with |
| `DagEngine.SameResults` | didagle/graph_executor.cpp:358-602 | two complete runs, of any interleavings and start orders, leave the same results |
| `DagRun.ProducerDeclared` | didagle/graph_vertex.cpp:249-279 | building declares a dependency on the producer of every input and aggregate id |
| `DagRun.ProducerBeforeConsumer` | didagle/graph_executor.cpp:176-267 | in every run of a built graph, when a vertex is about to inject inputs, each other vertex that produces one of them has finished and, if successful, emitted |
| `DagRun.BuiltRunsComplete` | didagle/graph.cpp:69-198 | a built graph has a start vertex, its runs are bounded, and they end only with every vertex executed and the closure called |
| `DagDeclared.ResolvedLists` | didagle/graph_vertex.cpp:216-219 | after naming, the success list of a vertex holds its successor_on_ok and consequent, the failure list its successor_on_err and alternative, and deps_on_ok also the vertex of the condition it expects |
| `DagDeclared.CondLists` | didagle/graph.cpp:99-109 | the vertex generated for a condition waits for the first expecting vertex's expect_deps, or if there are none for what that vertex waits for, on the same terms |
| `DagDeclared.InPart` | didagle/graph_vertex.cpp:221-282 | a list or input makes a call of Depend if and only if the declarations ask for it: deps and successor accept any result, the success lists and required inputs only success, the failure lists only failure |
| `DagDeclared.EdgesAsDeclared` | didagle/graph_vertex.cpp:221-282 | in a built graph a vertex waits for another if and only if some declaration of either asks for it, and accepts what the first such declaration says |
| `DagDeclared.ListMeans` | didagle/graph_vertex.cpp:233-250 | a name on one of the six lists leads to the vertex of that name, and if nothing asks otherwise for the pair, the one that depends on the other has exactly the mask of that list |
| `DagDeclared.InputMeans` | didagle/graph_vertex.cpp:251-279 | a vertex waits for the one that outputs a datum it takes, for its success if the input is required and for any result otherwise |
| `DagDeclared.ExpectMeans` | didagle/graph.cpp:99-113 | a vertex that expects a condition waits for the success of the vertex generated for it |
| `DagDeclared.RunsAsDeclared` | didagle/graph_executor.cpp:358-602 | at the end of every run of a built graph, a vertex that is good had success of those the declarations let it accept only on success, and failure of those only on failure |
| `DagDeclared.FollowersRun` | didagle/graph_executor.cpp:358-602 | a vertex named only in another's successor_on_ok or consequent ends well only if that one did, one named only in its successor_on_err or alternative only if that one failed |
| `DagTaken.Stalls` | didagle/graph_executor.cpp:523-602 | while a vertex has not executed, nothing it leads to has executed, joined or got a result |
| `DagTaken.HiddenNeverDone` | didagle/graph_executor.cpp:429-447 | so a run without a context for that vertex never gets to call the closure if something waits for it |
| `DagTaken.HidesVertex` | didagle/graph.cpp:99-120 | for every graph name, two vertices, one with the graph's name and _0, the other expecting a condition: the build succeeds and the first is in no table |
| `DataContext.Lookup` | didagle/graph_processor_api.h:180-248 | sharing one exclude set among the nested calls gives the answer of the plain search that knows only the way to each context; own entry, parent, container and children come in that order; no hit means everything newly excluded was searched with all its neighbours |
| `DataContext.FirstDead` | didagle/graph_processor_api.h:180-248 | contexts without a hit and without a way out change no answer of the plain search, so excluding them is safe |
| `DataContext.ViaDead` | didagle/graph_processor_api.h:180-248 | a way to a hit never passes through such contexts |
| `DataContext.SearchedAll` | didagle/graph_processor.cpp:67-107 | if the search found nothing, every reachable context was searched and holds nothing |
| `DataContext.GetValue` | didagle/graph_processor.cpp:67-107 | on every finite, possibly circular net it ends, visits no context twice, and finds an entry if and only if a reachable context has one; its own entry comes first, then one to be reached through the parent, then one through the first child slot that leads to any; no context with an entry is visited but the one it ends at |
| `DataContext.Get` | didagle/graph_processor_api.h:180-248 | the same for non-null values; where the options ask for the container it answers after the context itself and what the parent leads to, and before the children; otherwise it answers only below a child |
| `ContextPool.BelowStep` | didagle/graph_executor.cpp:120-145 | a context is below another if and only if it is held by it or by one below it |
| `ContextPool.ReturnKeeps` | didagle/graph_executor.cpp:120-145 | releasing a reset subgraph context keeps every context in exactly one place |
| `ContextPool.HoldKeeps` | didagle/graph_executor.cpp:358-364 | so does a vertex acquiring one |
| `ContextPool.ServeKeeps` | didagle/graph.cpp:427-443 | so does a request taking one |
| `ContextPool.MintKeeps` | didagle/graph.cpp:316-324 | so does making a new one |
| `ContextPool.WholeReset` | didagle/graph_executor.cpp:656-669 | resetting all vertices and the join counter is resetting the context |
| `ContextPool.Manager.constructor` | didagle/graph.cpp:316-324 | no contexts, empty pools |
| `ContextPool.Manager.ResetVertex` | didagle/graph_executor.cpp:120-145 | the vertex is as before a run, and exactly the contexts acquired through it are back in their pools |
| `ContextPool.Manager.Reset` | didagle/graph_executor.cpp:656-669 | exactly the contexts below this one return, each once and fresh; its own counters and slots are as before a run; a second reset changes nothing |
| `ContextPool.Manager.GetContext` | didagle/graph.cpp:316-324 | the first pooled context, or a new one as if it had been pooled |
| `ContextPool.Manager.Serve` | didagle/graph.cpp:404-447 | a request gets a context nobody else has, in the initial protocol state, and no other context moves |
| `ContextPool.Manager.Acquire` | didagle/graph_executor.cpp:358-364 | a vertex keeps the context it has, or gets a fresh one of its own |
| `ContextPool.Manager.Start` | didagle/graph_executor.cpp:638-655 | the graph that runs already, or the named graph in its initial protocol state; false if there is none |
| `ContextPool.Manager.Progress` | didagle/graph_executor.cpp:704-751 | whatever a run writes into counters, slots and results, every context stays in its one place |
| `ContextPool.Manager.Finish` | didagle/graph.cpp:325-328 | the request's context and all that its run acquired are back in their pools, fresh; all others are untouched |
| `PoolRuns.PlaceRead` | didagle/graph.cpp:316-328 | where a context is can be read off the pools and the vertices that hold one |
| `PoolRuns.Perform` | didagle/graph.cpp:404-447 | a request, a graph start, a nested call, a write or an end has its effect and concerns no other context, a nested call getting the context the vertex has or a fresh one of the cluster it names; a step that does not apply changes nothing |
| `PoolRuns.Run` | didagle/graph.cpp:404-447 | after any sequence of steps, and at every moment of it, each context is in exactly one place |
| `PoolRuns.AllBack` | didagle/graph.cpp:325-328 | once no request is served, every context is in its pool and as good as new |
| `PoolRuns.FreshIsInitial` | didagle/graph_executor.cpp:515-522 | what a reset leaves is the state the engine's runs start from |
| `BinMaps.MarkBit` | cmod/malloc.cpp:2708-2715 | marking sets this bit and no other |
| `BinMaps.ClearBit` | cmod/malloc.cpp:2708-2715 | clearing clears this bit and no other |
| `BinMaps.LeastBitIs` | cmod/malloc.cpp:2753-2754 | x & -x is the lowest set bit |
| `BinMaps.LeftBitsBit` | cmod/malloc.cpp:2756-2757 | left_bits of one bit is all bits above it |
| `BinMaps.FirstBinIs` | cmod/malloc.cpp:2719-2725 | the index of the least bit is the first marked bin |
| `BinMaps.NextBin` | cmod/malloc.cpp:4013-4023 | left_bits & map, least bit, index: the next marked bin above i, or zero if and only if there is none |
| `MallocIndex.TreeIndexBelow` | cmod/malloc.cpp:2640-2653 | below 2^40 a size gets the bin i with minsize(i) <= size and, but for the last, size < minsize(i+1) |
| `MallocIndex.TreeIndexNarrows` | cmod/malloc.cpp:2643 | the index looks only at the size modulo 2^40 |
| `MallocIndex.TreeIndexExact` | cmod/malloc.cpp:2640-2653 | for all 64-bit sizes: the bin is right if and only if the size is below 2^40 or its remainder still belongs to the last bin |
| `MallocIndex.BinUnique` | cmod/malloc.cpp:2698-2701 | a size belongs to one bin |
| `MallocIndex.KeyStart` | cmod/malloc.cpp:2693-2696 | the left shift puts the bits that tell sizes of a bin apart at the top of the word |
| `MallocIndex.KeyStep` | cmod/malloc.cpp:3449-3499 | the top bit says which half of the range the size is in, and shifting left moves on to that half |
| `MallocTrie.InsertChunks` | cmod/malloc.cpp:3449-3499 | inserting adds exactly the chunk |
| `MallocTrie.InsertSound` | cmod/malloc.cpp:3449-3499 | and keeps the prefix trie of distinct sizes with rings of equal sizes |
| `MallocTrie.RemoveChunks` | cmod/malloc.cpp:3518-3587 | removing removes exactly the chunk |
| `MallocTrie.RemoveSound` | cmod/malloc.cpp:3518-3587 | and keeps the prefix trie, for a ring member, a leaf and an inner node replaced by a leaf |
| `MallocTrie.TakeLeafIs` | cmod/malloc.cpp:3518-3587 | the rightmost descent ends at a leaf, and the rest is the trie without it |
| `MallocTrie.DropNodeIs` | cmod/malloc.cpp:3518-3587 | a node replaced by a leaf from below leaves a sound trie of all other chunks |
| `MallocTree.InsertRep` | cmod/malloc.cpp:3449-3499 | the pointer writes of an insertion represent the inserted trie |
| `MallocTree.InsertOutside` | cmod/malloc.cpp:3449-3499 | and change nothing outside that tree |
| `MallocUnlink.ChainOut` | cmod/malloc.cpp:3518-3587 | unlinking a ring member that has no parent represents the ring without it |
| `MallocUnlink.RootOut` | cmod/malloc.cpp:3518-3587 | unlinking a root represents the trie with its heir at the root, the heir taking over the root's parent mark |
| `MallocUnlink.RemoveBelow` | cmod/malloc.cpp:3518-3587 | unlinking below the root, at any depth, represents the removed trie and leaves the root's own links alone |
| `TreeBins.Trees.InsertLarge` | cmod/malloc.cpp:3449-3499 | over pointers and the tree map: all bins stay tries in their memory form, a bit is set if and only if its bin is nonempty, exactly this chunk is added |
| `TreeBins.Trees.UnlinkLarge` | cmod/malloc.cpp:3518-3587 | the same for unlinking; exactly this chunk is removed |
| `TreeBins.Trees.Descend` | cmod/malloc.cpp:3463-3497 | the descent by key bits stops at the node of this size or at the empty place for it |
| `TreeBins.Trees.FindLeaf` | cmod/malloc.cpp:3533-3540 | the loop finds the leaf that is going to replace the node, and the link that points at it |
| `TreeBins.Trees.SearchBin` | cmod/malloc.cpp:3984-4011 | after the exact-path loop the best chunk is the candidate or lies in the deepest right subtree passed by |
| `TreeBins.Trees.NextTree` | cmod/malloc.cpp:4013-4023 | with nothing in the first bin, the best chunk lies in the next marked one |
| `TreeBins.Trees.Leftmost` | cmod/malloc.cpp:4025-4034 | after the leftmost descent no chunk that fits is smaller than the candidate |
| `TreeBins.Trees.FindLarge` | cmod/malloc.cpp:3978-4034 | the chosen chunk is the least of all tree-binned ones of at least nb bytes, and 0 means none fits, wrapping remainders included |
| `TreeBins.Trees.FindSmallest` | cmod/malloc.cpp:4063-4081 | for a small request, the least of all tree-binned chunks |
| `BestFit.LeastFit` | cmod/malloc.cpp:4025-4037 | a candidate with nothing left to look at is the best fit |
| `BestFit.ExactSettles` | cmod/malloc.cpp:3990-4010 | a step of the exact path leaves out only chunks that are too small or no better than one kept |
| `BestFit.LeftmostStep` | cmod/malloc.cpp:4025-4034 | a step of the leftmost descent leaves out only chunks no smaller than one kept |
| `SmallBins.Smalls.InsertSmall` | cmod/malloc.cpp:3378-3395 | over fd and bk links: all nonempty bins stay rings through their headers, exactly this chunk is added, at the front of the bin of its size, and the small map agrees |
| `SmallBins.Smalls.UnlinkSmall` | cmod/malloc.cpp:3397-3432 | the same for unlinking; exactly this chunk is removed, the others staying in order, and the bit is cleared if and only if it was alone |
| `SmallBins.InsertLinked` | cmod/malloc.cpp:3378-3395 | the four link writes put a chunk between a header and its first chunk |
| `SmallBins.RemoveLinked` | cmod/malloc.cpp:3397-3415 | the two link writes join the neighbours of any chunk of a ring |
| `SmallBins.Neighbours` | cmod/malloc.cpp:3397-3415 | the neighbours of a chunk are the same node if and only if it is alone |
| `SmallBins.TwoBins` | cmod/malloc.cpp:4967-4972 | the test for a remainderless fit looks at this bin and the next |
| `SmallBins.SmallAboveBit` | cmod/malloc.cpp:4991-4993 | the shifted and masked map holds exactly the marked bins above |
| `MallocHeap.TakeKeeps` | cmod/malloc.cpp:4948-5085 | using a free chunk whole keeps the heap: chunks tile, no two free ones touch, tags and feet agree |
| `MallocHeap.CarveKeeps` | cmod/malloc.cpp:4948-5085 | so does splitting one |
| `MallocHeap.TopSplitKeeps` | cmod/malloc.cpp:5062-5074 | so does cutting the top chunk |
| `MallocHeap.MergeKeeps` | cmod/malloc.cpp:5087-5206 | so does merging a freed chunk with its free neighbours |
| `MallocHeap.MergeTopKeeps` | cmod/malloc.cpp:5149-5162 | so does merging into the top chunk |
| `MallocHeap.CarveMoves` | cmod/malloc.cpp:4948-5085 | a split makes the first part live and the rest free, and nothing else changes hands |
| `MallocHeap.MergeMoves` | cmod/malloc.cpp:5087-5206 | a merge makes exactly one chunk no longer live and one free chunk of the swallowed ones |
| `MallocHeap.ReachIs` | cmod/malloc.cpp:5087-5206 | what is merged is the chunk with at most one free neighbour on each side |
| `MallocHeap.TotalSplit` | cmod/malloc.cpp:5203 | the sum of live sizes does not depend on the order of summing |
| `MSpaces.MSpace.constructor` | cmod/malloc.cpp:3698-3712 | empty bins and one top chunk with the fake chunk behind it |
| `MSpaces.MSpace.UnlinkChunk` | cmod/malloc.cpp:3595-3597 | by size, exactly this chunk leaves its bin |
| `MSpaces.MSpace.InsertChunk` | cmod/malloc.cpp:3591-3593 | by size, exactly this chunk is binned |
| `MSpaces.MSpace.ReplaceDv` | cmod/malloc.cpp:3434-3445 | the rest becomes the designated victim and the old one is binned: the bins again hold all free chunks but it |
| `MSpaces.MSpace.SplitToDv` | cmod/malloc.cpp:5000-5008 | a binned chunk is split, the rest being the new designated victim, and the mspace stays sound |
| `MSpaces.MSpace.SplitToBin` | cmod/malloc.cpp:4036-4056 | the same with the rest binned |
| `MSpaces.MSpace.UseDv` | cmod/malloc.cpp:5036-5060 | the designated victim is split, keeping what is beyond the request, or used up and gone if that would be less than a chunk |
| `MSpaces.MSpace.UseTop` | cmod/malloc.cpp:5062-5074 | nb bytes are cut off the start of the top chunk |
| `MSpaces.MSpace.MallocSmall` | cmod/malloc.cpp:4961-5022 | a small request is served from the least binned chunk that fits, if that lies in the exact bin or the next one or the victim does not fit, and the rest becomes the victim; else it is left to victim and top with nothing changed |
| `MSpaces.MSpace.MallocLarge` | cmod/malloc.cpp:3978-4060 | the chunk used is the least binned one that fits, its rest is binned and the victim stays; 0 and nothing changed if and only if none fits or the designated victim fits at least as well |
| `MSpaces.MSpace.UseDvOrTop` | cmod/malloc.cpp:5036-5079 | what the bins do not serve comes from the victim if it fits, else from the top chunk, else not at all |
| `MSpaces.MSpace.Malloc` | cmod/malloc.cpp:4948-5085 | the chunk comes from the bins, the victim or the top chunk as the size of the request and of the victim decide, and the free chunks, the victim and the top chunk afterwards are the ones this leaves; exactly one chunk of at least the padded request becomes live and was not; 0 only if no free chunk and not the top chunk is large enough; heap invariant, bins and usage counter are kept |
| `MSpaces.MSpace.Backward` | cmod/malloc.cpp:5111-5143 | a free neighbour before the chunk is found by its foot and unbinned unless it is the designated victim |
| `MSpaces.MSpace.Forward` | cmod/malloc.cpp:5145-5197 | merging forward with top, victim, a binned chunk or nothing leaves one free chunk, or a larger top chunk, in place of all that was merged, and it is the victim if the victim was part of it |
| `MSpaces.MSpace.FreeMem` | cmod/malloc.cpp:5087-5206 | freeing gives back exactly that chunk, in one with the free chunks that touch it and with the top chunk if it reaches it, and keeps heap invariant, bins and usage counter; freeing null changes nothing |
| `MSpaceRuns.OwnSizes` | cmod/malloc.cpp:2379-2422 | the sizes of parameters, state and segment foot are those of the structures summed field by field |
| `MSpaceRuns.TopSizeIs` | cmod/malloc.cpp:3698-3712 | the size of the first top chunk, with the wrap-around of a capacity that is too small for its alignment |
| `MSpaceRuns.Create` | cmod/malloc.cpp:4835-4916 | an mspace is made if and only if the capacity is accepted; it is valid if and only if the capacity is usable, and that is so if and only if the top chunk ends inside the buffer and does not read as in use; the first chunk comes after the parameters and the whole of the state |
| `MSpaceRuns.UnusableCapacities` | cmod/malloc.cpp:4890-4916 | two capacities that are accepted and not usable, one for each reason |
| `MSpaceRuns.MisreadTop` | cmod/malloc.cpp:3706-3708 | with bit 1 set in its size the top chunk reads as in use once a chunk is cut off it, and the tags written when that chunk is freed leave it unmerged beside the top chunk |
| `MSpaceRuns.PayloadsDisjoint` | cmod/malloc.cpp:3216-3250 | no byte belongs to the payloads of two live chunks |
| `MSpaceRuns.PayloadInside` | cmod/malloc.cpp:3031-3055 | in a valid mspace made in a buffer, payload bytes lie inside the buffer after the parameters and the state, and chunks are 8-aligned |
| `MSpaceRuns.RoomEnough` | cmod/malloc.cpp:4948-5085 | a chunk of the padded size holds the requested bytes between its head and the next one's |
| `MSpaceRuns.NeededIs` | cmod/malloc.cpp:2023-2034 | the padded request is the least multiple of 8, and at least 32, that has room for the bytes and a head; a request within 128 bytes of the address space asks for more than there is |
| `MSpaceRuns.FirstBlock` | cmod/malloc.cpp:4837-4864 | the first request of a run gets the bytes right after the state and the head of its chunk |
| `MSpaceRuns.Session` | cmod/malloc.cpp:4948-5206 | every step of any sequence of requests and releases has its one effect: one chunk of the size asked for becomes live and comes from where it should, nothing fits, or exactly one chunk's life ends and it joins the free chunks beside it |
| `MSpaceRuns.TraceLive` | cmod/malloc.cpp:4948-5206 | over every such run from an empty heap, live are exactly the chunks handed out and not given back, no two requests share one, and each is as large as was asked for |
| `MSpaceRuns.RunIn` | cmod/malloc.cpp:4835-5206 | from the buffer on, for every usable capacity and every run: live are exactly the blocks handed out and not given back, with room for what was asked, disjoint, 8-aligned, inside the buffer and clear of parameters and state, and the usage counter is their sum |

## Left out

- Allocator: realloc, calloc, memalign, locks, mmap, trimming and anything needing a second segment; with one external segment they are compiled out or not part of the modelled results (growing into the top chunk in realloc does not update the usage counter).
- Allocator: the abort on a corrupt heap or a wrong pointer; `FreeMem` takes pointers that are live or null.
- Allocator: attaching to an mspace that exists already in the segment (`recreate` false).
- Allocator: the words of a segment are maps from addresses to heads, feet and links, not bytes of one array; offset pointers are addresses.
- MSpaces.MSpace.Malloc: of several binned chunks of the least fitting size, which one is taken is not stated.
- MSpaceRuns.Create: capacities are below 2^40, the range in which tree indices are right (`TreeIndexExact` says what happens above).
- TreeBins.Trees.InsertLarge: sizes are below 2^40 for the same reason.
- Hash table: object lifetimes, copy, move and swap, the node allocator, and the quality of hash mixing; the hash is any function to 64-bit words and nodes are plain pairs.
- RobinHoodLoss.LosesOne: the table is given by its arrays and satisfies the invariant; a sequence of insertions that leads to it is not part of the lemma.
- RobinHood.Table.InitData: the allocator's refusal is a bound on the number of buckets; after it nothing is stated about the table, as the source gives no guarantee either.
- Engine: the executor is a step relation on values, since no class method can stand for an interleaving; memory orders weaker than sequential consistency are not modelled.
- Engine: each vertex has one outcome per run (processor code, injection, subgraph code, deadline passed or not), the same in all interleavings; clocks, logging, events and futures are absent.
- DagEngine.FiresQuiescent: another thread may still be leaving its last loop, where it reads the length of an immutable successor list.
- Building: reading graphs from TOML, the processor registry, FillInputOutput, config settings and select_args; whether a vertex's settings are all known is one flag of its declaration.
- Building: the name sets of a vertex are sequences in iteration order.
- DagBuild.Builder.Build: the machine stack of the circle search is a bound on nested calls.
- DagTaken.HiddenNeverDone: an executor whose table lacks a vertex appears as a run of the whole graph in which that vertex does not execute.
- Data contexts: RegisterData, Set and Move update single entries and would add only easy members.
- ContextPool.Manager.Progress: what a run writes is arbitrary; which values it writes is the subject of `DagEngine`.
- Context pool: concurrent dequeue and enqueue are atomic operations.
- ecache, kcfg, msgpack, base64, file mapping, robims, ssexpr and mraft are not part of this model.
