# TensorDex: a verified model

TensorDex stores the tensors of many models once, most of them as deltas against other tensors, addressed by the hash of
their content. This project models the parts of it whose correctness is not visible in any one function and proves what
they are for. Byte strings, content hash and codec are abstract: a hash is a function from bytes to tids, the codec a
partial function of payload, base and item size, S3 a map from keys to parsed blobs. Tids are fixed-width hexadecimal
strings and are modelled by the numbers they denote, which keeps their order.

`dafny verify dfyconfig.toml` checks everything.

## Layout

Serving tier:

- `Forest`, `Sequences`, `Sums`, `Reals`: delta chains as sequences of tids (`IsChain`, `Acyclic`), enumerations, sums and
  quotients.
- `Traversal`, `BaseStores`, `Reconstruction`, `ClosureRun`, `OutsideBases`: the decode order, the store of decoded bases,
  the meaning of a tensor, the decoding half of a run, and how long outside bases are held.
- `FetchProtocol`: the fetching half, a state machine with one step for every action taken under the budget lock.
- `Manifest`, `TransferPlan`: closure, depths, the chain walk of the metadata server, and the transfer plan.
- `Shortcut`, `Materializer`, `CacheServer`: decoding from cached ancestors, in the serving tier and in the evaluation.
- `SingleFlight`, `Evictor`: the locks around a demand miss, and the watermark pass.

Solvers, planning and simulation:

- `FacilityLocation`, `LocalSearch`: the incremental deltas against the full objective, and the search loop.
- `PrimalDual`: the event loop of the primal-dual comparator.
- `AttachPlanner`, `ConflictResolution`, `PlanAccounting`, `ReplanAdopt`: planning and plan repair.
- `ChainSplit`, `Sharding`, `WorkUnits`: the recursive split and the executor's work list.
- `LazyHeap`, `LruCache`, `GdsfCache`, `BaseBiasCache`, `ReconCache`, `CacheCell`: the cache simulator.

Loops that update variables are methods with the loop of the source, objects with fields are classes; their contracts tie
the result to a specification about which lemmas are proved. Predicates such as `ClosureRun.Faithful`,
`Manifest.Describes`, `AttachPlanner.Explained` or `WorkUnits.IsCut` spell out what a row of the table says in words.

## Where the code does not do what is expected of it

- After an error, `run` leaves its executor block by waiting for workers whose budget nobody will release. With more than
  one entry and a budget below the sum of their stored sizes some failure makes it wait for ever, otherwise none does
  (`FetchProtocol.EveryAbortEndsIffAllFit`).
- The base-biased cache of the simulator does not admit every item up to its capacity: one that does not fit beside the
  pinned bases evicts every unpinned resident and is then turned away (`BaseBiasCache.TurnedAway`).
  `BaseBiasCache.BaseBias.OnServe` states the exact condition for admission.
- The local search never closes its last base, although the objective it reports for no base at all, everything stored
  raw, may be lower by any amount (`LocalSearch.StopsAtLastBase`). `FacilityLocation.DropIsExactIff` says when the DROP
  delta is true, `LocalSearch.StopIsOptimal` when stopping is optimal.
- The adoption of a published plan would keep a fallback pair that joins a tensor to itself
  (`ReplanAdopt.SelfPairSurvives`). `ReplanAdopt.DepthInEveryOrder` is the exact condition on the inputs under which the
  result is one delta deep; the partners the attach planner assigns meet it (`ReplanAdopt.PlannerPairsOthers`).
- The comment of `dfs_order` says that decoded bytes stay live only along the current path. This holds of the bases that
  are entries (`ClosureRun.HeldOnPaths`). For a base from outside that several entries share it holds if and only if the
  roots stored against it come in one go (`OutsideBases.OutsideOnPathIffInOneGo`, `OutsideBases.HeldPastRaw`).

## Model

| member | source | states |
|---|---|---|
| Traversal.DfsOrder | server/tensordex_serving/pipeline.py:92-119 | the traversal succeeds exactly when no walk along base links runs for ever; its order is then a pre-order of the forest (every tid once, bases first, every subtree in one piece, siblings ascending) and each count is the number of direct dependents |
| Traversal.VisitKeepsContiguous | server/tensordex_serving/pipeline.py:112-115 | popping one tid and pushing its children keeps every finished or pending subtree in one piece |
| Traversal.VisitKeepsSiblings | server/tensordex_serving/pipeline.py:104-115 | the same step keeps siblings in increasing order of tid |
| Traversal.CompleteIffAcyclic | server/tensordex_serving/pipeline.py:110-117 | when the stack runs dry, all tids have been visited if and only if the forest has no cycle, which is what the length test decides |
| Traversal.StackStep | server/tensordex_serving/pipeline.py:111-115 | the reversed stack of the code is the pending half of one agenda, next tid first |
| Traversal.GroupByBase | server/tensordex_serving/pipeline.py:102-109 | the child lists hold exactly the direct dependents of each base in increasing order, and the roots are the tids without a base in the set |
| Traversal.Traverse | server/tensordex_serving/pipeline.py:110-115 | the stack loop lists every tid it can reach from the roots once, as a pre-order of what it has visited |
| Traversal.Package | server/tensordex_serving/pipeline.py:118-119 | the returned entries follow the order of tids, and each count is the number of that tid's children |
| Forest.ChainUnique | server/tensordex_serving/pipeline.py:92-109 | a tid has at most one chain of bases |
| Forest.ChainDistinct | server/tensordex_serving/pipeline.py:92-109 | a chain never visits a tid twice |
| BaseStores.BaseStore.Put | server/tensordex_serving/pipeline.py:52-60 | adds exactly one entry to what the store answers, in RAM while the cap holds and in the spill area otherwise; the RAM byte count stays exact |
| BaseStores.BaseStore.Get | server/tensordex_serving/pipeline.py:62-68 | answers exactly the stored bytes, wherever they lie, and changes nothing |
| BaseStores.BaseStore.Drop | server/tensordex_serving/pipeline.py:70-79 | removes exactly that tid and gives its RAM back |
| BaseStores.BaseStore.Clear | server/tensordex_serving/pipeline.py:81-89 | leaves the store empty and the RAM count at zero |
| BaseStores.TotalWithout | server/tensordex_serving/pipeline.py:53-55 | the total size of resident bases does not depend on the order of counting, so the running RAM counter can be exact |
| Reconstruction.TensorStep | server/tensordex_serving/pipeline.py:206-239 | the meaning of a tensor satisfies the recursion the decoder follows: payload, or the delta applied to the bytes of its base, and only with the right content hash |
| Reconstruction.TensorByHeader | server/tensordex_serving/pipeline.py:206-239 | a tensor is rebuilt to x if and only if x has its hash and is the payload, or what the delta gives over the bytes of the base with the item size in the header, two if the header has none |
| Reconstruction.ChildrenArePending | server/tensordex_serving/pipeline.py:118-118 | the reference counts of the traversal are the numbers of deltas still to be decoded before the run starts |
| Reconstruction.BaseComesFirst | server/tensordex_serving/pipeline.py:92-119 | in decode order an entry's base, when it is an entry, comes strictly earlier |
| Reconstruction.LiveOnPath | server/tensordex_serving/pipeline.py:92-99 | a decoded entry that some later entry still needs is a proper ancestor of the entry about to be decoded, so the live set is one root-to-leaf path |
| ClosureRun.CountExternal | server/tensordex_serving/pipeline.py:185-189 | counts, for every base outside the entries, exactly the deltas against it |
| ClosureRun.ResolveBase | server/tensordex_serving/pipeline.py:213-224 | takes a base from the store or asks once outside, and keeps an outside base exactly when more than one entry refers to it |
| ClosureRun.KeepOrRelease | server/tensordex_serving/pipeline.py:243-248 | stores an output that is still needed, counts its base down and drops the base at zero |
| ClosureRun.DecodeEntry | server/tensordex_serving/pipeline.py:202-239 | one entry is fetched, decoded against its base and checked; each of its five failures is reported exactly when it occurs |
| ClosureRun.StoreAnswers | server/tensordex_serving/pipeline.py:213-224 | the store answers for every base that is an entry; a base it lacks is outside and asked for the first time |
| ClosureRun.Advance | server/tensordex_serving/pipeline.py:195-249 | one decoded entry takes the exact state (store, counts and lookups, each as an if-and-only-if over all tids) to the exact state of the next position |
| ClosureRun.VerdictIsTensor | server/tensordex_serving/pipeline.py:210-239 | what one iteration produces is the reconstruction of its entry, and it fails exactly when that reconstruction does not exist |
| ClosureRun.VerdictByHeader | server/tensordex_serving/pipeline.py:206-239 | one decoded entry, whatever its blob says: what surfaces is the payload or the delta over known bytes of the base the header names, else the catalog's, at the header's item size and with the right hash; each failure has its own reason |
| ClosureRun.Consume | server/tensordex_serving/pipeline.py:195-251 | the whole loop: tensors surface in decode order, each decoded as its header says, and a stop has its reason in the next entry; when headers agree with the catalog, before every entry the store holds exactly the decoded or looked-up bases that are needed again, with their bytes, and after a complete run it is already empty before it is cleared |
| ClosureRun.HeldOnPaths | server/tensordex_serving/pipeline.py:92-99 | of the entries held before an entry is decoded, all lie on its own base chain |
| ClosureRun.CompleteIffIntact | server/tensordex_serving/pipeline.py:160-252 | a run completes if and only if every entry can be reconstructed |
| ClosureRun.AsksForOutside | server/tensordex_serving/pipeline.py:213-221 | a complete run has asked for each outside base once and for nothing else |
| ClosureRun.TakenArrived | server/tensordex_serving/pipeline.py:202-205 | the blobs counted as fetched are exactly those of the surfaced entries and of the entry that stops the run if it has one |
| ClosureRun.Run | server/tensordex_serving/pipeline.py:160-252 | the run refuses exactly the cyclic entry sets; otherwise tensors surface in pre-order, each as what its blob stands for by its header over bytes looked up or surfaced earlier, with the hash of its tid, and a stop has its reason in the next entry; when headers and catalog agree it completes iff everything can be rebuilt, surfaces every tensor once with exactly its reconstruction, holds before each entry exactly the bases still needed, of the entries only ancestors of the one being decoded, and looks up exactly the outside bases, each once |
| OutsideBases.OutsideOnPathIffInOneGo | server/tensordex_serving/pipeline.py:92-119 | a base from outside is held only while entries below it are decoded, if and only if no other root lies, by tid, between two roots stored against it |
| OutsideBases.RootBefore | server/tensordex_serving/pipeline.py:104-115 | in decode order the root of an entry's chain is the last root at or before it |
| OutsideBases.HeldPastRaw | server/tensordex_serving/pipeline.py:92-99 | two deltas against one outside base with a raw tensor between them: the base is held while the raw tensor is decoded |
| FetchProtocol.InvStep | server/tensordex_serving/pipeline.py:136-146 | every atomic action of workers and consumer keeps the invariant: bytes in flight are those of admitted unreleased entries and, the head of the line apart, fit the budget |
| FetchProtocol.BudgetHolds | server/tensordex_serving/pipeline.py:136-146 | in every reachable state of every interleaving the bytes in flight exceed the budget by at most the size of the head entry |
| FetchProtocol.NeverStuck | server/tensordex_serving/pipeline.py:191-202 | in every state that satisfies the invariant, with at least one worker, any budget and any sizes, the run is over or some thread can move |
| FetchProtocol.EveryRunCompletes | server/tensordex_serving/pipeline.py:191-234 | no run takes more than seven steps per entry; a run that cannot go on has taken exactly that many, decoded everything and released every byte |
| FetchProtocol.EveryAbortEndsIffAllFit | server/tensordex_serving/pipeline.py:192-251 | whenever the consumer fails, the executor block can be left, if and only if there is at most one entry or all stored sizes together fit the budget |
| FetchProtocol.AbortDrainsIffFits | server/tensordex_serving/pipeline.py:192-251 | from one aborted state: the pool can end if and only if nothing waits for the budget or all that waits fits beside the bytes nobody will release; in that case every continuation gets there |
| FetchProtocol.HangingRun | server/tensordex_serving/pipeline.py:192-251 | for every other input a run of five kinds of steps reaches an aborted state in which the pool can never end: the first entry fails while it holds its bytes |
| FetchProtocol.PoolDrains | server/tensordex_serving/pipeline.py:192-193 | from an aborted state where the rest fits, the pool runs to its end |
| Manifest.Fixpoint | server/tensordex_serving/manifest.py:75-104 | the frontier loop returns the least set of rows that contains the start tids and is closed under base links, or a reachable tid without a row; each round queries exactly what is needed and was not queried before |
| Manifest.RoundsApart | server/tensordex_serving/manifest.py:75-104 | so no tid is queried twice |
| Manifest.AddChunk | server/tensordex_serving/manifest.py:79-103 | one chunk of queries either meets a reachable tid without a row or turns the chunk into rows and collects the bases still to come |
| Manifest.RowsAreRead | server/tensordex_serving/manifest.py:96-105 | the entry of a tid is the one with the key of its blob, the stored and the logical bytes of its row, and the base of its delta row or none |
| Manifest.Depth | server/tensordex_serving/manifest.py:109-116 | one recursive call ends with the tid's chain length recorded, or proves that the tid has no finite chain |
| Manifest.AllDepths | server/tensordex_serving/manifest.py:106-119 | the memoised recursion finds a cycle or gives every tid the length of its chain; no answer it has cached is ever wrong |
| Manifest.BackOnPath | server/tensordex_serving/manifest.py:112-113 | meeting a tid again on the walk means it has no finite chain |
| Manifest.Build | server/tensordex_serving/manifest.py:59-134 | building fails exactly with an unknown model, a reachable tid without a row or a reachable cycle; otherwise the closure is the least closed set around the parameters, in order of tid, each row with the key, the sizes and the base the tables give, with depth equal to chain length, and the rounds of queries make up exactly the closure |
| Manifest.ListedRows | server/tensordex_serving/manifest.py:126-131 | every row of the closure says what the tables say |
| Manifest.FailuresExclude | server/tensordex_serving/manifest.py:59-134 | a manifest exists only if no failure was possible: everything reachable has a row and a finite chain |
| Manifest.ChainWalk | server/tensordex_serving/metadata_server.py:152-179 | the walk answers with the whole chain, tid first, each element a row of the tables whose base is the next, and otherwise names the first tid on its way without a row, or the first it meets again |
| Manifest.WalkAnswerUnique | server/tensordex_serving/metadata_server.py:152-179 | the walk has one answer only |
| Manifest.DepthAgreesWithWalk | server/tensordex_serving/manifest.py:106-119 | for every entry of a manifest the closure walk succeeds and has one element more than the recorded depth |
| TransferPlan.NeededIsEnough | server/tensordex_serving/manifest.py:190-213 | a chain is decodable with what is at hand and what is fetched exactly when its entries above the first tensor at hand are fetched |
| TransferPlan.NeededIsLeast | server/tensordex_serving/manifest.py:196-213 | for every set: it makes all parameters decodable if and only if it contains what the plan needs |
| TransferPlan.WalkParam | server/tensordex_serving/manifest.py:201-207 | one parameter's walk adds exactly the missing part of its chain, although it stops at the first tid an earlier walk has passed |
| TransferPlan.AlreadyWalked | server/tensordex_serving/manifest.py:203-205 | stopping early is sound: the rest of the chain has been walked for another parameter, for a tid of the current walk would close a cycle |
| TransferPlan.Plan | server/tensordex_serving/manifest.py:190-213 | the planned fetch is sufficient and is part of every sufficient set, made of exactly the needed rows in manifest order; each entry's base is planned too or at hand |
| TransferPlan.BuiltIsSound | server/tensordex_serving/manifest.py:190-213 | every manifest the builder writes meets what planning relies on |
| Shortcut.ShortcutIsExact | server/tensordex_serving/materializer.py:149-163 | decoding from cached bases instead of from the roots rebuilds the same bytes for every tensor the whole forest can rebuild, whatever is cached and wherever the chains are cut |
| Shortcut.PartIsAcyclic | server/tensordex_serving/materializer.py:149-163 | a part of a closure that is free of cycles is free of cycles |
| Shortcut.FromCache | server/tensordex_serving/materializer.py:158-163 | a run that is given the cache as its supplier gets exactly the cached bytes from outside |
| Shortcut.FailureSpreads | server/tensordex_serving/materializer.py:149-163 | on one chain, nothing above a tensor that cannot be rebuilt can be rebuilt |
| Materializer.TensorCache.Put | server/tensordex_serving/cache.py:47-61 | writes only bytes whose content hash is the tid, so every entry is correct after any sequence of puts |
| Materializer.TensorCache.Evict | server/tensordex_serving/evictor.py:103-107 | removes exactly one entry and leaves the others correct |
| Materializer.RunInto | server/tensordex_serving/materializer.py:158-163 | a run whose consumer is the cache writes exactly the surfaced tensors over the old entries, each with its reconstruction, touches nothing else, and never looks up a tensor it writes |
| Materializer.Materialize | server/tensordex_serving/materializer.py:137-165 | a hit changes nothing and fetches nothing; a miss decodes exactly the entries of the chain above the first cached one and leaves in the cache, besides what was there, exactly those of them that can be rebuilt, each with its bytes, also when it fails half way; on success the blobs of exactly these entries have arrived, each once, root first |
| Materializer.CutKeepsMeaning | server/tensordex_serving/materializer.py:149-163 | whenever the whole chain can be rebuilt from S3, the cut chain can too and caches the same bytes |
| Materializer.StretchFilled | server/tensordex_serving/materializer.py:158-163 | on a single chain a failed run has stored precisely the entries that can be rebuilt |
| Materializer.StretchBackwards | server/tensordex_serving/pipeline.py:92-119 | a run over one chain goes through it root first |
| Materializer.WarmJob | server/tensordex_serving/materializer.py:168-181 | plan, then run with the cache as outside supply: what is fetched is contained in every sufficient set and arrives once each; if S3 can rebuild the closure the job cannot fail and every parameter ends up cached with the bytes its whole chain stands for |
| CacheServer.Materialize | eval/server/cache_server.py:100-158 | the root-first loop cuts the chain at the same place as the materializer, fetches the same entries in the same order and leaves the same cache, on success and on failure |
| CacheServer.Climb | eval/server/cache_server.py:130-157 | the loop over the uncached stretch caches exactly what can be rebuilt, each entry as its header calls for over the one below, succeeds iff all of it can, and then has fetched each entry of the stretch once, root first |
| CacheServer.TurnIsStep | eval/server/cache_server.py:131-154 | one turn of the loop is one step of the recursive reconstruction |
| CacheServer.DecodeByHeader | eval/server/cache_server.py:131-154 | one turn yields x if and only if x is the payload, or the delta over the base in hand at the header's item size, and has the right hash |
| CacheServer.StepByHeader | eval/server/cache_server.py:131-154 | along the stretch each tensor is cached as its header calls for over the one below it, and is missing if there are no such bytes |
| CacheServer.SameCut | eval/server/cache_server.py:116-129 | both materializers decode the same entries of the same chain |
| SingleFlight.MutualExclusion | server/tensordex_serving/materializer.py:108-112 | in every interleaving, with any evictions, no two requests are inside for the same tid and no gate is over its capacity |
| SingleFlight.NeverStuck | server/tensordex_serving/materializer.py:144-158 | lock then gate admits no waiting cycle: while a request is open, some request can move |
| SingleFlight.EveryRequestAnswered | server/tensordex_serving/materializer.py:137-165 | no interleaving, with decodes that fail among its steps, lets any request take more than five steps of its own, and when none can move all have been answered, with bytes or with an error |
| SingleFlight.RepliedIsCached | server/tensordex_serving/materializer.py:139-165 | a step answers a request with bytes only if its tensor is in the cache after that step, and was there before if it was a look |
| SingleFlight.RepliesAreCached | server/tensordex_serving/materializer.py:139-165 | while nothing is evicted, whatever has been answered with bytes is in the cache |
| SingleFlight.FirstLook | server/tensordex_serving/materializer.py:139-147 | a request whose tensor is cached at its first look is answered with bytes by that one step, any other takes at least three |
| SingleFlight.FailedHasFailed | server/tensordex_serving/materializer.py:148-163 | a request is answered with an error exactly when a step of its own has failed |
| SingleFlight.CacheMoves | server/tensordex_serving/materializer.py:159-162 | entries leave the cache only by eviction and come only by a decode, exactly those named |
| SingleFlight.MissesCoalesce | server/tensordex_serving/materializer.py:144-147 | while nothing is evicted, each tid is the target of at most one decode that succeeds, however many requests miss on it and decodes fail |
| SingleFlight.DecodesAreFinishes | server/tensordex_serving/materializer.py:158-162 | the record of decodes lists every decode that succeeds, and nothing else |
| Evictor.EvictPass | server/tensordex_serving/evictor.py:83-116 | below the high mark nothing happens; above it the pass takes the evictable entries of a lowest-score prefix, and no longer a prefix than it needs; nothing pinned, young or locked goes, and whatever of the prefix stays is one of these |
| Evictor.PassMeaning | server/tensordex_serving/evictor.py:97-109 | no pinned or young entry goes; no victim scored higher than an evictable survivor; the low mark is reached unless only empty entries could still go; without the last victim it would not have been |
| Evictor.DagMeans | server/tensordex_serving/evictor.py:66-80 | the score spreads the entry's own cost, or its size if unknown, and the costs of its resident dependents over its bytes, with a trace of its age |
| Evictor.DependentsProtect | server/tensordex_serving/evictor.py:66-80 | under the dag_value policy a base's score never falls when more of what is stored against it is resident |
| Evictor.DependentAdds | server/tensordex_serving/evictor.py:66-80 | one more resident dependent raises the score by its cost over the bytes of the base |
| FacilityLocation.NearestIsLeast | ae/bench/algorithms/greedy_facility_location.py:41-75 | the running minimum of the objective is the least serving cost over the open bases |
| FacilityLocation.NearestCost | ae/bench/algorithms/greedy_facility_location.py:56-74 | an item pays nothing as a base and else the least of its costs to the open bases |
| FacilityLocation.DropIsExact | ae/bench/algorithms/greedy_facility_location.py:293-312 | with another base open, the DROP delta computed from best and second-best costs is the true change of the full objective |
| FacilityLocation.DropIsExactIff | ae/bench/algorithms/greedy_facility_location.py:53-55 | the DROP delta is the change of the objective if and only if the base is not the only one open |
| FacilityLocation.LastDropOverrates | ae/bench/algorithms/greedy_facility_location.py:293-312 | for the only open base the delta always exceeds the true change: the kernels charge the sentinel for every item, the objective of no base is the sum of the opening costs |
| FacilityLocation.AddIsExact | ae/bench/algorithms/greedy_facility_location.py:342-404 | the ADD delta is the true change of the full objective |
| FacilityLocation.SwapIsExact | ae/bench/algorithms/greedy_facility_location.py:350-416 | the SWAP delta with its correction term is the true change of the full objective, also for the client that becomes a base and the base that becomes a client |
| FacilityLocation.LastBaseStays | ae/bench/algorithms/greedy_facility_location.py:149-156 | the delta of dropping the only base is positive, so the search never closes it |
| FacilityLocation.OpenCandidateGainsNothing | ae/bench/algorithms/greedy_facility_location.py:342-404 | opening a base that is open has a delta of its opening cost, never below zero |
| FacilityLocation.OpenCandidateSwap | ae/bench/algorithms/greedy_facility_location.py:405-416 | swapping in a candidate that is already open never looks better than changing nothing or than the plain drop, so it is never chosen |
| LocalSearch.ComputeState | ae/bench/algorithms/greedy_facility_location.py:247-289 | the pass yields, for every client, the least and second-least serving cost and which base attains the least |
| LocalSearch.BestTwoOf | ae/bench/algorithms/greedy_facility_location.py:261-287 | for one client, the least and second-least cost over the open bases and the position of the least |
| LocalSearch.DropDeltas | ae/bench/algorithms/greedy_facility_location.py:293-312 | the array holds the exact DROP delta of every base |
| LocalSearch.GainAndCorrections | ae/bench/algorithms/greedy_facility_location.py:342-396 | one pass over the clients yields the gain of a candidate and, for every base, the correction its removal adds |
| LocalSearch.FindBestSwap | ae/bench/algorithms/greedy_facility_location.py:316-418 | for every candidate the best of ADD and all SWAPs, with ADD preferred on ties |
| LocalSearch.BestDrop | ae/bench/algorithms/greedy_facility_location.py:143-155 | the least drop delta, taken when it lies below -eps |
| LocalSearch.BestCandidate | ae/bench/algorithms/greedy_facility_location.py:157-176 | a candidate whose best move has the least delta over all candidates, ADDs and SWAPs |
| LocalSearch.Select | ae/bench/algorithms/greedy_facility_location.py:133-179 | the move of one iteration: it pays by more than eps, no other delta lies more than eps below it, and a candidate is taken only if it beats every paying drop |
| LocalSearch.SelectedImproves | ae/bench/algorithms/greedy_facility_location.py:130-196 | the chosen move opens no open candidate and lowers the full objective by more than eps |
| LocalSearch.NearlySteepest | ae/bench/algorithms/greedy_facility_location.py:143-179 | no other single move, closing the last base included, leads more than eps lower in the full objective than the chosen one, if and only if several bases are open or the chosen set costs at most eps more than storing everything raw |
| LocalSearch.CandidateBeatsDrops | ae/bench/algorithms/greedy_facility_location.py:157-176 | a candidate is opened only when that leads more than eps below every drop that pays |
| LocalSearch.StopIsOptimal | ae/bench/algorithms/greedy_facility_location.py:178-179 | leaving by break means that no DROP, ADD or SWAP lowers the full objective by more than eps, if and only if several bases are open or the only one costs at most eps more than storing everything raw |
| LocalSearch.StopsAtLastBase | ae/bench/algorithms/greedy_facility_location.py:178-179 | a search that stops at one base with objective 201 although closing it leads to 3 |
| LocalSearch.Apply | ae/bench/algorithms/greedy_facility_location.py:184-196 | the new base array is sorted, free of repetitions and is the moved set |
| LocalSearch.NearestBase | ae/bench/algorithms/greedy_facility_location.py:56-70 | a client that is no base is assigned to an open base of least cost |
| LocalSearch.Connect | ae/bench/algorithms/greedy_facility_location.py:56-74 | every client is served by an open base of least cost, bases by themselves, and the total is the sum of these costs |
| LocalSearch.ObjectiveAndAssignment | ae/bench/algorithms/greedy_facility_location.py:41-75 | the returned total is the objective and every client is assigned to an open base of least cost |
| LocalSearch.Refine | ae/bench/algorithms/greedy_facility_location.py:102-203 | the base sets gone through are one single move apart, each more than eps lower than the one before and, but for closing the only base, not eps above any other move; the last is the result; a search that stopped is locally optimal if and only if several bases are open or the only one costs at most eps more than raw storage, and always if the start does; the assignment serves every client at least cost |
| PrimalDual.ComputeEvent | ae/bench/algos/primal_dual_ratio.py:97-124 | the edge scan returns the time at which the waiting clients' offers exactly pay for the base, with exactly the clients that pay, and nothing only when no waiting client reaches the base |
| PrimalDual.Offer | ae/bench/algos/primal_dual_ratio.py:111-123 | with the clients up to one edge gathered, either an equal share comes due before the next waiting client would join, which is the exact event, or it does not |
| PrimalDual.EventIsCheapestShare | ae/bench/algos/primal_dual_ratio.py:97-124 | that time is the least average price over all non-empty groups of waiting clients |
| PrimalDual.EventIsFirst | ae/bench/algos/primal_dual_ratio.py:97-124 | at no earlier time is the base paid for |
| PrimalDual.EventsOnlyLater | ae/bench/algos/primal_dual_ratio.py:126-150 | with fewer clients waiting a base is paid for no earlier, so event times never decrease |
| PrimalDual.EarliestEvent | ae/bench/algos/primal_dual_ratio.py:129-141 | the chosen event is not later than any event of a remaining base; none is chosen only when no waiting client can be reached |
| PrimalDual.SortedEdges | ae/bench/algos/primal_dual_ratio.py:85-95 | the edges of a base are the clients that can reach it, each once, by increasing cost |
| PrimalDual.ServeAll | ae/bench/algos/primal_dual_ratio.py:145-149 | the clients of the event, and no others, move to the opened base and pay exactly its opening cost plus their own |
| PrimalDual.OwnBaseInTime | ae/bench/algos/primal_dual_ratio.py:126-150 | a client that waits is served no later than its own base costs |
| PrimalDual.EventLoop | ae/bench/algos/primal_dual_ratio.py:126-150 | the loop leaves a trace of openings, each the earliest event of the bases then closed and the clients then waiting; bases, waiting clients, assignment and serving times are those of the trace, times ascend, and opening plus connecting costs what the served clients' event times add up to; it ends when nothing more can happen |
| PrimalDual.TracedStep | ae/bench/algos/primal_dual_ratio.py:129-150 | opening the base of an earliest event extends the trace: waiting clients, open bases, assignment and serving times are again those of the trace |
| PrimalDual.NobodyWaits | ae/bench/algos/primal_dual_ratio.py:126-150 | with every base a candidate the loop serves every client |
| PrimalDual.ObjectiveIsTimes | ae/bench/algos/primal_dual_ratio.py:173-187 | with every base a candidate the objective is the sum over the clients of the times of the events that served them, and at most the cost of storing every tensor raw |
| PrimalDual.ConnectLeftovers | ae/bench/algos/primal_dual_ratio.py:152-164 | a client left over is assigned to a cheapest open base that can serve it, and stays left exactly when no open base can |
| PrimalDual.StoreRaw | ae/bench/algos/primal_dual_ratio.py:166-170 | clients left without a base become bases of their own, at their raw cost; the others keep theirs |
| PrimalDual.Settle | ae/bench/algos/primal_dual_ratio.py:126-187 | events, leftovers and totals: the solution follows from the trace |
| PrimalDual.Totals | ae/bench/algos/primal_dual_ratio.py:173-187 | the two totals are the connection costs of the non-bases and the opening costs of the bases |
| PrimalDual.Solve | ae/bench/algos/primal_dual_ratio.py:22-195 | for any candidates the run is a trace of earliest events in order of time that ends when nothing more can happen, every client is served from the base of its event, else from a cheapest open base, else by itself, and the two totals are the true costs; with every base a candidate the events serve everyone, and the objective is the sum of the clients' event times and never exceeds raw storage |
| LazyHeap.BytesWithout | eval/scripts/caching/fig1_sim.py:119-138 | the bytes of a set of residents do not depend on the order of counting |
| LruCache.LRU.Touch | eval/scripts/caching/fig1_sim.py:148-150 | a touched resident becomes the most recent; nothing else moves |
| LruCache.LRU.EvictOne | eval/scripts/caching/fig1_sim.py:161-167 | evicts the least recently used resident, and fails only when the cache is empty |
| LruCache.LRU.Admit | eval/scripts/caching/fig1_sim.py:128-135 | an item up to the capacity gets in after exactly as many of the oldest residents have gone as it needs; a larger one changes nothing |
| LruCache.LRU.OnServe | eval/scripts/caching/fig1_sim.py:152-156 | every item up to the capacity is admitted as most recent; exactly the oldest residents go, and one fewer would not have been enough |
| LruCache.LaterKeeps | eval/scripts/caching/fig1_sim.py:148-150 | moving an id to the end is a permutation |
| LruCache.LaterIsLast | eval/scripts/caching/fig1_sim.py:148-150 | the id moves to the end and the others keep their order |
| GdsfCache.GDSF.EvictOne | eval/scripts/caching/fig1_sim.py:207-216 | in spite of stale heap entries the victim is the resident of least current priority, and the clock moves to exactly that priority |
| GdsfCache.PoppedIsVictim | eval/scripts/caching/fig1_sim.py:208-213 | a popped entry that is current names the resident of least priority, although older entries of others lie in the heap |
| GdsfCache.GDSF.Repri | eval/scripts/caching/fig1_sim.py:187-191 | a resident is filed at its current rating, never below the clock |
| GdsfCache.RateMeans | eval/scripts/caching/fig1_sim.py:187-191 | a rate lies above the clock by frequency times last miss cost per byte, sizes below one byte counting as one |
| GdsfCache.RateGrows | eval/scripts/caching/fig1_sim.py:187-191 | more accesses or a costlier miss rate strictly higher |
| GdsfCache.GDSF.Touch | eval/scripts/caching/fig1_sim.py:193-196 | counts the access and re-rates a resident; nothing else changes |
| GdsfCache.GDSF.MakeRoom | eval/scripts/caching/fig1_sim.py:131-133 | the loop leaves exactly the residents the eager policy leaves and moves the clock to the highest priority evicted |
| GdsfCache.GDSF.OnServe | eval/scripts/caching/fig1_sim.py:198-202 | the residents afterwards are those the eager policy leaves, plus the item; the others keep their priorities and the clock is the highest priority evicted |
| GdsfCache.FitKeepsTheBest | eval/scripts/caching/fig1_sim.py:128-135 | the eager policy evicts only what has priority no higher than anything it keeps, and stops as soon as the item fits |
| GdsfCache.FitNoMore | eval/scripts/caching/fig1_sim.py:131-133 | the eager policy evicts no more than it must: the last one to go was still in the way |
| BaseBiasCache.BaseBias.constructor | eval/scripts/caching/fig1_sim.py:222-233 | candidates are taken by value per byte, best first; pinned bases fill at most half the capacity, and a candidate is passed over only when it did not fit after the better ranked ones |
| BaseBiasCache.Rank | eval/scripts/caching/fig1_sim.py:228-228 | the candidates, each once, best value per byte first |
| BaseBiasCache.RankingMeans | eval/scripts/caching/fig1_sim.py:228-228 | earlier in the ranking means no less value for the same bytes |
| BaseBiasCache.BaseBias.MakeRoom | eval/scripts/caching/fig1_sim.py:131-133 | evicts the oldest unpinned residents, and no more than needed, until the item fits or only pinned bases are left |
| BaseBiasCache.BaseBias.OnServe | eval/scripts/caching/fig1_sim.py:235-241 | an item is admitted if and only if it fits beside the pinned bases; one that fits the capacity but not beside them flushes every unpinned resident and is still not admitted |
| BaseBiasCache.TurnedAway | eval/scripts/caching/fig1_sim.py:128-135 | capacity 10 with a pinned base of 5: an item of 6 is turned away and the unpinned resident is gone |
| BaseBiasCache.KeptBytes | eval/scripts/caching/fig1_sim.py:222-233 | part of the residents never takes more bytes than all of them |
| ReconCache.BumpGrows | eval/scripts/caching/fig1_sim.py:261-265 | a decayed count never exceeds 1000 and never falls when an access is counted |
| ReconCache.BumpMeans | eval/scripts/caching/fig1_sim.py:261-265 | an access adds one to a count that has lost a thousandth, and leaves the others |
| ReconCache.DensityGrows | eval/scripts/caching/fig1_sim.py:267-271 | so densities never fall |
| ReconCache.DensityMeans | eval/scripts/caching/fig1_sim.py:267-271 | a raw tensor is worth its own accesses and those of its family, a delta the bytes its accesses save for each byte it takes |
| ReconCache.BehindMeans | eval/scripts/caching/fig1_sim.py:292-295 | a popped entry is taken as it is while the density has grown by a twentieth at most |
| ReconCache.StaleWithout | eval/scripts/caching/fig1_sim.py:287-297 | every pop lowers the number of stale heap entries or the heap, so eviction terminates |
| ReconCache.PoppedIsNearlyLeast | eval/scripts/caching/fig1_sim.py:290-296 | an entry that is accepted names a resident whose density is at most 1.05 times the least plus 1e-12 |
| ReconCache.Recon.Bump | eval/scripts/caching/fig1_sim.py:261-265 | counts an access for the tensor and its base family and keeps every heap entry below its density |
| ReconCache.Recon.MakeRoom | eval/scripts/caching/fig1_sim.py:131-133 | each victim in turn had nearly the least density of those left, and the last one was still needed |
| ReconCache.Recon.EvictOne | eval/scripts/caching/fig1_sim.py:287-297 | eviction terminates, fails only on an empty cache, and its victim has within 5% the least density of all residents |
| ReconCache.Recon.OnServe | eval/scripts/caching/fig1_sim.py:276-280 | counts the access, then admits every item up to the capacity; each victim in turn had nearly the least density of those left, and the last one was still needed |
| ReconCache.Recon.OnBaseFetch | eval/scripts/caching/fig1_sim.py:282-285 | the same for a fetched base, without counting an access |
| CacheCell.Request | eval/scripts/caching/fig1_sim.py:336-378 | a live request adds its entry to the tally: a hit is free, a raw miss costs the origin the tensor, a delta miss the delta and a decode, and the base as well exactly when it is neither resident nor fetched in this pull; the cache moves by one access, fetch and admission of the policy |
| CacheCell.MovedMeans | eval/scripts/caching/fig1_sim.py:341-378 | a hit changes only counts; a miss brings in the tensor and a base that had to be fetched, as far as they can fit, and nothing else; the tensor and a resident base it was decoded against count one access more |
| CacheCell.PullBalanced | eval/scripts/caching/fig1_sim.py:332-378 | over a pull, hits, raw misses and delta misses make up the requests, their bytes are those of the tensors asked for, and every base fetched is counted and paid for exactly once |
| CacheCell.PullCosts | eval/scripts/caching/fig1_sim.py:338-375 | over a pull, by the cache each request found: hit bytes are those of the hits, raw bytes those of the raw misses, the two delta totals are the deltas missed with and without the base at hand, decode time is that of all delta misses, base bytes those of the bases of the misses that fetched one |
| CacheCell.PullOrigin | eval/scripts/caching/fig1_sim.py:351-375 | a pull is charged its raw misses, its missed deltas and the bases it fetched, each once |
| CacheCell.FetchedMeans | eval/scripts/caching/fig1_sim.py:357-372 | a base has been fetched in a pull exactly when a delta against it missed while it was not resident |
| CacheCell.ReportAddsUp | eval/scripts/caching/fig1_sim.py:379-399 | over the live pulls, the four origin totals sum to what the pulls were charged, decode time too, requests and bytes are those of the trace, base fetches those of the pulls |
| CacheCell.AllCosts | eval/scripts/caching/fig1_sim.py:385-396 | the report over all live pulls is made of the same parts, and the origin total is raw misses plus missed deltas plus bases fetched for them |
| CacheCell.RunCell | eval/scripts/caching/fig1_sim.py:303-385 | every request of the trace found the cache as the one before left it, the tally is made of hits, raw misses, delta misses and base fetches as the caches found decide, the per-pull lists are those of the live pulls, and the tally adds up |
| AttachPlanner.DistanceByDots | eval/scripts/full_hub/planner.py:48-49 | the distance computed from norms and dot products is the sum of squared differences |
| AttachPlanner.NormalisedOrder | eval/scripts/full_hub/planner.py:95-97 | normalising keeps the order, so the first least entry is the first nearest base |
| AttachPlanner.NormalisedMeans | eval/scripts/full_hub/planner.py:96-96 | a squared distance is divided by the two rows and the bits of the tensor, at least one |
| AttachPlanner.NaiveExplained | eval/scripts/full_hub/planner.py:38-46 | in the one-at-a-time plan every row is a base or a target and never both; every target's base is the first nearest fingerprinted base before it and is no target; a fingerprinted base was opened only because no earlier one would have paid; skipped rows are the bases without fingerprint |
| AttachPlanner.ArgMinIsNearest | eval/scripts/full_hub/planner.py:89-97 | the least entry over block and appended columns is the first nearest base |
| AttachPlanner.Decide | eval/scripts/full_hub/planner.py:89-100 | over the block computed before the chunk and the columns added within it, the first nearest base and its distance are found |
| AttachPlanner.PlaceOne | eval/scripts/full_hub/planner.py:71-103 | one row inside a chunk is placed as the one-at-a-time planner places it, and a base opened there is visible to the rows after it |
| AttachPlanner.PlanGroup | eval/scripts/full_hub/planner.py:38-106 | for every chunk size the chunked planner returns the plan of the one-at-a-time planner; every attachment is to a row earlier in the group, at the distance of the two fingerprints, and predicted to shrink to 0.7 at most |
| ConflictResolution.KeptIsDepthOne | ae/charts/model_level_reduction.py:676-689 | no base of a kept pair is the target of a kept pair, for any gains and also with self-pairs |
| ConflictResolution.Values | ae/charts/model_level_reduction.py:669-675 | gains and base values are those of the pairs of the plan |
| ConflictResolution.Resolve | ae/charts/model_level_reduction.py:668-689 | the surviving pairs are exactly those in which neither target nor base must give way, a tensor is a target exactly when its pair survives, and no surviving base is a target |
| PlanAccounting.BookOne | ae/charts/model_level_reduction.py:693-713 | processing one tensor, in any order, keeps the totals equal to the sums over the tensors reached so far |
| PlanAccounting.AccountOne | ae/charts/model_level_reduction.py:696-713 | visiting one tensor adds it, and its base when it is a delta, unless they have been counted already |
| PlanAccounting.Account | ae/charts/model_level_reduction.py:691-716 | original and stored totals are sums over the reached tensors, with each delta counted at its stored size |
| PlanAccounting.Chronological | ae/charts/model_level_reduction.py:691-692 | the models that are known and have a creation time, oldest first |
| PlanAccounting.OverallReduction | ae/charts/model_level_reduction.py:668-716 | from plan, sizes and models to the totals: the original is the sum over the tensors of the known models and the bases of the surviving entries among them, the stored total less by what those entries save, and the reduction their ratio in per cent |
| PlanAccounting.SurvivingIs | ae/charts/model_level_reduction.py:668-689 | an entry survives exactly by comparing what it saves, never below zero, with what its children save |
| PlanAccounting.TotalsOfEntries | ae/charts/model_level_reduction.py:693-716 | original bytes are the sizes of the visited tensors and of the bases of their surviving entries; stored bytes are less by size minus delta bytes of each visited target whose entry survives |
| PlanAccounting.TwoTensors | ae/charts/model_level_reduction.py:668-716 | two tensors of 100 bytes with a delta of 10 between them: 200 bytes take 110 |
| PlanAccounting.SameSurvive | ae/charts/model_level_reduction.py:668-689 | which pairs survive does not depend on the order of the plan |
| PlanAccounting.SameTotals | ae/charts/model_level_reduction.py:668-716 | two orders of the plan, of the models, of the tensors in them or other creation times give the same two totals, as long as the timed models contain the same tensors |
| PlanAccounting.OrderIsIrrelevant | ae/charts/model_level_reduction.py:691-716 | the tensors visited depend only on which tensors the models contain, not on the order of models or of tensors in them |
| ReplanAdopt.Candidates | eval/scripts/full_hub/replan_adopt.py:56-75 | the candidate pairs are exactly the published rows whose two tensors exist |
| ReplanAdopt.PairIsPublished | eval/scripts/full_hub/replan_adopt.py:56-85 | a candidate pair carries what its row promises: the measured ratio, else the predicted one if it lies between 0 and 1, else 0.35, and the bytes that ratio saves, never below zero |
| ReplanAdopt.FallbackKeeps | eval/scripts/full_hub/replan_adopt.py:106-120 | one fallback pair keeps roles and pairs consistent and adds no second level unless it joins a tensor to itself |
| ReplanAdopt.Fallback | eval/scripts/full_hub/replan_adopt.py:106-120 | the branch of the loop body is the specified turn of one tensor |
| ReplanAdopt.TurnKeeps | eval/scripts/full_hub/replan_adopt.py:106-120 | one turn gives the tensor a role and keeps everything the adoption promises: consistent roles, pairs with a source, a stated reason for every missing pair, no base that is another pair's target |
| ReplanAdopt.Adopt | eval/scripts/full_hub/replan_adopt.py:56-120 | in whatever order the tensors are gone through, each gets a role and is a target exactly when it has a pair; pairs are kept published ones or fallback partners, and a tensor without a pair has a stated reason; no pair's base is the target of another pair; one delta deep unless a tensor without a published role is its own fallback partner |
| ReplanAdopt.DepthInEveryOrder | eval/scripts/full_hub/replan_adopt.py:106-120 | the result is one delta deep in every order of the tensors if and only if every physical tensor that is its own fallback partner is a published target or the base of a kept pair |
| ReplanAdopt.SelfPairSurvives | eval/scripts/full_hub/replan_adopt.py:106-120 | one tensor with itself as partner ends as target and base at once |
| ReplanAdopt.PlannerPairsOthers | eval/scripts/full_hub/replan_adopt.py:96-104 | fallback partners that the attach planner has assigned satisfy that condition, whatever the published plan |
| ChainSplit.BestOpen | examples/benchmark_chain_strategies.py:58-72 | the returned member is the first of greatest positive gain, or none when no gain is positive |
| ChainSplit.OpeningSaves | examples/benchmark_chain_strategies.py:58-91 | opening a member and letting each other member move where its ratio is smaller lowers the partition's cost by exactly the computed gain |
| ChainSplit.GainOf | examples/benchmark_chain_strategies.py:64-69 | the gain of a member is what the others would save less what it costs to revert to raw |
| ChainSplit.Partition | examples/benchmark_chain_strategies.py:83-87 | splits the other members by which of the two bases is nearer, the old one on ties, keeping their order |
| ChainSplit.KeptOrder | examples/benchmark_chain_strategies.py:83-87 | who stays and who moves keep their order |
| ChainSplit.CutAccounts | examples/benchmark_chain_strategies.py:75-91 | for every tree of openings: distinct members are opened, and the partition costs the star less the gains at its openings |
| ChainSplit.WorthMeans | examples/benchmark_chain_strategies.py:79-81 | an opening is worth it exactly when its gain is positive and at least the threshold's share of the star's cost |
| ChainSplit.SmallPartsStay | examples/benchmark_chain_strategies.py:88-91 | a part with a single member is left whole, a larger one only when no member is worth opening |
| ChainSplit.Split | examples/benchmark_chain_strategies.py:75-91 | the recursion opens what the one tree of openings says (at each star the first member of greatest gain, as long as it is worth it by gain and threshold, and only in stars of two members below the first); the opened bases are distinct members, and the induced partition costs the star less the sum of the gains computed at the openings, all positive |
| ChainSplit.CutUnique | examples/benchmark_chain_strategies.py:75-91 | there is exactly one such tree for given ratios and threshold |
| ChainSplit.SplitStrategy | examples/benchmark_chain_strategies.py:113-120 | tensor 0 and the openings of the tree are the bases; the reported cost is that of every other member at its nearest base, and is at most the star's less all gains computed at the openings |
| ChainSplit.StarFirst | examples/benchmark_chain_strategies.py:103-104 | the cost of storing every other tensor against the first |
| ChainSplit.Compare | examples/benchmark_chain_strategies.py:95-121 | star is the cost of storing everything against tensor 0, split that of tensor 0 and the openings of the tree with every other tensor at its nearest; for any real ratios and any threshold split is at most star, and less as soon as a base is opened |
| WorkUnits.Group | eval/scripts/full_hub/executor.py:218-220 | one group per base, holding that base's targets in plan order; together exactly the pairs of the plan |
| WorkUnits.Cut | eval/scripts/full_hub/executor.py:223-234 | the units of a group join to its targets in order, exceed the cap only with a single target, and none was closed before the next target made it too large |
| WorkUnits.MakeUnits | eval/scripts/full_hub/executor.py:218-234 | the units hold every pair of the plan exactly once |
| WorkUnits.SortUnits | eval/scripts/full_hub/executor.py:241-241 | a permutation, heaviest first |
| WorkUnits.WeightIs | eval/scripts/full_hub/executor.py:236-239 | a unit weighs its base, counted once, and all its targets |
| WorkUnits.Lightest | eval/scripts/full_hub/executor.py:245-245 | the first shard of least weight |
| WorkUnits.Deal | eval/scripts/full_hub/executor.py:242-247 | each unit goes to a shard of least weight, and the running weights are the shards' loads |
| WorkUnits.LoadIsBytes | eval/scripts/full_hub/executor.py:242-247 | a shard's weight is the bytes of all its targets and of one base for each of its units |
| WorkUnits.BuildShards | eval/scripts/full_hub/executor.py:218-247 | every pair is in exactly one unit of one shard; no shard exceeds the average by more than (m-1)/m of the heaviest unit, nor 4/3 - 1/(3m) times the heaviest shard of any other dealing of the same units |
| Sharding.LoadsAddUp | eval/scripts/full_hub/executor.py:242-247 | whatever the dealing, the shards together carry all the units |
| Sharding.GreedyBound | eval/scripts/full_hub/executor.py:244-247 | m times any shard's load is at most the total plus m - 1 times the heaviest unit |
| Sharding.NoOverflow | eval/scripts/full_hub/executor.py:241-247 | heaviest first, a unit heavier than a third of the best makespan never pushes a shard beyond it |
| Sharding.HeaviestFirstBound | eval/scripts/full_hub/executor.py:241-247 | heaviest-first dealing stays within 4/3 - 1/(3m) of every possible dealing |

## Left out

- ClosureRun.Run: completion, the exact contents of the store and the exact lookups are characterised for blobs whose header names the catalog's base or none; for other blobs, what surfaces, why a run stops and the refusal of cycles.
- ClosureRun.Consume: the statistics (counts, bytes, times) are not modelled, and a blob arrives whole or not at all; partial reads and ContentLength belong to the network.
- BaseStores.BaseStore.Put: requires that the tid is not resident, which the run is proved to respect; a second put would count its bytes twice.
- BaseStores.BaseStore.Clear: the spill directory is a map; file system errors are not modelled.
- FetchProtocol.EveryRunCompletes: scheduling fairness is not needed because runs are finite; timeouts of the condition variable only cause another check and are not steps.
- Manifest.Build: the version hash, shapes, types and codec names of a manifest are not modelled, parameters keep the order of the table, and the SQL tables are maps.
- Materializer.Materialize: one request against a cache nobody else changes meanwhile; that entries stay correct under any puts and evictions is the invariant of the cache class, that requests for one tid exclude each other is SingleFlight. Pins and the staying power of a cut ancestor are not claimed.
- Materializer.WarmJob: job states, metrics and logging are not modelled.
- Materializer.RunInto: for headers that disagree with the catalog, what is written is only claimed to have the right hash. What workers may still fetch after an error is not part of the list of arrivals.
- CacheServer.Materialize: the big-tensor gate is part of SingleFlight only.
- SingleFlight.MissesCoalesce: at most one decode per tid is claimed without evictions; with them a tid may rightly be decoded again.
- Evictor.EvictPass: the score is a parameter, either the access time or Evictor.DagValue; reading manifests and the file system usage are not modelled, and entries whose file cannot be unlinked are a parameter.
- LocalSearch.Refine: requires a non-empty start; costs lie between 0 and the sentinel 1e30, which stands for infeasible, and opening costs lie below it. Floating point and parallel loops are reals and sequential loops.
- The greedy phase before the local search: its stored gains are not upper bounds, because selecting an item may raise its own cost.
- PrimalDual.Solve: the distance-based twin of the algorithm is the same loop and is modelled once. No approximation ratio is claimed: opened bases leave the loop, so the textbook bound does not carry over.
- AttachPlanner.PlanGroup: squared distances are integers and the predicted ratio is any function of the normalised distance.
- ReplanAdopt.Adopt: the emitted arrays and the counters are not modelled.
- ChainSplit.SplitStrategy: ratios are any reals; the strategies chain, star-mid and k-center are plain sums and are left out.
- WorkUnits.BuildShards: the number of shards and the cap are parameters; encoding, uploading and the statistics about fetching a base again are not modelled.
- Inheritance in the cache simulator: the shared admission loop is written out in each cache because each is proved on its own.
- BaseBiasCache.BaseBias.constructor: candidates of size zero, which the ranking would divide by, and negative capacities are excluded; candidates of equal value per byte come by id.
- CacheCell.Request: the miss costs noted for the GDSF policy are not part of this policy's cell.
- ConflictResolution.Values: the gain is part of a pair; PlanAccounting.Priced computes it from the sizes.
- CacheCell.RunCell: models the reconstruction-aware policy; the other policies ignore a fetched base. The division by a gigabyte and the quantiles of the report are left out. No tensor is its own base.
- The Rust kernels, sketches and planner, networking, SQLite, the web services, plots and command lines.
