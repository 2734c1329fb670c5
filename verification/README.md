# Parallel algorithms: a verified model

The repository is a suite of parallel algorithms.  Most of them promise that a concurrent or in-place
algorithm gives exactly the answer of a simple sequential one, under any schedule.  This project models
their hardest parts in Dafny and proves those promises.

How concurrency is modelled.  A parallel phase is a set of threads, each at some point of its body (a
`Pc` datatype).  A step function performs one memory access of one thread: a load, a store, a
compare-and-swap, or a `write_min`.  A method runs the phase as a loop that, as long as some thread has
not ended, picks any of them and lets it take one step, so that what is proved of the method holds of
every interleaving.  An invariant is proved to survive every step of every thread; what the phase
promises is read off the invariant when all threads have ended.  Compare-and-swap loops (`write_min`) are
modelled once at the level of loads and swaps (`Atomics`), where they are shown to be atomic; elsewhere a
`write_min` is one step.

The modules, by group:

* deterministic reservations: `Schedule` (adding up what threads have left to do), `Atomics`,
  `SpeculativeFor` (both drivers), `Shuffle`, `Matching`, `IndependentSet`, `Coloring`, `Kruskal`;
* concurrent structures: `Connectivity` (paths, forests), `UnionFind`, `Components`, `SpanningForest`,
  `FairForest` (fair schedules finish it), `HashMap`, `PushRelabel`, `FlowNetwork` and `ResidualSearch`
  (its set-up and its global relabel);
* the string pipeline: `Permutations`, `Suffixes` (reference notions), `SuffixArray`, `RangeMin`,
  `LcpTable`, `BurrowsWheeler`, `WrappedOrder` and `CoincidingText` (when the round trip fails);
* pointer meshes and trees: `Topology`, `Delaunay`, `Reservations`, `InsertionRound`, `CartesianTree`;
* peeling and in-place geometry: `KCore`, `QuickHull`;
* `Graphs` and `Sorting` hold what several of them share.

Where the code and its own description disagree, the code is what is modelled:

* `algorithm/suffix_array.h:162` stores the dense number of a character (1 to 256) in a byte.  When all
  256 byte values occur, byte 255 gets number 0, that of the end of the string.  `SuffixArrayOf` proves
  that the result is then the suffix order with byte 255 below the others, so that it is the suffix array
  exactly when some byte value does not occur; and that the rounds never end exactly when, besides, the
  last two bytes are 255.
* As a consequence the Burrows-Wheeler round trip, promised for every text without a null byte, fails for
  some texts.  `RoundTrip` gives the exact condition: the two orders, with byte 255 on top and below, must
  put the same characters before the suffixes.  They do whenever some nonzero byte value does not occur.
  They do not (`RareMeansWrong`) when all occur and byte 255 is rare: when at least as many byte values
  below 255, the null counted, occur no more often than 255 as 255 occurs.  So every text with all byte
  values and a single 255 is lost (`SingleIsWrong`), for one the bytes 1 to 255, each once
  (`EachOnceIsWrong`); with a second 255 at its end that text has no code at all (`TwoAtTheEndHasNone`).
  That all byte values occur is not enough: `SomeTextComesBack` has a text with all of them on which the
  orders coincide.
* `parlaylib/examples/push_relabel_max_flow.h:30-32` asks of the input only that an edge from u to v comes
  with one from v to u.  The cross-linking at lines 215-226 then pairs neighbours in the sorted order of
  the edges.  `PairingIsRight` proves that this pairs each edge with an edge back, however the sort leaves
  edges with the same two ends, just if no two edges lead from one vertex to the same other and each
  vertex has an even number of edges to itself.
* `benchmarks/BWDecode/listRank/bw.C:128` says that the first character is dropped; the code drops the
  last, which is the null.
* `common/speculative_for.h:55` starts with `maxRoundSize/4`; a range for which `maxRoundSize` is below 4
  starts with rounds of size 0 and never takes an iteration.  `RunBlocked` proves that the loop then runs
  into its limit of rounds.

## Model

| member | source | states |
|---|---|---|
| Atomics.Cell.WriteMin | common/atomics.h:58-64 | any number of concurrent calls, under any interleaving of their loads and swaps, linearize: they act as if each ran at once in some order, and each is told whether it lowered the cell in that order |
| Atomics.WriteMinOutcome | common/atomics.h:58-64 | in every such order the cell ends at the least of its first value and all operands; if it changed, a call with the final value was told so; only calls below the first value are told so |
| Atomics.CellFalls | common/atomics.h:58-64 | along the order the cell only falls, stays below every operand that has run, and holds its first value or that of a call that won |
| Atomics.SettleStep | common/atomics.h:60-63 | a call whose answer is settled by its last load or swap can be placed next in the order |
| SpeculativeFor.BatchIsSmallestUnfinished | parlaylib/examples/helper/speculative_for.h:62-66 | the carried iterations followed by fresh ones are the strictly increasing list of the smallest unfinished iterations |
| SpeculativeFor.RoundAdvances | parlaylib/examples/helper/speculative_for.h:69-80 | after a round exactly the iterations below the counter's frontier and not carried are finished, none finishes twice, and the frontier advances if the lowest one finished |
| SpeculativeFor.FinishedOrPacked | parlaylib/examples/helper/speculative_for.h:76-79 | every iteration of a batch is finished or carried forward, never both |
| SpeculativeFor.PackIncreasing | parlaylib/examples/helper/speculative_for.h:78 | packing an increasing batch gives an increasing list, so priorities survive |
| SpeculativeFor.Driver.NextBatchIsSmallest | parlaylib/examples/helper/speculative_for.h:61-74 | as long as the loop runs, the next batch is nonempty and holds the smallest unfinished iterations |
| SpeculativeFor.Driver.EndRound | parlaylib/examples/helper/speculative_for.h:76-84 | for any outcome of a round: exactly the iterations it finished are added, for the first time, and the loop stands at a frontier again |
| SpeculativeFor.Driver.AllFinished | parlaylib/examples/helper/speculative_for.h:61-86 | when the loop ends every iteration of the range has finished |
| SpeculativeFor.RoundOf | parlaylib/examples/helper/speculative_for.h:61-84 | under both rules for the round size, a round takes the smallest unfinished iterations, finishes none twice, leaves room for all it carries, and advances if the lowest one finished |
| SpeculativeFor.Run | parlaylib/examples/helper/speculative_for.h:52-86 | if the lowest pending iteration always finishes, the loop ends after at most one round per iteration; the batches returned are those of the run that the outcomes of the rounds determine, each holds the smallest iterations that the rounds before it left, and what the rounds finish partitions the range; if every iteration finishes at once, the batches have sizes s, 2s, 4s and so on from the starting size s, up to the end |
| SpeculativeFor.SizesOfRun | common/speculative_for.h:105-111 | the size of the next round by the share of iterations carried: above .2 the larger of half, maxRoundSize/64 + 1 and what is carried, below .1 twice the size up to maxRoundSize, else the same; and in the other driver twice the size below .2, else the same |
| SpeculativeFor.RunBlocked | common/speculative_for.h:50-114 | the same for the driver whose round size halves and doubles: it completes exactly if its run reaches the end of the range within the limit of rounds, 100 + 200 times the granularity by default, and counts the iterations of all batches; that is so whenever (e-s)/granularity is at least 3 and the limit allows one round per iteration; if every iteration finishes at once, granularity + 2 rounds are enough, so the default limit is; below 3 every batch is empty and it runs into the limit |
| SpeculativeFor.StillRunning | common/speculative_for.h:50-114 | the round size grows from a quarter of the largest to it in three rounds, which are together as large as the largest, so a loop that carries nothing over is done after granularity + 2 rounds |
| Shuffle.RandomShuffle | parlaylib/examples/knuth_shuffle.h:21-54 | for every schedule of both phases and every choice of targets with rand[i] <= i, the array ends as the sequential loop of swaps leaves it |
| Shuffle.RunLastIsRunInPlace | parlaylib/examples/knuth_shuffle.h:34-51 | running a swap out of turn gives the same array as running it in turn when no later swap already done touches its positions |
| Shuffle.WinnersDisjoint | parlaylib/examples/knuth_shuffle.h:35-51 | iterations that win in the same round touch different positions |
| Shuffle.WinnersOrdered | parlaylib/examples/knuth_shuffle.h:35-51 | when an iteration wins, every earlier one that touches a position of it is done |
| Shuffle.CommitStepKeepsInv | parlaylib/examples/knuth_shuffle.h:43-51 | between the loads and stores of concurrent swaps the array is that of the swaps done so far in order, up to the stores still to come |
| Shuffle.CommitPhaseEnds | parlaylib/examples/knuth_shuffle.h:43-51 | after a round a cell is n if its iteration is done and -1 if not, and the array is that of the done iterations in order |
| Shuffle.CommitPhase | parlaylib/examples/knuth_shuffle.h:43-51 | the threads of a commit phase, in any interleaving, leave such a state, and the lowest iteration has committed |
| Shuffle.ShuffleIsPermutation | parlaylib/examples/knuth_shuffle.h:28-53 | the result is a rearrangement of the input |
| Shuffle.RestIsUntouched | parlaylib/examples/knuth_shuffle.h:28-53 | what the loop of swaps has not reached is untouched |
| Shuffle.ShuffleIsInjective | parlaylib/examples/knuth_shuffle.h:28-53 | on distinct elements different target choices give different arrangements, so the n! choices give all n! arrangements |
| Matching.GreedyTakes | parlaylib/examples/maximal_matching.h:21-44 | the sequential reference: an edge is taken exactly if it is no loop and no earlier taken edge touches its ends |
| Matching.GreedyIsMaximalMatching | parlaylib/examples/maximal_matching.h:15-52 | the edges taken share no vertex and no edge can be added |
| Matching.MaximalMatching | parlaylib/examples/maximal_matching.h:15-52 | for every schedule the edges returned are exactly the greedy ones, each once |
| Matching.ReserveStepKeepsInv | parlaylib/examples/maximal_matching.h:21-28 | through every step of the reserve phase a cell holds what it held or the least edge that has reserved it |
| Matching.WinnerIsGreedy | parlaylib/examples/maximal_matching.h:33-44 | an edge that holds both its ends is a greedy edge |
| Matching.DroppedIsNotGreedy | parlaylib/examples/maximal_matching.h:24 | an edge that the reserve phase drops is not a greedy edge |
| Matching.LowestIsDecided | parlaylib/examples/maximal_matching.h:21-44 | the lowest pending edge wins both its ends |
| Matching.CommitStepKeepsInv | parlaylib/examples/maximal_matching.h:33-44 | the tests, resets and marks of concurrent commits do not disturb one another |
| Matching.CommitPhaseEnds | parlaylib/examples/maximal_matching.h:33-44 | between rounds the matched vertices are those of the decided greedy edges, exactly one end of each holds its id, and no other vertex is reserved |
| Matching.Collect | parlaylib/examples/maximal_matching.h:50-51 | packing the reserved cells lists every taken edge once and nothing else |
| IndependentSet.MaximalIndependentSet | parlaylib/examples/maximal_independent_set.h:14-38 | for every schedule the set is the greedy one; it is independent if the graph is symmetric |
| IndependentSet.GreedyIsMaximalIndependent | parlaylib/examples/maximal_independent_set.h:14-38 | the greedy set is independent and every vertex outside has a neighbour inside |
| IndependentSet.GreedyIsLexicographicallyFirst | parlaylib/examples/maximal_independent_set.h:14-38 | an independent set that agrees with the greedy one on earlier vertices has a vertex only if the greedy one does |
| IndependentSet.ReserveStepKeepsInv | parlaylib/examples/maximal_independent_set.h:22-30 | a vertex joins only when all earlier neighbours were decided in earlier rounds and are outside, whatever other threads write meanwhile |
| IndependentSet.RoundEnds | parlaylib/examples/maximal_independent_set.h:22-36 | after a round the decided vertices are right, undecided ones are outside, and the lowest one was decided |
| Coloring.FreeColor | parlaylib/examples/graph_color.h:53-59 | the scan of the sorted neighbour colours finds the least colour that none of them has |
| Coloring.GraphColoring | parlaylib/examples/graph_color.h:25-69 | for every symmetric graph and every schedule the colouring is the sequential one by decreasing degree, and proper |
| Coloring.GreedyIsUnique | parlaylib/examples/graph_color.h:28-69 | there is only one colouring in which every vertex has the least colour that its earlier neighbours leave free |
| Coloring.GreedyIsProper | parlaylib/examples/graph_color.h:48-63 | in it no two neighbours share a colour |
| Coloring.CommittingAreApart | parlaylib/examples/graph_color.h:41-46 | a vertex that commits has no neighbour that commits in the same round |
| Coloring.NeighboursStand | parlaylib/examples/graph_color.h:48-51 | so the neighbour colours that a commit reads are those from before the phase |
| Coloring.ColouredByEnd | parlaylib/examples/graph_color.h:41-63 | a vertex coloured by the end of a round has the least colour free among its earlier neighbours |
| Connectivity.ConnectedWithEdge | parlaylib/examples/spanning_tree.h:12-18 | one more edge connects two vertices exactly if they were connected or each was connected to another end of it |
| Connectivity.ForestExtends | parlaylib/examples/spanning_tree.h:39-41 | an edge between two components added to a forest gives a forest |
| Connectivity.SpansAll | parlaylib/examples/spanning_tree.h:12-18 | a spanning forest has the components of the whole graph |
| UnionFind.FindStepCorrect | parlaylib/examples/helper/union_find.h:25-38 | every step of find, shortcuts included, keeps each pointer at a proper ancestor in the forest of links; what it answers is at that moment the root of its argument's tree |
| UnionFind.FindInvSurvivesLink | parlaylib/examples/helper/union_find.h:25-46 | a find in progress keeps what it knows when another thread links |
| UnionFind.FindWorkFalls | parlaylib/examples/helper/union_find.h:25-38 | every access of a find brings it nearer to a root, as long as nothing is linked |
| UnionFind.FindMore | parlaylib/examples/helper/union_find.h:25-38 | one access in place, store of a shortcut included, keeps the array right and answers with the root of that moment or comes nearer to one |
| UnionFind.FindSkips | algorithm/union_find.h:43-56 | a find with no other thread at work answers with the root of its argument, and afterwards each vertex on its way points two places further on, and the last before the root still to the root |
| UnionFind.FindHalves | algorithm/union_find.h:43-56 | so the way from its argument to the root has become half as long |
| UnionFind.LinkStep | parlaylib/examples/helper/union_find.h:44-46 | the store of a link of a root into another tree makes the array that of the joined forest |
| UnionFind.LinkKeepsForest | parlaylib/examples/helper/union_find.h:40-46 | such a link makes no cycle: roots and heights stay right |
| UnionFind.AboveSurvivesLink | algorithm/union_find.h:43-56 | ancestors stay ancestors under links, so pointers shortcut earlier stay right |
| Components.LinkMatches | parlaylib/examples/spanning_tree.h:34-41 | linking the trees of an edge's ends makes the components that adding the edge makes, and the ends were not connected before |
| SpanningForest.OtherStepKeepsInv | parlaylib/examples/spanning_tree.h:33-40 | finds, swaps and tests of any thread keep the invariant: hooked edges are linked or about to be, and the forest is that of the links |
| SpanningForest.LinkStepKeepsInv | parlaylib/examples/spanning_tree.h:39-41 | at every link the hooked vertex is still a root and its edge joins two components of the edges linked so far |
| SpanningForest.FinishedSpans | parlaylib/examples/spanning_tree.h:28-48 | when all threads have finished, the linked edges connect the ends of every edge and are those named in the hooks |
| SpanningForest.After | parlaylib/examples/spanning_tree.h:26-48 | the memory, the threads and the edges linked after any schedule are those of its accesses one by one, each of them possible, and satisfy the invariant |
| SpanningForest.Run | parlaylib/examples/spanning_tree.h:20-49 | under every schedule of any length the edges linked by it form a forest and are among those returned, each once; the run reports completion exactly if all its threads have finished, and then the edges returned are those linked, and they span |
| FairForest.ChancesFall | parlaylib/examples/spanning_tree.h:33-42 | no access frees a hook or makes a root; a successful swap takes a free hook and a link takes a root, and every other access leaves hooks and links as they are |
| FairForest.CostFalls | parlaylib/examples/spanning_tree.h:33-42 | while no thread is between its swap and its link, every access of an unfinished thread brings it nearer to its end or to a swap, whatever shortcuts the others make |
| FairForest.RoundFalls | parlaylib/examples/spanning_tree.h:30-44 | a part of the schedule that names every thread takes a free hook or a root, or leaves the threads together fewer accesses to go, unless all have finished |
| FairForest.FairFinishes | parlaylib/examples/spanning_tree.h:26-44 | every schedule that can be cut into enough parts, each naming every thread, leaves no thread unfinished; how many are enough depends on the numbers of vertices and edges alone |
| FairForest.RoundRobinFinishes | parlaylib/examples/spanning_tree.h:26-44 | in turn, the threads all finish within that many rounds |
| Kruskal.GreedySpans | parlaylib/examples/kruskal.h:24-77 | the edges that the sequential loop takes are a spanning forest |
| Kruskal.GreedyIsLightest | parlaylib/examples/kruskal.h:37-76 | no spanning forest of the sorted edges is lighter |
| Kruskal.CutMakesGreedy | parlaylib/examples/kruskal.h:52-55 | an edge that leaves a set of vertices which no earlier edge leaves is taken |
| Kruskal.WinnerIsGreedy | parlaylib/examples/kruskal.h:52-70 | an edge that holds the root of one of its ends is a greedy edge |
| Kruskal.DroppedIsNotGreedy | parlaylib/examples/kruskal.h:41-50 | an edge whose ends have the same root is not a greedy edge |
| Kruskal.HeldRootStands | parlaylib/examples/kruskal.h:56-70 | a root that an edge holds stays a root, whatever is linked in the round, until that edge links it |
| Kruskal.StillApart | parlaylib/examples/kruskal.h:52-62 | links of the round cannot join the ends of a winner that has not linked |
| Kruskal.LinkStepKeepsInv | parlaylib/examples/kruskal.h:56-70 | at every link of a commit, although it has found the roots anew, the linked vertex is a root and the other end lies in another tree: no cycle |
| Kruskal.OtherStepKeepsInv | parlaylib/examples/kruskal.h:56-70 | the other steps of concurrent commits keep the invariant |
| Kruskal.RootIsFree | parlaylib/examples/kruskal.h:60-68 | when the round ends the reservation of every remaining root is clear |
| Kruskal.CommitPhaseEnds | parlaylib/examples/kruskal.h:56-70 | after a round the forest and the marks are those of the decided greedy edges |
| Kruskal.ReserveOne | parlaylib/examples/kruskal.h:41-50 | one access of any thread of the reserve phase, inside a find or not, keeps the invariant and shortens what is left to do |
| Kruskal.FindsSurvive | parlaylib/examples/kruskal.h:56-70 | the finds that other threads are in the middle of survive a link |
| Kruskal.CommitOne | parlaylib/examples/kruskal.h:56-70 | one access of any thread of the commit phase, inside a find or not, keeps the invariant and shortens what is left to do |
| Kruskal.MinSpanningForest | parlaylib/examples/kruskal.h:24-77 | in whatever order the loads and stores of the threads take place, those of finds and links included, exactly the edges of the sequential loop are marked |
| Kruskal.KruskalForest | parlaylib/examples/kruskal.h:24-77 | from the unsorted input: the indices returned, in increasing order, are exactly those edges |
| Kruskal.SequentialIsMinimum | parlaylib/examples/kruskal.h:24-77 | they are a minimum spanning forest |
| HashMap.Setup.StepKeepsInv | parlaylib/examples/hashmap.h:58-110 | every access of every operation keeps: at most one slot per key, no empty slot between a key's home and its slot, the live slots are the bindings, and each operation's knowledge |
| HashMap.Setup.FillKeepsTable | parlaylib/examples/hashmap.h:66-69 | filling the empty slot that the search for an absent key leads to keeps the table in order |
| HashMap.Setup.EmptyMeansNowhere | parlaylib/examples/hashmap.h:66-69 | an empty slot met by the search for a key means that no slot has the key |
| HashMap.Setup.StepKeepsKeys | parlaylib/examples/hashmap.h:66-84 | a slot's key never changes once set |
| HashMap.Setup.StepKeepsTable | parlaylib/examples/hashmap.h:58-110 | a step that inserts binds an unbound key, one that removes unbinds a bound one, and no other step changes the bindings |
| HashMap.Setup.Exec | parlaylib/examples/hashmap.h:58-110 | the table, the operations and the moments after any schedule, access by access, satisfy the invariant |
| HashMap.Setup.MomentsOf | parlaylib/examples/hashmap.h:58-110 | each access adds one moment, and a moment has the bindings of the table at that time |
| HashMap.Setup.EndedAt | parlaylib/examples/hashmap.h:58-110 | an operation that has ended did so with one entry of the schedule, after starting with its first, and nothing of it changes afterwards |
| HashMap.Setup.AnswerIsRight | parlaylib/examples/hashmap.h:58-110 | its answer is right at some moment of that interval |
| HashMap.Run | parlaylib/examples/hashmap.h:58-110 | for any concurrent inserts and removes on an empty map under any schedule: the bindings of the table after each access pass through legal moments, changed only by the operations that report success; every operation that ended gave an answer that is right at a moment of its own interval, in the run up to its end; an insert overflows only if the first 1000 slots from its home, or all if fewer, hold other keys, so never while no more keys are inserted than there are such slots; an insert ends after two accesses for each slot that it may look at, and four, and a remove after one for each slot, and two, unless no slot is empty |
| HashMap.Setup.InsertionEnds | parlaylib/examples/hashmap.h:61-85 | every access of an insert, whatever the others do, brings it further along its slots, so it ends after a bounded number of them |
| HashMap.Setup.RemovalEnds | parlaylib/examples/hashmap.h:97-110 | so does a remove, unless no slot is empty, when it may spin |
| HashMap.OverfullTakesKeys | parlaylib/examples/hashmap.h:61-65 | an overflow takes more different keys than the slots an insert may look at |
| HashMap.OneRemovalBetween | parlaylib/examples/hashmap.h:58-110 | between two successive successful inserts of a key there is exactly one successful remove |
| HashMap.ProbeIs | parlaylib/examples/hashmap.h:32-33 | the probe sequence runs through the slots from the home on, around the end |
| HashMap.OverfullMeansFull | parlaylib/examples/hashmap.h:61-65 | an insert reports an overflow only when the first 1000 slots from its home on, around the end, or all slots if there are fewer, hold other keys |
| HashMap.Keys | parlaylib/examples/hashmap.h:112-116 | while nothing runs, the keys listed are those bound, each once |
| Suffixes.Lcp | algorithm/lcp.h:18-24 | the longest common prefix of two suffixes |
| Suffixes.LessComparesAtLcp | algorithm/lcp.h:18-24 | a suffix that is smaller than another is so at the end of their common prefix |
| Suffixes.OrderIsRank | algorithm/suffix_array.h:247-251 | places in a suffix array follow the order of the suffixes, so there is only one suffix array |
| SuffixArray.Doubling | algorithm/suffix_array.h:194-195 | comparing twice as many characters, the string being 0 past its end, is comparing that many and then the next ones |
| SuffixArray.PackOrder | algorithm/suffix_array.h:172-176 | packed numbers compare as the characters packed in them |
| SuffixArray.LessIsSuffixLess | algorithm/suffix_array.h:161-176 | a suffix that is smaller on its padded first characters is the smaller suffix, although the padding may equal a character |
| SuffixArray.EqualMeansSame | algorithm/suffix_array.h:161-176 | two suffixes that agree on as many padded characters as there are exist only in a string that ends in two characters equal to the padding |
| SuffixArray.RenumberKeepsOrder | algorithm/suffix_array.h:151-163 | unless all 256 byte values occur, the renumbering is positive and keeps the order |
| SuffixArray.RenumberWraps | algorithm/suffix_array.h:162-163 | if all occur, byte 255 is renumbered 0 and any other c is c + 1 |
| SuffixArray.SplitTop | algorithm/suffix_array.h:113-144 | after the first split the ranks agree exactly on suffixes with equal first characters, and the segments are those groups |
| SuffixArray.SplitSegment | algorithm/suffix_array.h:63-109 | both versions of the split name the runs of equal keys and list their segments |
| SuffixArray.OneRound | algorithm/suffix_array.h:209-247 | a round that starts with ranks that agree only on suffixes equal in `offset` padded characters, and are otherwise in suffix order, ends with such ranks for twice as many; C still lists every suffix once, and the open segments are again the unresolved groups |
| SuffixArray.SegsMeanShort | algorithm/suffix_array.h:204-206 | unless the string ends like that, a segment longer than 1 is left only while `offset` is below the length |
| SuffixArray.TieStays | algorithm/suffix_array.h:217-241 | if it does, the last two suffixes keep one rank in every round |
| SuffixArray.Rounds | algorithm/suffix_array.h:190-251 | the limit of 40 rounds is reached exactly if the renumbered string ends in two zeros; otherwise the result is its suffix array |
| SuffixArray.WrappedIsNotSorted | algorithm/suffix_array.h:151-163 | when all byte values occur, the suffix array of the renumbered string is not that of the string |
| SuffixArray.ZerosAre255s | algorithm/suffix_array.h:151-163 | the renumbered string ends in two zeros exactly if all byte values occur and the last two are 255 |
| SuffixArray.SuffixArrayOf | algorithm/suffix_array.h:147-252 | the result is the suffix array of the renumbered string, which is that of the string exactly if some byte value does not occur; there is none exactly if all occur and the last two bytes are 255 |
| RangeMin.NextRow | algorithm/range_min.h:109-117 | the entry for twice the width, clipped at the last block, is the position of a minimum of its window |
| RangeMin.RangeMin.constructor | algorithm/range_min.h:42-46 | the table's rows hold a position of a minimum for every window of 2^k blocks |
| RangeMin.WindowsCover | algorithm/range_min.h:79-83 | the two windows picked with log2_up are in the table and cover the inner blocks |
| RangeMin.BlocksSplit | algorithm/range_min.h:56-67 | a query longer than a block is cut at block boundaries inside it |
| RangeMin.RangeMin.Query | algorithm/range_min.h:48-85 | for every range and block size the answer lies in the range and is the position of a least value, as far as values below `len` tell, even if other threads meanwhile store final values that are at least `len` |
| RangeMin.LeastIsMinimum | algorithm/range_min.h:33-34 | with `len` above all values that is a minimum of the range |
| LcpTable.LcpOfRange | algorithm/lcp.h:54-56 | the common prefix of two suffixes is the least of those of the neighbours between them |
| LcpTable.RoundIsStable | algorithm/lcp.h:41-56 | the stores of a round never change a value below `len`, nor take one below it, so queries on the table being written cannot be led astray |
| LcpTable.FurtherOn | algorithm/lcp.h:53-57 | the suffixes `len` further on are in the string and in the same order, and give the rest of the prefix |
| LcpTable.CompareHeads | algorithm/lcp.h:18-24 | the direct comparison of neighbours never reads past the string, because they are sorted, and finds the prefix or that it has 111 characters |
| LcpTable.Decide | algorithm/lcp.h:52-59 | one place, decided while others are being decided, gets its prefix if that is below twice `len` and is kept otherwise |
| LcpTable.DecideAll | algorithm/lcp.h:52-59 | whatever the order, after the filter the table is that of the next length |
| LcpTable.Round | algorithm/lcp.h:46-61 | a round keeps the invariant for twice the length |
| LcpTable.LcpArray | algorithm/lcp.h:9-65 | the result is the common-prefix length of every two neighbours of the suffix array |
| LcpTable.NearestSharesMost | benchmarks/longestRepeatedSubstring/sequential-suffix-array/lrs.C:80-83 | of the smaller suffixes the nearest shares the most |
| LcpTable.BuildLcp | benchmarks/longestRepeatedSubstring/sequential-suffix-array/lrs.C:76-87 | the linear-time construction computes the same lengths, one place later |
| BurrowsWheeler.Encode | algorithm/bw_encode.h:55-77 | the code is the transform by the suffix order of the renumbered string, and the text's transform unless all byte values occur |
| BurrowsWheeler.OrderIsUnique | benchmarks/BWDecode/listRank/bw.C:46-51 | the stable order by character is determined by the string |
| BurrowsWheeler.FollowIsOrdered | benchmarks/BWDecode/listRank/bw.C:46-51 | the stable sort of a transform makes the links the successor map of the suffix order |
| BurrowsWheeler.WalkIsOrbit | benchmarks/BWDecode/listRank/bw.C:46-51 | that map is one cycle, which visits the text once around |
| BurrowsWheeler.MarkStepKeepsInv | benchmarks/BWDecode/listRank/bw.C:64-74 | racing marks add n to a link at most once and flag only targets of drawn links |
| BurrowsWheeler.MarksAreDraws | benchmarks/BWDecode/listRank/bw.C:57-74 | in the end the marked links are exactly the first and the drawn ones, and the heads their targets |
| BurrowsWheeler.MarksFit | benchmarks/BWDecode/listRank/bw.C:61-74 | next + n fits the integer type chosen for the length |
| BurrowsWheeler.OpenGrows | benchmarks/BWDecode/listRank/bw.C:93-108 | following unmarked links from a head never returns to a position seen, so blocks end |
| BurrowsWheeler.FollowBlock | benchmarks/BWDecode/listRank/bw.C:85-111 | a block is the characters from a head to the next; it fails exactly if it has 150000 or more |
| BurrowsWheeler.OrbitBlock | benchmarks/BWDecode/listRank/bw.C:85-111 | the blocks between heads partition the cycle of the first head |
| BurrowsWheeler.JoinBlocks | benchmarks/BWDecode/listRank/bw.C:113-126 | following the heads joins the blocks of that cycle in order, each once |
| BurrowsWheeler.Decode | benchmarks/BWDecode/listRank/bw.C:36-131 | from any nonempty string and any draws: what is read is the cycle of the successor map through the first link, but for its last character; it fails exactly if some block has 150000 characters or more, so never for a shorter string |
| BurrowsWheeler.TransformReads | benchmarks/BWDecode/listRank/bw.C:36-131 | decoding a text's transform gives the text |
| BurrowsWheeler.ReadingIsTransform | benchmarks/BWDecode/listRank/bw.C:36-131 | only the text's transform decodes to the text |
| BurrowsWheeler.CodeIsTransform | algorithm/bw_encode.h:55-77 | the code is the text's transform exactly if the two orders coincide on the text |
| BurrowsWheeler.RoundTrip | benchmarks/BWDecode/listRank/bw.C:133-138 | encoding and then decoding gives the text back exactly if the suffix order of the text and that of the renumbered text give it the same transform, as they do when some byte value does not occur; there is no code exactly if the suffix array does not end, and no text from a code exactly if a block has 150000 characters or more; so every text shorter than that in which some byte value does not occur comes back |
| WrappedOrder.Moved | algorithm/suffix_array.h:162-163 | with byte 255 below the others, a suffix moves up by the number of 255s, and within its block |
| WrappedOrder.NextMoves | algorithm/bw_encode.h:71-73 | if both orders give one transform, a suffix that does not move up within its block is followed by one that does not move up |
| WrappedOrder.NextReturn | algorithm/bw_encode.h:71-73 | after a suffix that did not move up none does before the next 255 |
| WrappedOrder.FewAreRare | algorithm/bw_encode.h:71-73 | if both orders give one transform, fewer byte values below 255 occur at most as often as 255 than 255 occurs |
| WrappedOrder.RareMeansWrong | algorithm/bw_encode.h:55-77 | the text is not encoded by its transform if all byte values occur and, the null included, as many of those below 255 are no more frequent than 255 as 255 occurs |
| WrappedOrder.SingleIsWrong | algorithm/bw_encode.h:55-77 | a text in which every byte value occurs, and byte 255 once, is not encoded by its transform |
| WrappedOrder.EachOnceIsWrong | algorithm/bw_encode.h:55-77 | the bytes 1 to 255, each once, are such a text: it has a code, which is not its transform |
| WrappedOrder.TwoAtTheEndHasNone | algorithm/bw_encode.h:55-77 | with one more 255 behind them, the rounds of the suffix array never sort the text, so it has no code |
| CoincidingText.StepsAreLess | algorithm/bw_encode.h:62-65 | places that agree with first characters and with the places one further list the suffixes in order |
| CoincidingText.SomeTextComesBack | algorithm/bw_encode.h:55-77 | a text of 777 bytes in which every byte value occurs and which is encoded by its transform all the same |
| Topology.FlipIs | common/topology.h:169-190 | the writes of flip, in their order, change the two triangles into the flipped ones and one pointer of two neighbours, and nothing else |
| Topology.FlipKeepsMesh | common/topology.h:169-190 | after a flip neighbour pointers are again mutual and edge-consistent, and no two triangles share two edges |
| Topology.SplitIs | common/topology.h:195-206 | the writes of split leave three triangles around the new vertex in place of one, redirect one pointer of two neighbours, and change nothing else |
| Topology.SplitKeepsMesh | common/topology.h:195-206 | after a split neighbour pointers are again mutual and edge-consistent, and no two triangles share two edges |
| Topology.BackPointer | common/topology.h:59-66 | in a mesh locate finds the edge back, and its corners are the same two, swapped |
| Topology.FlipKeepsAnchors | common/topology.h:179-185 | every vertex still points to a triangle that has it as a corner after a flip |
| Topology.SplitKeepsAnchors | common/topology.h:195-206 | after a split every vertex, the new one included, points to a triangle that has it as a corner |
| Topology.Triangulation.FlipEdge | common/topology.h:169-190 | flip in place, update's search included, keeps the triangulation valid and is that function of it |
| Topology.Triangulation.SplitTriangle | common/topology.h:195-206 | split in place keeps the triangulation valid, is that function of it, and places one vertex more |
| Delaunay.FindCavity | benchmarks/delaunayTriangulation/incrementalDelaunay/delaunay.C:95-104 | the recursive search lists the triangles it enters in preorder and the corner opposite each entry edge |
| Delaunay.Collect | benchmarks/delaunayTriangulation/incrementalDelaunay/delaunay.C:111-117 | the three searches push the simplices to flip, which are the other triangles of the cavity, each once, and the vertices to reserve |
| Delaunay.FoundIsCavity | benchmarks/delaunayTriangulation/incrementalDelaunay/delaunay.C:95-120 | what the searches find is, with the triangle they start from, the least set of triangles that holds with each one its neighbours whose circle holds the point; each other triangle of it is listed once |
| Delaunay.PushedCovers | benchmarks/delaunayTriangulation/incrementalDelaunay/delaunay.C:111-117 | every corner of every cavity triangle is among the pushed vertices |
| Delaunay.PushedLength | benchmarks/delaunayTriangulation/incrementalDelaunay/delaunay.C:111-117 | three more vertices are pushed than simplices |
| Delaunay.SplitMakesRing | benchmarks/delaunayTriangulation/incrementalDelaunay/delaunay.C:139 | the split surrounds the new vertex with three triangles, beyond whose outer edges lie the three parts of the cavity |
| Delaunay.EntryCanFlip | benchmarks/delaunayTriangulation/incrementalDelaunay/delaunay.C:141-144 | across the entry edge of the next simplex lies a triangle of the new vertex, opposite that vertex, and the flip is possible |
| Delaunay.FlipKeepsRing | benchmarks/delaunayTriangulation/incrementalDelaunay/delaunay.C:141-144 | the flip moves that triangle into the ring around the new vertex, with the two parts beyond it |
| Delaunay.FlipAll | benchmarks/delaunayTriangulation/incrementalDelaunay/delaunay.C:141-144 | flipping in the order of the queue, every flip is possible and the new vertex gains one triangle by each |
| Delaunay.CheckMeans | benchmarks/delaunayTriangulation/incrementalDelaunay/delaunay.C:127-134 | the check of a point raises no flag just if the point holds every vertex that it listed and listed none twice; the vertices it held are free afterwards, and no other reservation changes |
| Delaunay.Insert | benchmarks/delaunayTriangulation/incrementalDelaunay/delaunay.C:127-149 | a point that does not hold every vertex it listed, or listed one twice, changes nothing but its own reservations, which become free; any other is afterwards a corner of exactly as many triangles as were flipped, and three more, in a valid triangulation; outside its cavity and its memory only pointers into them change |
| Reservations.WriteKeepsHighest | benchmarks/delaunayTriangulation/incrementalDelaunay/delaunay.C:118-123 | each vertex holds the highest identity that has been written to it |
| Reservations.ReservationRound | benchmarks/delaunayTriangulation/incrementalDelaunay/delaunay.C:118-134 | under any order of the writes and of the checks a point wins just if it wants no vertex twice and none that a higher point wants; so no vertex is won by two points, the highest point wins unless it wants a vertex twice, and every vertex is free afterwards |
| Delaunay.CavityHeld | benchmarks/delaunayTriangulation/incrementalDelaunay/delaunay.C:106-117 | a winner holds every corner of every triangle of its cavity |
| Reservations.WinnersApart | benchmarks/delaunayTriangulation/incrementalDelaunay/delaunay.C:126-145 | cavities of two winners have no triangle in common, nor a triangle of one next to one of the other |
| InsertionRound.WinnersSeparate | benchmarks/delaunayTriangulation/incrementalDelaunay/delaunay.C:126-145 | what one winner of a round may change the other neither changes nor points to, and neither point is a corner of the other cavity |
| InsertionRound.WaitingIsReady | benchmarks/delaunayTriangulation/incrementalDelaunay/delaunay.C:111-145 | what a winner that has not begun has found is still there after the splits and flips of others |
| InsertionRound.WaitingStays | benchmarks/delaunayTriangulation/incrementalDelaunay/delaunay.C:135-145 | a split or a flip of one winner does not disturb another that has not begun |
| InsertionRound.TurningStays | benchmarks/delaunayTriangulation/incrementalDelaunay/delaunay.C:135-145 | nor one that is between its flips: its ring and what it has still to flip stay as they are |
| InsertionRound.FlipGoesOn | benchmarks/delaunayTriangulation/incrementalDelaunay/delaunay.C:141-144 | the next flip of a winner is possible, stays in its cavity and memory, and adds one triangle to its ring |
| InsertionRound.StepKeepsMidway | benchmarks/delaunayTriangulation/incrementalDelaunay/delaunay.C:135-145 | whichever winner splits or flips next, all others stand where they stood, and no two point into what the other may change |
| InsertionRound.InsertWinners | benchmarks/delaunayTriangulation/incrementalDelaunay/delaunay.C:268-271 | with the splits and flips of the winners interleaved in any order, the triangulation ends valid, the points placed are the winners, and each is a corner of exactly as many triangles as were flipped for it and three more |
| InsertionRound.InsertAll | benchmarks/delaunayTriangulation/incrementalDelaunay/delaunay.C:261-271 | so after a whole round of reservations, checks and insertions; the winners are the points that want no vertex twice and none that a higher point wants, and every vertex is free |
| CartesianTree.ParentIsTreeParent | parlaylib/examples/cartesian_tree.h:7-12 | the nearest smaller elements and the recursion on leftmost minima define the same tree |
| CartesianTree.SpineMerge | parlaylib/examples/cartesian_tree.h:29-46 | merging the spines of the trees of two adjacent stretches gives the tree of both, and touches no other node |
| CartesianTree.HeadGoesUnder | parlaylib/examples/cartesian_tree.h:35-45 | at each turn the two ends are the nearest smaller elements of the node being attached |
| CartesianTree.Cartesian | parlaylib/examples/cartesian_tree.h:48-66 | every position points at its parent in the tree whose every stretch has its leftmost minimum as root |
| KCore.KCore | parlaylib/examples/kcore.h:16-44 | d[v] is the coreness of v: v lies in a set in which every vertex has at least d[v] neighbours, and in no such set for any larger number |
| KCore.CorenessIsUnique | parlaylib/examples/kcore.h:7-11 | there is only one such number |
| KCore.PeelKeeps | parlaylib/examples/kcore.h:28-38 | peeling vertices of degree k, and lowering neighbours by their peeled neighbours down to k, keeps every higher core alive and every degree right |
| KCore.LevelKeeps | parlaylib/examples/kcore.h:31 | when no vertex is at level k, those alive are the core of k + 1 |
| KCore.MoveKeepsBuckets | parlaylib/examples/kcore.h:35-41 | a vertex may sit in several buckets, but in none twice, and always in that of its degree |
| KCore.Take | parlaylib/examples/kcore.h:28-29 | whatever the order of the racing tests and marks, exactly the vertices of the bucket not yet done are taken, each once |
| KCore.NeighboursCount | parlaylib/examples/kcore.h:33-35 | by symmetry a vertex is listed as often as it has peeled neighbours |
| KCore.Round | parlaylib/examples/kcore.h:27-42 | a round peels the vertices of bucket k that are left, or ends level k when there is none |
| QuickHull.AreaIdentity | benchmarks/convexHull/serialHull/serialHull.h:40-43 | the areas over the two new lines add up to the difference of the heights, so no point is above both |
| QuickHull.SidesDisjoint | benchmarks/convexHull/serialHull/serialHull.h:40-45 | no point is kept on both sides, and the farthest point on neither |
| QuickHull.Split | benchmarks/convexHull/serialHull/serialHull.h:5-25 | the two-ended partition keeps, at the ends of the range, exactly the entries of each kind, and writes nothing outside |
| QuickHull.PartitionDivides | benchmarks/convexHull/serialHull/serialHull.h:45-51 | the two parts and the farthest point fit in the range: n1 + 1 + n2 <= n |
| QuickHull.Gather | benchmarks/convexHull/serialHull/serialHull.h:52-53 | the overlapping move puts the farthest point and the right result behind the left one |
| QuickHull.LeftUnder | benchmarks/convexHull/serialHull/serialHull.h:50 | every point is on or below each edge of the left chain, those of the right part included |
| QuickHull.RightUnder | benchmarks/convexHull/serialHull/serialHull.h:51 | every point is on or below each edge of the right chain, those of the left part included |
| QuickHull.HullJoin | benchmarks/convexHull/serialHull/serialHull.h:50-54 | the two chains joined at the farthest point are a hull of all points |
| QuickHull.TriangleIsMixture | benchmarks/convexHull/serialHull/serialHull.h:27-55 | a point of a closed clockwise triangle is a mixture of its corners with weights that are not negative and add up to one |
| QuickHull.SerialQuickHull | benchmarks/convexHull/serialHull/serialHull.h:27-55 | the entries returned are input points, in order; every input point is on or below each edge of the chain, and is returned or lies in a closed triangle of chain points; nothing outside the range is written |
| PushRelabel.StepKeepsInv | parlaylib/examples/push_relabel_max_flow.h:68-101 | in every interleaving of a round: flows within capacity, paired flows opposite up to the store in between, excess equal to what flows in, at most one list entry per vertex, and the sum of excess, shadows and what is in transit unchanged |
| PushRelabel.FlowsAfter | parlaylib/examples/push_relabel_max_flow.h:73-77 | no step takes a flow above its capacity or separates a pair by other than what its thread is moving |
| PushRelabel.StepShortens | parlaylib/examples/push_relabel_max_flow.h:68-94 | every step leaves its thread fewer to go, and no other thread more |
| PushRelabel.ExcessBounded | parlaylib/examples/push_relabel_max_flow.h:78-79 | excess plus shadow of a vertex never exceeds what the source began with, so no sum of the two overflows |
| PushRelabel.ResidualBounded | parlaylib/examples/push_relabel_max_flow.h:74-75 | what an edge can still carry is at most its capacity and that of its partner together, and just that if the partner is full: it fits in an int whenever that sum does |
| PushRelabel.ListsAreNext | parlaylib/examples/push_relabel_max_flow.h:103-113 | the lists of a round hold each vertex at most once, and every vertex with excess and a label in range |
| PushRelabel.FoldSettles | parlaylib/examples/push_relabel_max_flow.h:104-112 | after the shadows are folded in, excess is what flows in, flows are opposite, and the sum is that of the start |
| PushRelabel.MaxFlow.constructor | parlaylib/examples/push_relabel_max_flow.h:202-230 | the source starts with the largest int as its excess, the others with none, and no edge with flow; if edges are paired the state is settled |
| PushRelabel.StepKeepsPhase | parlaylib/examples/push_relabel_max_flow.h:68-94 | no step, of whichever thread, undoes what a sweep has achieved: edges passed are full or do not go down, no edge gains flow uphill, excess comes from higher vertices that had some, and a search for the least label stays right |
| PushRelabel.NothingToPush | parlaylib/examples/push_relabel_max_flow.h:68-86 | an active vertex that still has excess at the end of the phase has no edge left with room that goes down, and a higher label |
| PushRelabel.PhaseEnds | parlaylib/examples/push_relabel_max_flow.h:68-94 | a new label is n or one above the head of an edge with room, and at most one above the head of any edge that had room from the start and does not go down |
| PushRelabel.MaxFlow.PushPhase | parlaylib/examples/push_relabel_max_flow.h:96-101 | the push phase ends, in every interleaving, with the invariant; an active vertex in range has pushed all its excess, or all its edges are full or do not go down and its label rises |
| PushRelabel.MaxFlow.FoldPhase | parlaylib/examples/push_relabel_max_flow.h:103-113 | the fold phase ends, in every interleaving, ready for the next round: every label is the new one, every excess has its shadow added, and active are those on the lists |
| PushRelabel.PotentialFalls | parlaylib/examples/push_relabel_max_flow.h:96-114 | in a round some label rises, or the highest label of a vertex with excess in range comes down |
| PushRelabel.NobodyPushes | parlaylib/examples/push_relabel_max_flow.h:96-114 | if no vertex in range has excess, no vertex is active after the round |
| PushRelabel.MaxFlow.Round | parlaylib/examples/push_relabel_max_flow.h:96-114 | a round takes a settled state with the right active list to a settled state with the right active list, with what the push phase has achieved, and lowers a potential bounded by n^3 + n unless no vertex is active after it |
| PushRelabel.MaxFlow.GlobalRelabel | parlaylib/examples/push_relabel_max_flow.h:187-199 | taking over any labels between 0 and n leaves the flow as it was and a settled state; active are exactly the vertices with excess and a label strictly between 0 and n |
| FlowNetwork.NextIsBack | parlaylib/examples/push_relabel_max_flow.h:215-226 | without parallel edges and with an even number of loops at each vertex, the edge after an edge of even place in the sorted order is an edge back |
| FlowNetwork.ParallelMispair | parlaylib/examples/push_relabel_max_flow.h:215-226 | from any sorted order with two parallel edges there is one, the sort being free to leave it, that links two edges of one direction |
| FlowNetwork.PairsExactly | parlaylib/examples/push_relabel_max_flow.h:215-226 | of the edges listed: linking neighbours is right for every sorted order just if no two edges are parallel and loops come in even numbers |
| FlowNetwork.PairingIsRight | parlaylib/examples/push_relabel_max_flow.h:215-226 | of the input: whenever each edge comes with one back, as the header asks, the pairing is right for every sorted order just if no two edges lead from one vertex to the same other and each vertex has an even number of loops |
| FlowNetwork.CrossLink | parlaylib/examples/push_relabel_max_flow.h:222-226 | exactly the edges at places 2i and 2i + 1 become partners, and an edge left over has none; each edge and its partner are edges back of each other just if the sorted order pairs |
| FlowNetwork.Initialize | parlaylib/examples/push_relabel_max_flow.h:202-230 | for every input that the header admits the set-up makes a network with its edges, in their order, linked as sorted, with no flow, and the largest int as excess of the source alone; the flow can run on it just if the sorted edges pair, and so whenever there are no parallel edges and loops are even in number |
| FlowNetwork.ParallelEdges | parlaylib/examples/push_relabel_max_flow.h:30-32 | an input that the header admits, with an even number of loops everywhere but parallel edges |
| FlowNetwork.LoneLoop | parlaylib/examples/push_relabel_max_flow.h:30-32 | an input that the header admits, without parallel edges but with a single loop |
| ResidualSearch.ClaimKeeps | parlaylib/examples/push_relabel_max_flow.h:170-177 | whatever other threads of the level have claimed, an attempt to claim the other end of an edge leaves it with a distance if the edge back has capacity left, and claims only what is one level up |
| ResidualSearch.LevelEnds | parlaylib/examples/push_relabel_max_flow.h:181-186 | after a level exactly the vertices at that distance have been added, and they are the next frontier |
| ResidualSearch.Search | parlaylib/examples/push_relabel_max_flow.h:157-186 | for every order of the attempts of each level, the search ends, no edge with capacity left goes down by more than one level, and from every vertex with a distance one goes down by one |
| ResidualSearch.DistanceIsLeast | parlaylib/examples/push_relabel_max_flow.h:155-163 | such labels are the distances to the sink over edges with capacity left, and n where there is no path |
| ResidualSearch.Relabel | parlaylib/examples/push_relabel_max_flow.h:157-200 | so after a global relabel the labels are the distances for the flow, which is unchanged, and the state is settled with the right active list |
| PushRelabel.MaxFlow.Run | parlaylib/examples/push_relabel_max_flow.h:127-140 | after any number of rounds and relabels the flow constraints hold, and every vertex but the source has as excess just what flows in; when no vertex is active, only vertices with label 0 or n have excess; and that is so at the latest n^3 + n rounds after the last relabel; a global relabel asked for after the last round leaves its labels |

## Left out

- BurrowsWheeler.RoundTrip: for texts with all byte values the exact condition compares the transforms by two orders of the text; which texts with a frequent byte 255 meet it has no simpler form here.
- SpanningForest.Run: a thread spins while another holds the hook it wants, so what holds of every schedule is that a run may be incomplete; fair ones are complete (`FairForest`).  An access of the array is atomic and sequentially consistent.
- HashMap.Run: a removal on a table without an empty slot can spin, so that it ends is claimed only while some slot is empty.
- Hash map: memory reclamation and reuse of addresses, and `find`, which ignores the delete mark; keys are listed only while nothing else runs.
- KCore.KCore: the graph has at least one vertex, as the maximum of no degrees is undefined; `histogram_by_key`, `group_by_index` and `group_by_key_ordered` are given by what they promise.
- Coloring.GraphColoring: the ranking by degree comes in as an argument that is any order by decreasing degree.
- PushRelabel.MaxFlow.Run: label validity between global relabels (relabel reads flows that neighbours are changing), that the flow is maximum, and the clock that triggers global relabels; when to relabel, and with which labels, are arguments of Run.  That labels rise, and so the bound on the rounds, is claimed for n up to the largest int, as vertices are ints.
- ResidualSearch.Search: an attempt to claim a vertex (the test of the capacity, which does not change during the search, and the compare-and-swap) is one step; the dense form of the edge map, which makes the same attempts from the other end, is not modelled.
- InsertionRound.InsertAll: a split or a flip is one step, so the pointer writes of two of them do not interleave; the checks of a round, which touch reservations only, come before its insertions, which touch the mesh only.
- Delaunay.Insert: which triangles' circles hold the point is given, and so is that the search meets no triangle twice and that the memory for two triangles is unused; the empty-circle property, point location, the choice of batch sizes and `check_delaunay` are not modelled.
- UnionFind: `union_roots` by size, which only the sequential reference programs call, and `tryLink`, which none calls.
- Topology: `splitBoundary` and `extend`.
- QuickHull: coordinates are real numbers; only the serial hull of the points above a line is modelled, as its callers use it.
- SuffixArray: the 48-byte padding, the width of packed words, and the wrap-around of 32-bit offsets; the string is 0 past its end.  At least one character and at most 2^32.
- SpeculativeFor: the thresholds .2 and .1 are exact fractions; the loop's state copies are not modelled.
- Timing, input and output, command lines, data generators, nearest neighbours, and the inside of the library primitives (sort, scan, pack, filter, flatten), which are given by what they promise.
- Bucketed Dijkstra, breadth-first search and its checker, and building a topology from a triangle list: they would add easier members of the same kinds.
