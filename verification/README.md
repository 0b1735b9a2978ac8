# Weighted graph-structured stacks

A weighted graph-structured stack (GSS) is a compact graph of immutable, shared nodes that stands
for a finite map from concrete stacks to weights. Several paths may spell one stack; its weight is
then the join of the weights found along them. This project models that graph and the algorithms
on it, and proves that the compressed, shared and memoised representation behaves as the plain map
does, after any sequence of operations.

`dafny verify dfyconfig.toml` checks everything.

## The main results

- **Whole runs** (`Run.Execute`). For every finite sequence of constructions, merges, pushes, pops,
  selections, weight transforms and drops, on whichever earlier snapshots, every snapshot that is
  still kept means exactly the explicit map computed beside it, is well formed, and lives in one
  heap in which no two live nodes share an address. What those explicit maps are is fixed
  operation by operation, without reference to how they are computed (`Run.OlderKept`,
  `Run.DropsOne`, `Run.AddsListed`, `Run.AddsPushed`, `Run.AddsPopped`, `Run.AddsChosen`).
  `Model.Observed`, `Model.ObservedJoin` and
  `Model.Enumerated` then say that everything the interface lets one see of a graph is what the
  explicit map says.
- **Merge** (`WMerge.WMerge`, `Meaning.JoinMeaning`, `Meaning.MergeIsSemilattice`). Through every
  shortcut (same node, empty side, common top run, same single path, common single-path prefix,
  equal weights, exposure of the tops), a merge is the pointwise join.
- **The memo is sound under address reuse** (`WMerge.WMergeMemo`, `Memo.MemoHit`,
  `Memo.NotOverwritten`, `Memo.StaleHit`). The allocator may hand out any address that no live node
  occupies. What a running merge keeps alive is exactly what its caller holds, its kept
  temporaries and the memo's results; that is enough for every hit to be right in either argument
  order, and without it a hit can be wrong.
- **Determinism** (`WNodes.WDetermined`, `Meaning.OneRegion`). Every node any operation returns has
  at most one weight for the empty stack and one alternative per symbol, so each stack lies in
  exactly one stored region.
- **Weight transforms** (`MapWeights.FilterMap`, `MapWeights.CommutesIff`). On a deterministic graph
  every pure transform commutes with meaning, although no law is asked of it. On graphs with
  several alternatives under a symbol a join-preserving transform still does, and preserving joins
  is exactly what it takes.
- **Total correctness of the mutual recursion** on true depths (`UMerge.UMerge`, `WMerge.WMerge`).
- **Exact saturating counters** (`Ways.UStoredPaths`, `Ways.WStoredPaths`, `Ways.WCountsStacks`,
  `Model.Observed`). The stored path counter is the number of ways down the graph, and the stored
  depth the length of a longest stack, both exact below 2^64. The number of ways is the number of
  stacks exactly if no stack is spelled along two ways.
- **Batched construction** (`Floors.SharedStackRefs`, `Floors.SharedFloor`): a trie, its
  compression, and the allocations it makes. There is exactly one per point where compression has
  to stop, inputs share one exactly when they are equal, and inputs that part lead down to one and
  the same allocation.
- **Bounded enumeration** (`Materialize.MaterializeStacks`, `StackVisit.ToStacks`,
  `StackVisit.ForEachStackTopFirst`): success exactly up to the limit, and then everything.
- **The linear view** (`LinearPrefixes.EditRun`, `LinearPrefixes.ChainIsLongest`): editing it is
  editing the map, and it shows the longest run that all stacks have in common.
- **Iteration over weights** (`WeightIters.WeightIter.Next`, `WeightIters.WeightIter.All`,
  `Regions.TotalSlots`): each place that stores a weight is visited once, however often its node
  is shared, and every whole-run shortcut leaves the iterator as the source leaves it.

## How it is modelled

- *Weights* are any type with a join satisfying the three laws. The order the join induces turns
  statements about joins into statements about upper bounds: `Below(L, n, s, u)` says that every
  path of `n` spelling `s` carries a weight below `u`, where `u` may be `None`, below which there
  is nothing. `Den(L, n, s)` is the join itself, and `Meaning.DenBounds` connects the two.
- *Nodes* are immutable, so they are datatypes. A weighted node carries its address, because the
  merge memo, the transform memo and the seen sets compare addresses. Methods that allocate take
  the set of live nodes and promise that the result fits beside it (`WBuild.FitsIn`): together they
  are closed under children and no two share an address. For unweighted nodes pointer equality only
  ever skips work, so `Pointers.PtrEq` may answer either way for equal contents. Only batched
  construction is about which of them are shared; there an unweighted node is built as a cell of
  an `Arenas.Arena`, known by its index, and `Arenas.Node` is the value it holds.
- *Hash maps* are maps, walked in an arbitrary order; allocation and that order are
  nondeterministic, which is why the recursive node functions are methods with specifications
  rather than Dafny functions.
- *Depth*: termination is measured by the true, unbounded longest path; the stored `max_depth` and
  `paths` are that depth and the true path count cut off at the largest 64-bit word.
- *Stacks* are spelled top first inside nodes and bottom first at the interface; `Rev` turns one
  into the other.
- *Well-formedness* (`UNodes.UWf`, `WNodes.WWf`) is what every operation requires of its inputs and
  gives back for its result. For weighted nodes it is the normal form (`WNodes.WNormal`) and
  determinism (`WNodes.WDetermined`); constructors and weight transforms ask for the normal form
  only, and keep determinism where it was.

The documentation describes several structural paths spelling one stack and their weights being
joined on observation. In the code this does not arise for weighted paths: merging joins eagerly,
and the public constructors and operations only build deterministic weighted branches. The model
keeps the documented, general meaning and proves the stronger fact (`Meaning.OneRegion`).

## Model

| member | source | states |
|---|---|---|
| Weights.JoinIsLeast | src/weight.rs:1-14 | the three laws make the join the least upper bound of the order it induces |
| Weights.OptUnderJoin | docs/semantics.md:7-13 | the join lifted to absent weights, with absence as unit, is still the least upper bound |
| Segments.Window.Get | src/segment.rs:32-36 | reads inside the window only, even when the shared vector goes on |
| Segments.Window.DropFront | src/segment.rs:46-55 | drops exactly the given number of symbols, and refuses to leave an empty window |
| UNodes.UWordBounds | src/nodes.rs:123-155 | no represented stack is longer than the depth, and a represented stack is counted |
| UNodes.ULongest | src/nodes.rs:96-155 | a non-empty node in normal form has a stack as long as its depth |
| UNodes.UEmptyIff | src/nodes.rs:77-79 | the path counter is zero exactly when no stack is represented |
| UNodes.USegmentOfHas | src/nodes.rs:96-111 | a prepended run is on top of every stack and on no other, also for empty runs and empty floors |
| UMerge.CountPaths | src/nodes.rs:140-143 | the saturating sum over all alternatives is the count of paths cut off at the bound, in any order of iteration; `Ways.UCountsWays` says what that count is |
| UMerge.UBranchOf | src/nodes.rs:123-155 | a branch rebuilt without dead alternatives is in normal form, no deeper than allowed, and keeps the language of its parts |
| UMerge.UMerge | src/nodes.rs:179-246 | the result is in normal form, holds exactly the stacks of either side, and is no deeper than the deeper side |
| UMerge.UMergeAll | src/nodes.rs:248-268 | the tournament terminates and holds exactly the stacks of all inputs |
| UMerge.UAfterPrefix | src/nodes.rs:157-177 | what is left after dropping symbols is the exact image, and correspondingly shallower |
| UMerge.UPopn | src/nodes.rs:384-410 | removes the symbols from every stack that has them, drops shorter ones, and is the identity for zero |
| UPaths.SinglePathIsOne | src/nodes.rs:285-317 | a path counter of one means that there is exactly one way down, as the cursor expects |
| UPaths.OnePathLanguage | src/nodes.rs:270-319 | such a node holds exactly one stack |
| UPaths.USinglePathCursor.Next | src/nodes.rs:285-318 | the cursor yields the symbols of that stack in order, then nothing, across segments and branches |
| UPaths.USameSinglePath | src/nodes.rs:321-341 | for single-path nodes the comparison is true exactly when the two stacks are equal, however they are segmented |
| UPaths.UCommonSinglePathPrefix | src/nodes.rs:343-360 | for single-path nodes it is their longest common top run, and otherwise empty |
| UPaths.PathPopped | src/nodes.rs:748-753 | taking part of its stack off a single-path node leaves just the rest of that stack, so a non-empty node |
| UPaths.PrefixLeavesBoth | src/nodes.rs:748-753 | without their longest common run both sides are non-empty, hold just their rests, and the rests have no common top |
| UOps.UPushed | src/nodes.rs:362-370 | the symbol is on top of every stack, and the result stays in normal form |
| UOps.UPop | src/nodes.rs:372-382 | one symbol is taken off every non-empty stack |
| UOps.UTopsExact | src/nodes.rs:412-420 | the tops read at the root are exactly the tops of the represented stacks |
| UOps.USingleExclusiveTopExact | src/nodes.rs:422-435 | a top is reported exactly when it is on every stack and there is a stack |
| UOps.URetainTop | src/nodes.rs:437-457 | keeps exactly the stacks with the given top |
| UOps.UPopTop | src/nodes.rs:459-475 | is exactly what lies under the given top |
| UOps.URetainedEmpty | src/nodes.rs:477-483 | keeps exactly the empty stack |
| Live.ReachWithin | src/nodes.rs:24-43 | what a node keeps alive is contained in every set of nodes that is closed under children and holds it |
| Live.HeapGrows | src/nodes.rs:771-773 | a node put at an address no live node occupies, over live children, extends the heap by itself alone |
| WBuild.WSharedOf | src/nodes.rs:500-509 | the region gives its weight to exactly its stacks |
| WBuild.WSegmentOf | src/nodes.rs:511-545 | a prepended run is on top of every stack with the weights unchanged, no segment sits on a segment, and determinism is kept |
| WBuild.WCountPaths | src/nodes.rs:587-590 | the same for weighted branches, where each weight of the empty stack is a path; `Ways.WCountsWays` says what the count is |
| WBuild.WBranchOf | src/nodes.rs:570-602 | dead alternatives go, live ones and weights stay, counters are exact, the node is in normal form whatever the table, and deterministic if the table is |
| WNodes.BelowNone | docs/semantics.md:7-13 | a stack has no weight exactly when no path spells it |
| WNodes.WLongest | src/nodes.rs:591-596 | a non-empty node has a stack as long as its depth |
| WNodes.WEmptyIff | src/nodes.rs:496-498 | the empty test at the root is exact |
| Memo.MemoHit | src/nodes.rs:693-700 | an entry found under two addresses is the join of the two nodes now living there, in either order |
| Memo.StateKeep | src/nodes.rs:715-716 | keeping a temporary preserves every entry and never frees anything pinned |
| Memo.StateInsert | src/nodes.rs:817-819 | entering a result preserves every entry; its key belongs to pinned nodes no deeper than the merge |
| Memo.NotOverwritten | src/nodes.rs:681-719 | entries made by shallower merges are never about the pair being merged |
| Memo.StaleHit | src/nodes.rs:771-779 | once a node of an entry is freed, the next node at its address can be given a wrong result |
| WMerge.JoinWeights | src/nodes.rs:822-838 | at most one weight is left, and it is the join of all given ones |
| WMerge.WExposeTop | src/nodes.rs:604-648 | the exposed branch means what the node meant, whatever its kind |
| WMerge.WMergeMemo | src/nodes.rs:671-820 | under any memo state the result is well formed, pinned, and the join of both sides; no entry is lost, overwritten or left dangling |
| WMerge.MergeCommonRun | src/nodes.rs:702-723 | the shortcut for a common top run yields the same join |
| WMerge.MergeShared | src/nodes.rs:725-767 | so do the shortcuts for equal languages, single paths and equal weights |
| WMerge.MergeSinglePaths | src/nodes.rs:748-761 | and the split at the longest common single-path run |
| WMerge.MergeExposed | src/nodes.rs:769-819 | and the general merge by top, whose result is deterministic even if the exposed branches were not |
| WMerge.WMerge | src/nodes.rs:661-669 | the pointwise join of both sides, well formed, no deeper than the deeper side |
| WMerge.WMergeAll | src/nodes.rs:840-861 | the tournament terminates and means the join of all inputs |
| WMerge.WAfterPrefix | src/nodes.rs:547-568 | the exact image of dropping symbols, collisions joined |
| WMerge.WPopn | src/nodes.rs:892-911 | removes exactly the given number of symbols, joining what collides; the identity for zero |
| WOps.WPush | src/nodes.rs:863-876 | the symbol is on top of every stack, weights unchanged |
| WOps.WPop | src/nodes.rs:878-890 | the same image as removing one symbol |
| WOps.WTopsExact | src/nodes.rs:913-922 | the tops at the root are exactly the tops of the represented stacks |
| WOps.WSingleExclusiveTopExact | src/nodes.rs:924-938 | a top is reported exactly when it is on every stack and there is a stack |
| WOps.WHasEmptyExact | src/nodes.rs:940-946 | the root test for the empty stack is exact |
| WOps.WRetainTop | src/nodes.rs:948-969 | keeps exactly the stacks with the given top, weights unchanged |
| WOps.WPopTop | src/nodes.rs:971-989 | is exactly what lies under the given top |
| WOps.WRetainEmpty | src/nodes.rs:991-1000 | keeps exactly the empty stack |
| Meaning.JoinAllBounds | docs/semantics.md:7-13 | the join of the path weights is their least upper bound, so order and repetition do not show |
| Meaning.DenBounds | docs/semantics.md:7-13 | the bounds of a node at a stack are the upper bounds of its meaning there |
| Meaning.SameMeaningIff | docs/semantics.md:13-13 | two nodes have the same bounds exactly when they mean the same map |
| Meaning.JoinMeaning | src/nodes.rs:661-669 | a node is a merge of two others exactly when it means their pointwise join |
| Meaning.MergeIsSemilattice | docs/semantics.md:15-25 | merging is associative, commutative and idempotent in meaning, whatever nodes the merges return |
| Meaning.PopMeaning | src/nodes.rs:892-911 | a node is a pop of another exactly when every stack has the join of all that collapses onto it |
| Meaning.PopAdds | docs/semantics.md:69-73 | popping twice is popping the sum |
| Meaning.PopNone | docs/semantics.md:71-71 | popping nothing keeps the meaning |
| Meaning.OneRegion | src/nodes.rs:796-819 | a represented stack of a well-formed node lies in exactly one stored region |
| Meaning.StoredWeight | src/weight_regions.rs:201-223 | and the weight of that region is its joined weight |
| Distinct.UDistinct | src/nodes.rs:140-143 | distinct stacks are at most as many as structural paths |
| Distinct.WDistinct | src/nodes.rs:587-590 | the same for weighted nodes |
| Distinct.PathsBoundStacks | src/nodes.rs:570-602 | an unsaturated path counter is a limit that no enumeration exceeds |
| Ways.UCountsWays | src/nodes.rs:140-143 | the count of paths is the size of the set of all ways down, each a list of choices |
| Ways.UHasWay | docs/semantics.md:7-7 | every represented stack is spelled along some way |
| Ways.UWayHas | docs/semantics.md:7-7 | every way spells a represented stack |
| Ways.UStoredPaths | src/nodes.rs:140-155 | the stored counter is the number of ways below 2^64, and the largest word from there on |
| Ways.UCountsStacks | tests/semantics.rs:283-291 | the count is at least the number of represented stacks, and equal to it exactly if no stack is spelled along two ways |
| Ways.USingleUnambiguous | src/nodes.rs:138-143 | which is so where no symbol has two alternatives |
| Ways.WCountsWays | src/nodes.rs:587-590 | the count of weighted paths is the size of the set of all ways down |
| Ways.WHasWay | docs/semantics.md:7-7 | every weighted stack is spelled along some way |
| Ways.WWayHas | docs/semantics.md:7-7 | every way of a weighted node spells one of its stacks |
| Ways.WStoredPaths | src/nodes.rs:587-602 | the stored counter of a weighted node is exact below 2^64, and the largest word from there on |
| Ways.WCountsStacks | tests/semantics.rs:283-291 | the weighted count equals the number of stacks exactly if none is spelled along two ways |
| Ways.WSingleUnambiguous | src/nodes.rs:796-819 | in a deterministic graph only a shared region can spell a stack twice |
| Trie.TrieChildren.Get | src/gss.rs:28-35 | finds the child of a symbol in either form of the table |
| Trie.TrieChildren.Insert | src/gss.rs:37-50 | adds one child and keeps the others, across the switch of form after eight |
| Trie.TrieChildren.Len | src/gss.rs:52-57 | the number of distinct symbols |
| Trie.OneNode | src/gss.rs:80-98 | a path reaches one trie node, so equal inputs end at the same one |
| Trie.PrefixNode | src/gss.rs:80-98 | every prefix of a path is the path of a node built no later |
| Trie.InsertStack | src/gss.rs:80-98 | following an input keeps the trie sound, needed and marked, and ends at its path |
| Trie.BuildTrie | src/gss.rs:71-101 | every input ends at its marked node, and no other node is marked |
| Arenas.NodeKept | src/nodes.rs:8-22 | further allocations change nothing about what the earlier ones hold |
| Arenas.Arena.AllocSegment | src/nodes.rs:96-111 | a run over an allocation: no run allocates nothing, and otherwise exactly one cell is added |
| Arenas.DownTo | src/gss.rs:127-134 | a floor of the node an allocation holds is the node of an allocation its runs lead down to |
| Floors.FlagIsSignificant | src/gss.rs:103-107 | the flag holds exactly for the root, the inputs, and the points where two inputs part |
| Floors.Climb | src/gss.rs:114-137 | the climb ends at the nearest significant node below, finds its floor built, and fills the slot of its own node with one new allocation |
| Floors.SharedStackRefs | src/gss.rs:67-148 | each input ends at an allocation holding its node of the recursive specification; two inputs end at one exactly when they are equal; no two allocations hold the same; and there are as many as significant prefixes |
| Floors.OnePerPrefix | src/gss.rs:108-138 | the table is filled once per significant prefix and for nothing else |
| Floors.FloorLanguage | src/gss.rs:67-148 | the node of an input is in normal form, has one path, and holds exactly the input |
| Floors.FloorInjective | src/gss.rs:67-148 | so different prefixes have different nodes |
| Floors.FloorBelow | src/gss.rs:127-134 | every significant prefix of an input is a floor its node is built over |
| Floors.SharedFloor | src/gss.rs:127-134 | the allocations of inputs that part lead down to one and the same allocation, that of the point where they part |
| Construct.FromStack | src/gss.rs:200-220 | means the one stack with its weight |
| Construct.FromStacksWithWeight | src/gss.rs:222-237 | means the given stacks, each with the one weight |
| Construct.FromStacks | src/gss.rs:239-258 | means, for each stack, the join of all weights listed for it |
| Materialize.Collector.Emit | src/materialize.rs:18-37 | a known stack gains the weight, a new one is entered, and only a new one beyond the limit is refused |
| Materialize.Collector.WalkWeighted | src/materialize.rs:45-83 | the table gains exactly the meaning of the node under the current path, or is full and lacks one of its stacks; the path is restored either way |
| Materialize.Collector.WalkUnweighted | src/materialize.rs:85-118 | the same for an unweighted node under one weight |
| Materialize.MaterializeStacks | src/materialize.rs:8-43 | lists every stack once with its joined weight within the limit, or fails because there are more |
| Materialize.ListsNotTooMany | docs/semantics.md:87-87 | there are too many stacks exactly when a listing of them is longer than the limit |
| Materialize.EnumerationUnique | docs/semantics.md:87-87 | success, and the listed pairs, do not depend on how the stacks were enumerated |
| StackVisit.SingleUnweightedPath | src/stack_visit.rs:122-148 | what the fast route finds is the whole language, and it finds every single path |
| StackVisit.SingleWeightedPath | src/stack_visit.rs:87-120 | with one path the route never fails, and its stack and weight are all the node holds |
| StackVisit.ForEachStackTopFirst | src/stack_visit.rs:34-60 | every stack is visited once with its joined weight, and none at all beyond the limit |
| StackVisit.CollectStacksTopFirst | src/stack_visit.rs:62-85 | the same as a list, on both routes |
| StackVisit.ToStacks | src/gss.rs:427-437 | both routes list every stack once, bottom first, and fail exactly beyond the limit |
| WeightRegions.NodeSeen.Insert | src/weight_regions.rs:42-63 | one set of addresses across the switch from inline to hashed storage |
| WeightRegions.WJoinedWeight | src/nodes.rs:1002-1030 | skipping nodes already seen, the result is the join over all represented stacks, and absent exactly for the empty graph |
| Regions.PathWeightStored | src/nodes.rs:1013-1023 | every path weight is stored at a reachable node |
| Regions.StoredOnPath | src/nodes.rs:1013-1023 | every weight stored at a reachable node is the weight of some stack |
| Regions.TotalSlots | src/weight_regions.rs:139-158 | the weights of some nodes, each node once, hold a weight as often as there are places in them that hold it: the one of a shared node, and each entry for the empty stack of a branch |
| WeightIters.VisitWeights | src/weight_regions.rs:139-158 | visits each place of a reachable node that stores a weight, once |
| WeightIters.AllWeightsSatisfy | src/weight_regions.rs:160-185 | is the conjunction over exactly those weights |
| WeightIters.WeightIter.Next | src/weight_regions.rs:82-107 | terminates although shared nodes are pushed repeatedly, and yields one of the weights still due; at first due is each place that stores a weight, once |
| WeightIters.WeightIter.All | src/weight_regions.rs:109-121 | is the conjunction over the weights still due; afterwards nothing is due if the iterator was fresh or all hold, and otherwise what is gone is one failing weight and satisfying ones |
| WeightIters.WeightIter.ForEach | src/weight_regions.rs:123-136 | visits exactly the weights still due, each place once if fresh, and leaves nothing due |
| MapWeights.MappedMeaning | docs/semantics.md:34-38 | on deterministic graphs the image means the transformed map, whatever the pure transform |
| MapWeights.PreservingMeaning | docs/semantics.md:40-51 | on any graph it does for every join-preserving transform |
| MapWeights.NotPreserved | docs/semantics.md:50-51 | a transform that does not carry some join fails on a graph in normal form |
| MapWeights.CommutesIff | docs/semantics.md:40-51 | so commuting with meaning on all graphs in normal form is preserving joins, both ways |
| MapWeights.WeightMapper.MapNode | src/weight_regions.rs:187-227 | the memoised image of a node of any graph in normal form, each distinct node visited once, every earlier image kept |
| MapWeights.WeightMapper.MapAlternatives | src/weight_regions.rs:214-221 | the images of all alternatives under a symbol without the empty ones, with the bounds of all of them |
| MapWeights.FilterMap | src/weight_regions.rs:13-26 | for any graph in normal form the result is in normal form, deterministic if the graph was, and has the images of its path weights; it means the transformed map if the graph is deterministic or the transform preserves joins; and the transform is called once for each place of a distinct node that stores a weight |
| LinearPrefixes.FromGss | src/linear_prefix.rs:39-52 | a view opens exactly where there is one weight and a run on top, and shows the stacks of the graph |
| LinearPrefixes.ChainIsLongest | README.md:91-91 | what the view shows is the longest run that all stacks have in common |
| LinearPrefixes.LinearPrefix.Len | src/linear_prefix.rs:55-62 | the number of readable symbols, exact below 2^64 |
| LinearPrefixes.LinearPrefix.Get | src/linear_prefix.rs:72-101 | reads the visible sequence across pending, current and chained segments |
| LinearPrefixes.FloorIsEmptyExact | src/linear_prefix.rs:105-108 | the test on the floor holds exactly when the floor is the empty stack |
| LinearPrefixes.LinearPrefix.FloorIsEmpty | src/linear_prefix.rs:105-108 | holds exactly when what is visible is the one whole stack |
| LinearPrefixes.LinearPrefix.Push | src/linear_prefix.rs:111-113 | puts the symbol on top of what is visible |
| LinearPrefixes.LinearPrefix.Popn | src/linear_prefix.rs:116-143 | drops what it can, returns the rest of the count, and leaves the floor alone |
| LinearPrefixes.LinearPrefix.IntoGss | src/linear_prefix.rs:147-161 | means the visible run over the floor with the one weight |
| LinearPrefixes.EditsAgree | src/linear_prefix.rs:111-143 | editing the visible run is editing the explicit map by its own push and pop, a pop taking no more than is readable |
| LinearPrefixes.OneMoreEdit | tests/support/mod.rs:190-208 | what the edited map looks up after one more push or pop, in terms of the map before it |
| LinearPrefixes.EditRun | tests/support/mod.rs:163-209 | a view of a graph opened, edited by any run of pushes and pops and closed means the equally edited explicit map of that graph |
| Model.CanonicalBounds | tests/support/mod.rs:17-26 | the explicit model has for each stack the join of the weights listed for it |
| Model.MergeModel | src/gss.rs:265-271 | merging does to a graph what it does to the explicit map |
| Model.PushModel | src/gss.rs:280-286 | so does pushing |
| Model.PopModel | src/gss.rs:288-304 | so does popping, coinciding stacks joined |
| Model.RetainTopModel | src/gss.rs:326-332 | so does keeping a top |
| Model.RetainEmptyModel | src/gss.rs:334-340 | so does keeping the empty stack |
| Model.PopTopModel | src/gss.rs:342-348 | so does popping a top |
| Model.PopTopIsRetainPop | docs/semantics.md:81-81 | popping a top is keeping it and then popping once |
| Model.Observed | tests/support/mod.rs:88-128 | emptiness, the empty stack, the tops, the single top and the depth read at the root are those of the explicit map; the depth is the length of a longest stack, exact below 2^64 |
| Model.ObservedJoin | src/gss.rs:410-416 | the joined weight is the join of all weights of the explicit map |
| Model.Enumerated | src/gss.rs:423-437 | a bounded enumeration returns the whole explicit map, or fails because it is larger than the limit |
| Run.AtFirst | tests/properties.rs:93-95 | a run begins with one empty map |
| Run.OlderKept | tests/properties.rs:97-109 | an operation adds one map and leaves every older one as it was |
| Run.DropsOne | tests/properties.rs:111-114 | a drop takes out the one map its number means, counted around, and keeps the others in order |
| Run.AddsListed | src/gss.rs:176-258 | the added map of a constructor has the given stacks, the weights listed for each joined |
| Run.AddsPushed | src/gss.rs:280-286 | a push puts its symbol on every stack of the map its number means |
| Run.AddsPopped | src/gss.rs:288-304 | a pop gives each stack the join of the weights of all stacks of that map that come down to it |
| Run.AddsChosen | src/gss.rs:265-408 | what merging, the selections and the weight transforms make of the maps their numbers mean, stack by stack |
| Run.Kept | src/gss.rs:155-168 | snapshots in step with their maps are well formed, mean them, and no two nodes behind them share an address |
| Run.Apply | src/gss.rs:195-408 | one operation keeps every snapshot in step with its explicit map and the heap coherent |
| Run.Execute | tests/properties.rs:80-112 | after any run every kept snapshot means its explicit map |

## Left out

- The Python binding (src/python.rs) and the members compiled only for it (`merge_all`, `with_stack`, `pop_branches`, `empty_weight`): they add no algorithm.
- Benchmarks, fuzzing, scripts, and the formatting of `Debug` and `Display`.
- Reference counts and `Drop`: what is live is a set of nodes, and dropping a snapshot shrinks it. When exactly memory is freed between two allocations is not modelled beyond what a running merge keeps alive.
- Address order and hash functions: an address is any number not in use, and a table yields its entries in any order.
- Time, space and process-stack depth.
- Callbacks with state, and weights that break the join laws or whose equality is not real equality.
- Which unweighted nodes are physically shared outside batched construction: pointer tests between them may succeed or fail for equal contents, and nothing proved depends on it. The allocations of a batched construction are read as values once its graph is put together.
- Physical identity of results (a merge returning its left argument itself, `retain_top` returning its input) except where stated for a pop of zero.
- Live weighted nodes of another weight type: the result of a weight transform is placed beside the live nodes of its own type only.
- Trie nodes and their child tables are values in a sequence that the construction reassigns, not objects updated in place, so aliasing between them is not modelled.
- The machine word outside the counters: lengths and indices are unbounded; only the stored counters and `len` of the linear view, which saturate in the source, are cut off.
- WMerge.WMerge: does not say which of several equivalent nodes is returned; its contract fixes the meaning, the invariants and the depth.
