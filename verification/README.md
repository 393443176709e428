# A model of the version-aware lazy segment trees

The library keeps a versioned array: `rangeAdd` publishes a new version from the latest one, `rangeSum` reads any
published version. It does so with several unlike mechanisms, and it gives exact formulas for what each of them costs.
This project models those mechanisms in Dafny, in the form they have in C++ (classes whose fields are updated in place,
arenas that grow, loops with an explicit stack), and proves what they promise over all arrays, ranges and runs.

## How the files fit together

| files | part of the library |
|---|---|
| `Policies`, `SumAdd`, `MinAdd`, `AffineSumMod`, `Checked`, `PolicyMeanings` | policies as values with their laws, checked signed arithmetic, and what the minimum and the affine policy compute |
| `TagTrees`, `Histories`, `Faithfulness`, `CheckedUpdates`, `Reads` | the pure meaning of a tagged canonical tree: update, query, chronological oracle, the boundary theorem; the same operations where an intermediate result may not be representable |
| `Arenas`, `PolicyTrees`, `PointTrees` | the append-only policy trees |
| `HeapLayout`, `PendingTrees`, `PushedTrees`, `LazyTrees` | the in-place trees on the 4n heap layout |
| `RangeSum`, `NumericDomain`, `Envelopes`, `Acceptance` | the plain array, the numeric guard, overflow freedom, and exactly which deltas are accepted |
| `GuardedTrees`, `Refinement`, `PointSums`, `AcceptedRuns` | the path-copying sum trees in lockstep with the plain array, and which logs they go through |
| `Placements`, `Visits`, `SumAddRuns`, `FatNodes`, `BufferedNodes` | nodes changed in place while older versions still reach them, and how many there are |
| `Preorder`, `Checkpoints` | the preorder layout, checkpoints and projected replay |
| `EnvelopedRuns` | the buffered and the checkpointing tree driven through a log within the numeric envelope |
| `SharedNodes` | the vendored tree, whose queries rewrite nodes shared between versions |
| `Canonical`, `Frontier`, `Heights`, `ClosedForm`, `FrontierSums`, `PushCounting`, `PushAttained`, `StructuralCounts`, `StreamRuns` | the cost formulas, and the structures driven through a stream against them |

The specification of a versioned sum is `ArrayAfter(initial, log)`, the plain array after a log of range additions. For an
arbitrary policy it is `Oracle(policy, initial, log)`, the elements after applying the logged actions in chronological
order. Each class keeps the initial array and the log as ghost state, and its `Valid()` ties every published version to a
prefix of that log. `Valid()` is required and ensured by every public method, so what follows from it holds after every run
of accepted and failed requests. A statement "the answer is exact" always means: when the operation answers, the answer is
that of the specification. The contracts also say exactly when an operation answers.

The trees over a versioned arena (fat nodes, buffered nodes, path copying) are all shown to denote, at every version, the
same pure tree `Run(policy, push, initial, log[..version])`. For fat nodes and buffered nodes each arena index carries a ghost
label, the canonical interval it stands for. The label makes the recursions terminate, keeps the left and right halves of
the latest tree apart, and shows that an append in place is invisible to every older version.

A C++ exception is `None` or `false`. Every `Initialize`, and every update that allocates, takes a flag `mayExhaust`
that permits, and never forces, running out of memory (the vendored tree, the counters and `frontierSum` are taken to have
enough). Values are mathematical integers; `Fits` is the signed 64-bit test that `checkedAdd` and `checkedMultiply` perform,
and every arithmetic step that the source checks is checked in the model.

## Two results against expectation

The guard of a tree compares the proposed array with the representation, not the tags. `Refinement.TreeRefusesMore` gives
an update that the plain array and the guard accept and that both path-copying trees refuse, because a tag would leave the
representation while every element stays inside; `TreeRefuses` and `ArrayAccepts` reach that state through the interfaces.
The exact condition is `Acceptance.Accepted`: a nonzero delta passes if and only if the scalar test holds, or the tags on
every path add up within the representation and the proposed array is representable, and every node on the way of the
update has room for its operations (`OperationsFit`, a condition on the stored sums and tags before the update). The tree
without tags, `PointSums`, has no such difference: it accepts exactly what the plain array accepts.

The vendored tree takes its length from the latest construction. `SharedNodes.PersistentLazyTree.Construct` stays valid if
and only if the length is the one it had, and `SharedNodes.AnotherLength` is an older version that then answers wrongly.

## Model

| member | source | states |
|---|---|---|
| Histories.BoundaryTheorem | include/valseg/policy_trees.hpp:21-27 | At every array size n >= 2, for every lawful policy: the tag-retaining tree is right on every history, array and range if and only if the induced actions commute. |
| Histories.CorrectnessForcesCommuting | docs/proof.md:532-569 | Necessity, action by action: a correct tag-retaining tree forces any two actions to commute on any valid element, by the history "g on everything, then f on element 0". |
| Histories.WitnessAnswer | docs/proof.md:532-569 | On that history the tag-retaining tree answers g after f: the older tag ends up outside the newer one. |
| Histories.WitnessExpected | docs/proof.md:532-569 | On that history the chronological oracle answers f after g. |
| Histories.SingletonAlwaysCorrect | docs/proof.md:532-569 | At n = 1 nothing is forced: every lawful policy is answered correctly, so n >= 2 is needed. |
| Faithfulness.FaithfulBoundary | docs/proof.md:571-578 | When different actions have different effects, retained tags are right at any size n >= 2 if and only if composing actions commutes. |
| Faithfulness.WithoutFaithfulness | docs/proof.md:590-593 | Without that assumption it need not: an additive action with an extra concatenated field composes differently in the two orders, and retained tags are right for it at every size. |
| Faithfulness.SumAddFaithful | docs/proof.md:582-584 | Two deltas with the same effect on every sum are the same delta. |
| Faithfulness.MinAddFaithful | docs/proof.md:582-584 | The same for the minimum with range addition. |
| Faithfulness.AffineFaithful | docs/proof.md:585-589 | Two reduced affine pairs with the same effect are the same pair, for every modulus above one: the residues 0 and 1 tell them apart. |
| Histories.RunRepresentsOracle | include/valseg/policy_trees.hpp:81-90 | Over every history the latest tree keeps the node invariant and its elements are the chronological oracle's: for copy-on-push with any lawful policy, for retained tags with commuting actions. |
| Histories.AnswerIsExpected | include/valseg/policy_trees.hpp:319-335 | A query of any version combines the oracle's elements l..r in index order. |
| Histories.QueryIsFold | include/valseg/policy_trees.hpp:319-335 | A query folds the represented elements of the range, under the tags accumulated outermost first on the way down. |
| TagTrees.UpdateElements | include/valseg/policy_trees.hpp:275-317 | One update is the element-wise action on its range: always when tags are pushed on a partial descent, for retained tags when actions commute. |
| TagTrees.OpenedElements | include/valseg/policy_trees.hpp:291-302 | Pushing a tag into copied children (or retaining it) changes what a node stores but not the elements it represents, and leaves no tag behind when it pushes. |
| TagTrees.AggregateIsFold | include/valseg/policy_trees.hpp:81-90 | Under the node invariant each stored aggregate is the ordered combination of the elements below, own tag inside and ancestors' tags outside. |
| TagTrees.FoldMap | docs/proof.md:414-437 | An action on a segment's aggregate is the action on each of its elements, combined. |
| Arenas.GrowthKeeps | include/valseg/policy_trees.hpp:267-317 | Appending to the arena changes no tree that already hangs in it. |
| PolicyTrees.PathCopyingActionTree.RangeApply | include/valseg/policy_trees.hpp:160-176 | Publishes exactly one version whose tree is the next of the run, on an arena and a root list that only grew; the identity action shares the latest root and appends no record; or changes nothing, a valid request exactly when an operation of the update is not representable or memory runs out, the append of the root included. |
| PolicyTrees.PathCopyingActionTree.Update | include/valseg/policy_trees.hpp:275-317 | Appends exactly F + 2P records (P = 0 when tags are retained), changes no older record, returns the updated tree, and fails exactly when the checked update does. |
| PolicyTrees.PathCopyingActionTree.PushInto | include/valseg/policy_trees.hpp:267-273 | A copy of the child with the tag applied to its aggregate and composed outside its own tag; the original record stays. |
| PolicyTrees.PathCopyingActionTree.RangeAggregate | include/valseg/policy_trees.hpp:192-198 | An answer on any published version is the oracle's; it fails exactly when the checked query of that version's tree does. |
| PolicyTrees.PathCopyingActionTree.NodeCount | include/valseg/policy_trees.hpp:223-225 | After any run of accepted and failed requests: zero for the empty array, else 2n - 1 plus what every accepted action appended. |
| PolicyTrees.PathCopyingActionTree.Initialize | include/valseg/policy_trees.hpp:129-141 | Replaces the history by version zero, or fails and changes nothing; fails exactly when a combination of the build is not representable or memory runs out. |
| CheckedUpdates.GrowthSplits | include/valseg/policy_trees.hpp:291-316 | The record count of a partial descent: the copy, two when tags are pushed and the tag is not the identity, and what the entered children append. |
| CheckedUpdates.GrowthBound | docs/proof.md:874-889 | One update appends at most 4h - 3 records when tags are retained and 8h - 5 when they are pushed, on any tree. |
| CheckedUpdates.UpdateNeverFails | include/valseg/policy_trees.hpp:275-317 | A policy none of whose operations fails has every update applied, with retained and with pushed tags. |
| Histories.QueryNeverFails | include/valseg/policy_trees.hpp:319-335 | ... and every query answered. |
| PushAttained.WorstPushAttained | docs/proof.md:874-889 | Attained: on 2^h elements, h >= 2, after tagging both boundary paths bottom-up and then the root, the update of [1, n - 2] pushes at 2h - 1 nodes and appends 8h - 5 records. |
| PointTrees.PointMaterializedPersistentTree.Update | include/valseg/policy_trees.hpp:522-543 | Appends exactly the canonical nodes that meet the range, shares the rest, and returns the updated tree. |
| PointTrees.PointMaterializedPersistentTree.RangeApply | include/valseg/policy_trees.hpp:420-436 | Publishes exactly one version (the identity action shares the latest root and appends nothing), or changes nothing, a valid request exactly when an operation is not representable or memory runs out. |
| PointTrees.PointMaterializedPersistentTree.RangeAggregate | include/valseg/policy_trees.hpp:452-458 | An answer is the oracle's for every lawful policy, commuting or not; it fails exactly when a combination of the query is not representable, and so never for a policy whose operations never fail. |
| PointTrees.TotalNeverFails | include/valseg/policy_trees.hpp:545-558 | A policy none of whose operations fails has every query of a tagless tree answered. |
| PointTrees.PointMaterializedPersistentTree.NodeCount | include/valseg/policy_trees.hpp:483-485 | Zero for the empty array, else 2n - 1 plus the intersecting nodes of every accepted action that is not the identity. |
| PointTrees.PointApplies | include/valseg/policy_trees.hpp:522-543 | Applying the action at every leaf of the range is the element-wise application, for any action of any lawful policy. |
| PointTrees.PointRunIsOracle | docs/proof.md:628-672 | Over every run the leaves of the latest version are the oracle's elements, for any lawful policy. |
| PointTrees.TotalIsFold | include/valseg/policy_trees.hpp:545-558 | A tagless query combines exactly the leaves of the range, in index order. |
| PointSums.PointSucceeds | src/point_only_persistent_segment_tree.cpp:131-168 | PointOnlyPersistentSegmentTree: an update of a tree that holds canonical sums succeeds if and only if the selected elements and the canonical sums of the proposed array are representable, and then holds those. |
| PointSums.RefusedIsUnrepresentable | src/point_only_persistent_segment_tree.cpp:51-73 | After every run an update is refused if and only if the proposed array is not representable, the same check as the plain array's. |
| PointSums.InitializeBoth | src/point_only_persistent_segment_tree.cpp:29-43 | When memory suffices tree and plain array accept the same initial arrays; they then start in lockstep. |
| PointSums.PointAddBoth | src/point_only_persistent_segment_tree.cpp:51-73 | In lockstep over every run: when memory suffices tree and plain array publish exactly the same updates, as the same version of the same array. |
| PointSums.PointSumBoth | src/point_only_persistent_segment_tree.cpp:75-83 | In lockstep: the tree answers a valid range if and only if, at every canonical node that the range covers in part, the sum over the shared elements is a word, always within the numeric envelope; an answer is the exact sum over the plain array's version. |
| PointSums.TotalDecides | src/point_only_persistent_segment_tree.cpp:176-195 | A query of a tree that holds canonical sums is answered if and only if every such overlap sum is representable, and then with the sum over the range. |
| PushedTrees.PushedLazyTree.RangeApply | include/valseg/policy_trees.hpp:625-629 | In place: the heap then holds the oracle's elements after one more action; it succeeds exactly for a valid range whose operations are all representable. |
| PushedTrees.PushedLazyTree.RangeAggregate | include/valseg/policy_trees.hpp:645-649 | A query rewrites the nodes it visits, answers with the oracle's combination, and leaves every element as it was; it succeeds exactly when its operations are representable. |
| PushedTrees.PushedLazyTree.Push | include/valseg/policy_trees.hpp:679-689 | The tag applied to the node and handed to both children, in three heap slots; no other slot of the heap changes. |
| PushedTrees.PushedLazyTree.Update | include/valseg/policy_trees.hpp:691-706 | The recursion writes only inside the subtree of its slot and leaves there the updated tree, pushing at both children whether or not they meet the range. |
| PushedTrees.PushedLazyTree.Query | include/valseg/policy_trees.hpp:708-720 | The recursion leaves the traversed tree in its subtree, everything else alone, and returns the combination of the range. |
| PushedTrees.PushedLazyTree.Initialize | include/valseg/policy_trees.hpp:602-612 | Four slots an element, 4n in all, hold a freshly built tree with nothing pending; fails exactly when a combination of the build is not representable or memory runs out, and then changes nothing. |
| PushedTrees.NothingFails | include/valseg/policy_trees.hpp:573-720 | A policy all of whose operations are representable never makes an update or a query fail. |
| PendingTrees.AppliedElements | include/valseg/policy_trees.hpp:691-706 | An update that pushes on the way is the element-wise application, for any lawful policy. |
| PendingTrees.QueryKeepsElements | include/valseg/policy_trees.hpp:708-720 | What a query leaves represents the same elements as before, with nothing pending at its root; its answer is their fold over the range. |
| PendingTrees.PushedElements | include/valseg/policy_trees.hpp:679-689 | A push changes neither the elements nor what the node amounts to. |
| HeapLayout.RoomIsInside | include/valseg/detail/checked_size.hpp:61-63 | Every slot a canonical subtree can reach from the root lies among 4n. |
| HeapLayout.ChildrenRoom | src/lazy_segment_tree.cpp:77-91 | The slots 2i + 1 and 2i + 2 leave enough room for both halves. |
| SumAdd.SumAddLawful | include/valseg/policy.hpp:153-220 | Sum with range addition satisfies every law, and its induced actions commute. |
| SumAdd.CheckedApply | include/valseg/policy.hpp:217-219 | The checked length, product and sum together fail exactly when the exact intermediate values leave the representation. |
| MinAdd.MinAddLawful | include/valseg/policy.hpp:239-310 | Minimum with range addition, the minimum of no elements kept apart, satisfies every law and commutes. |
| PolicyMeanings.FoldIsLeast | include/valseg/policy.hpp:260-271 | The fold of a nonempty array is one of its elements and at most every one of them; that of no elements is represented by 2^63 - 1. |
| PolicyMeanings.MinimumExpected | include/valseg/policy.hpp:239-310 | What every tree is to answer under MinAddPolicy: the least of the elements l..r of the plain array after the log of range additions. |
| PolicyMeanings.MinimumComposes | include/valseg/policy.hpp:283-285 | Two deltas compose, to their sum, if and only if it is a word. |
| PolicyMeanings.RangeMinimum | include/valseg/policy_trees.hpp:192-198 | Through the interface of a path-copying tree, tags retained or pushed: an answer is the least of the elements l..r of that version, and there is one exactly when the tags add up to words and the least element of each covered node is one. |
| MinAdd.CombineAgrees | include/valseg/policy.hpp:260-271 | On words, with the largest word for the minimum of no elements, combining is the same, also where that word is a value: the lesser of the two. |
| MinAdd.ApplyAgrees | include/valseg/policy.hpp:307-309 | On words, applying succeeds and fails and computes the same if and only if the sentinel is not taken for a nonempty segment under a nonzero delta; on valid aggregates it never is. |
| AffineSumMod.AffineLawful | include/valseg/policy.hpp:325-440 | The affine policy satisfies every law for every modulus above one. |
| PolicyMeanings.AffineNeverFails | include/valseg/policy.hpp:325-440 | No operation of it is ever refused. |
| PolicyMeanings.FoldIsSumModulo | include/valseg/policy.hpp:325-440 | The fold of an array is its sum modulo m. |
| PolicyMeanings.AffineExpected | include/valseg/policy.hpp:325-440 | What every tree is to answer: the sum, modulo m, of the elements l..r after the logged maps x -> scale * x + shift, each reduced. |
| PolicyMeanings.AffineRangeSum | include/valseg/policy_trees.hpp:192-198 | Through the interface of copy-on-push: every valid query of every version is answered, and with that sum. |
| PolicyMeanings.AffinePointSum | include/valseg/policy_trees.hpp:452-458 | The same for the point-materialized tree. |
| PolicyMeanings.AffineExample | include/valseg/policy_trees.hpp:160-176 | Doubling and incrementing the only element, 1, modulo 7: copy-on-push publishes it and answers 3. |
| AffineSumMod.AffineDoesNotCommute | include/valseg/policy.hpp:325-369 | For no modulus do its induced actions commute, so retained tags are never right for it. |
| AffineSumMod.AffineNoWrap | include/valseg/policy.hpp:325-331 | Below 2^32 no product or sum of reduced numbers in any of its operations leaves 64 unsigned bits. |
| Checked.CheckedAdd | include/valseg/policy.hpp:72-79 | Decides without leaving the word, and fails exactly when the exact sum leaves it. |
| Checked.CheckedMultiply | include/valseg/policy.hpp:91-119 | Four sign cases with truncating division and the two minus-one cases: fails exactly when the exact product leaves the word. |
| Checked.CheckedLength | include/valseg/policy.hpp:131-137 | Fails exactly when the length exceeds the largest signed word. |
| Frontier.CountFrontier | include/valseg/frontier.hpp:77-91 | The by-reference recursion adds to the counts it was handed the partial and the covered visited nodes. |
| ClosedForm.NodesContainingBoth | include/valseg/frontier.hpp:103-119 | The walk counts exactly the canonical nodes that contain both indices, by the direct definition over the whole tree. |
| ClosedForm.DecompositionAlongBoundary | include/valseg/frontier.hpp:137-167 | The walk counts exactly the covered children that hang off one boundary path, and terminates. |
| ClosedForm.PartialIsUnion | docs/proof.md:763-776 | Partial nodes and nodes on both boundary paths together are the nodes on the left and on the right boundary path: inclusion and exclusion, so the subtraction never underflows. |
| ClosedForm.HangingBelow | docs/proof.md:777-799 | The decomposition is what hangs off the two boundary paths. |
| ClosedForm.ExactFrontier | docs/proof.md:777-799 | F is the size of the union of the two boundary paths plus what hangs off each, with either boundary absent or present; the shared ancestors never exceed the two paths they are subtracted from. |
| ClosedForm.ClosedFormFrontier | include/valseg/frontier.hpp:235-260 | The loop-based closed form equals the recursion's F for every n and every valid range, and refuses exactly the invalid ones. |
| ClosedForm.IntersectingIsPartialPlus | docs/proof.md:890-900 | Intersecting plus decomposition nodes are partial nodes plus twice the elements of the overlap; the decomposition is at most that overlap, so k - decomposition never underflows. |
| ClosedForm.IntersectingNodes | include/valseg/frontier.hpp:280-290 | partial + (k + (k - decomposition)) is the number of canonical nodes that meet the range. |
| Heights.TreeHeight | include/valseg/detail/checked_size.hpp:99-110 | The shifting loop refuses zero and otherwise returns ceil(log2 n): the least exponent whose power of two reaches n. |
| Heights.HeightIsCeilLog2 | docs/proof.md:800-822 | The height of the canonical tree over m elements is ceil(log2 m). |
| Heights.LeafDepths | docs/proof.md:800-822 | Every leaf of the canonical tree lies at depth h or h - 1. |
| Heights.FrontierBound | include/valseg/frontier.hpp:318-326 | F never exceeds maximumFrontier of the height, for every array and range. |
| Heights.FrontierBoundAttained | docs/proof.md:800-822 | On 2^h elements, h >= 2, the range [1, 2^h - 2] attains 4h - 3. |
| Heights.FrontierBoundTight | docs/proof.md:800-822 | For h >= 2 some range attains the bound if and only if n is a power of two. |
| Heights.PartialBound | docs/proof.md:874-889 | At most 2h - 1 partial nodes, hence at most 2h - 1 pushes in one update. |
| FrontierSums.FrontierSum | include/valseg/frontier.hpp:358-387 | For a counter whose values are sizes the explicit-stack traversal returns the sum of all contributions of the canonical nodes, and refuses exactly a size of zero, a counter that breaks containment somewhere, and a sum that is no representable size; it visits 2n - 1 nodes. |
| FrontierSums.VisitOne | include/valseg/frontier.hpp:370-384 | One popped frame: its contribution moves to the sum and its children take its place on the stack. |
| FrontierSums.ContributionsAreVisits | docs/proof.md:823-843 | Double counting: below any node, summing a correct counter over nodes is summing the visits of the ranges that do not stop above it. |
| FrontierSums.FrontierSumIsExact | docs/proof.md:823-843 | For every family of ranges a counter that counts it respects containment at every node, and its contributions add up to the exact sum of F over the family. |
| FrontierSums.FamilyFrontierSum | include/valseg/frontier.hpp:358-387 | The traversal with a counter of any family of at most the largest size many ranges: it returns the sum of F over the family, and refuses exactly n = 0 and a sum that is no representable size. |
| FrontierSums.AllRangesOnce | include/valseg/frontier.hpp:400-415 | The enumeration holds every valid range exactly once and nothing else. |
| FrontierSums.AllRangesBound | include/valseg/frontier.hpp:400-415 | The counter for all ranges counts, at every interval, the ranges that meet it and those that contain it. |
| FrontierSums.AllRangesSum | include/valseg/frontier.hpp:400-415 | With the counter of all ranges the contributions add up to the sum of F over all n(n + 1)/2 ranges. |
| FrontierSums.AllRangesFits | include/valseg/frontier.hpp:400-415 | Once n(n + 1)/2 is a size, every triangular number and product that the counter computes on the way is one. |
| FrontierSums.AllRangesFrontierSum | include/valseg/frontier.hpp:400-415 | Counter and traversal together: the sum of F over all ranges, refused exactly when n is zero, n(n + 1)/2 is no size, or the sum is no size. |
| FrontierSums.CountsWindows | include/valseg/frontier.hpp:427-453 | How many windows of a fixed width meet an interval and how many contain it. |
| FrontierSums.FixedWidthSum | include/valseg/frontier.hpp:427-453 | With the fixed-width counter the contributions add up to the sum of F over the n - w + 1 windows. |
| FrontierSums.FixedWidthFrontierSum | include/valseg/frontier.hpp:427-453 | Counter and traversal together: the sum of F over all windows of the width, refused exactly when the width is not between one and n or the sum is no size. |
| FrontierSums.TriangularNumber | include/valseg/detail/checked_size.hpp:119-124 | Halving the even factor first is exact. |
| FrontierSums.CheckedTriangularNumber | include/valseg/detail/checked_size.hpp:119-124 | With checked size arithmetic it is refused exactly when the result is no representable size. |
| Checked.CheckedSizeAdd | include/valseg/detail/checked_size.hpp:18-23 | Decides without leaving the word, and fails exactly when the sum leaves it. |
| Checked.CheckedSizeMultiply | include/valseg/detail/checked_size.hpp:33-38 | The division test fails exactly when the product leaves the word. |
| PushCounting.PushCountingModel.constructor | include/valseg/frontier.hpp:481-482 | 4n tags, all the identity, stand for the tags of a fresh tree. |
| PushCounting.PushCountingModel.Apply | include/valseg/frontier.hpp:497-503 | Returns the push frontier P of this update on the copy-on-push tree after the same history, keeps the heap of tags equal to that tree's, and fails exactly for an invalid range, which changes nothing, or when a composition on the way is not representable. |
| PushCounting.PushCountingModel.Update | include/valseg/frontier.hpp:516-539 | Simulation, one call: the heap below the slot then holds the tags of the updated tree and nothing else changed. |
| PushCounting.CountedWhenApplied | include/valseg/frontier.hpp:455-466 | Where copy-on-push applies an update, the model counts it. |
| StructuralCounts.Count | bench/structural_counts.hpp:56-112 | One pass over a stream, over any array of that size. Field by field: a number is that of the positions of the stream whose operation is of its kind, a total the sum over the positions of what the operation adds (F, P, the intersecting nodes, version mod K, the distance to the latest version). It fails exactly on an invalid stream, when a tag of copy-on-push would not be representable, or when a total is no representable size. |
| StructuralCounts.TotalsByField | bench/structural_counts.hpp:56-112 | The running totals are, field by field, those numbers and sums over the positions. |
| StructuralCounts.ValidPositions | bench/structural_counts.hpp:89-96 | A stream is valid if and only if every range lies inside the array and no query asks for a version later than the updates before it. |
| StructuralCounts.RunTagsAreWords | include/valseg/frontier.hpp:516-539 | While the compositions are representable no tag of copy-on-push ever leaves the words. |
| StructuralCounts.CountUpdate | bench/structural_counts.hpp:66-88 | An update adds to each field what it should (one update, F, P and the intersecting nodes unless its delta is zero, F again when its version is a multiple of K, one if it is of the whole array), or is refused exactly when a tag or a total is not representable. |
| StructuralCounts.CountQuery | bench/structural_counts.hpp:89-110 | A query adds to each field what it should (one query, F, its distance to the latest version, version mod K unless that is the latest, one if it is of the whole array or of the latest version); refused exactly when its version is not published or a total is no size. |
| StructuralCounts.CountsPredictGrowth | bench/analysis/confirm.py:478-508 | Over every stream: sum F, sum F + 2 sum P and sum N are the exact arena growth of the tag-retaining, the copy-on-push and the point-materialized tree. |
| StreamRuns.CountsAreMeasured | bench/analysis/confirm.py:478-508 | Every structure driven through the stream: the arena growth of the three trees and the entries the checkpointing tree replayed are the counts; each structure goes through under exactly the stated condition, and where copy-on-push does, the stream is counted. |
| StreamRuns.GrowTree | bench/analysis/confirm.py:478-508 | A path-copying tree goes through a stream exactly when every update is accepted in its turn; its node count less the build is then its predicted growth. |
| AcceptedRuns.BoundNext | include/valseg/detail/sum_add_domain.hpp:89-117 | Which logs a guarded structure accepts, and the bound its guard has then committed, are determined by the array and the log: one more entry is accepted or not, and commits this bound. |
| StreamRuns.GrowPoints | bench/analysis/confirm.py:478-508 | The point-materialized tree goes through a stream exactly when the plain array does; its node count less the build is then its predicted growth. |
| StreamRuns.PointsGo | src/point_only_persistent_segment_tree.cpp:51-73 | A log goes through the point-materialized tree if and only if the array and every proposed array of the log are representable. |
| StreamRuns.ReplayStream | src/checkpointing_segment_tree.cpp:104-133 | The checkpointing tree goes through a stream exactly when every update is accepted and every query answered; the replayed entries then total what the counts predict. |
| StructuralCounts.RetainedGrowth | docs/proof.md:847-857 | The tag-retaining tree appends exactly the sum of F over the nonzero updates of a run. |
| StructuralCounts.PushedGrowth | docs/proof.md:858-873 | Copy-on-push appends exactly the sum of F + 2P over the nonzero updates of a run. |
| StructuralCounts.AppliedIsCountable | bench/structural_counts.hpp:56-112 | A valid stream whose updates copy-on-push applies, every one, is counted. |
| RangeSum.BruteForceArray.RangeAdd | src/brute_force_array.cpp:70-83 | Publishes the base version with the delta added on the range, or changes nothing: exactly when the range is invalid, a selected element or a canonical sum of the proposed array is not representable, or memory for the copy runs out. |
| RangeSum.BruteForceArray.RangeSum | src/brute_force_array.cpp:91-103 | Answers with the sum exactly when every running total is representable. |
| RangeSum.BruteForceArray.Initialize | src/brute_force_array.cpp:54-62 | Accepts exactly the arrays whose canonical sums are representable, unless memory runs out; otherwise nothing changes. |
| RangeSum.CanonicalSum | include/valseg/detail/sum_add_domain.hpp:25-33 | The recursive check yields the sum of the segment. |
| RangeSum.CanonicalSumsExactly | include/valseg/detail/sum_add_domain.hpp:25-33 | It succeeds if and only if the sum over every canonical segment is a word. |
| RangeSum.AnswerIsSum | src/persistent_lazy_segment_tree.cpp:91-99 | Either variant of the tree with sums, after any log, answers with the plain sum over the array of that version. |
| SumAddRuns.BuildIsCanonical | src/persistent_lazy_segment_tree.cpp:125-142 | A build succeeds exactly when the canonical sums are representable. |
| SumAddRuns.CheckedAnswerIsSum | src/persistent_lazy_segment_tree.cpp:210-236 | A checked query that answers, answers with the sum over the version's array. |
| SumAddRuns.LeavesAreCurrent | src/persistent_lazy_segment_tree.cpp:238-251 | A materialization that succeeds is the current array. |
| Reads.MaterializeIsElements | src/persistent_lazy_segment_tree.cpp:238-251 | What a traversal yields is the represented elements under the inherited tag. |
| NumericDomain.MaxMagnitude | include/valseg/detail/sum_add_domain.hpp:128-137 | The loop returns the least bound that dominates every element. |
| NumericDomain.EnvelopeProduct | include/valseg/detail/sum_add_domain.hpp:144-153 | An accepted bound keeps every sum of at most n elements representable. |
| NumericDomain.ProvesIsProduct | include/valseg/detail/sum_add_domain.hpp:144-153 | The test by division accepts a bound if and only if its product with the size is at most 2^63 - 1. |
| NumericDomain.EnvelopeImpliesExact | include/valseg/detail/sum_add_domain.hpp:89-107 | Accepting the envelope implies that the exact check of leaves and canonical sums would accept. |
| NumericDomain.SaturationIsRefused | include/valseg/detail/sum_add_domain.hpp:139-153 | The saturated sum is accepted exactly when the unbounded one would be, so saturation hides nothing. |
| NumericDomain.ValidateRangeAdd | include/valseg/detail/sum_add_domain.hpp:89-107 | Accepts if and only if the scalar test does or the traversal and the exact check do; commits the enlarged envelope in the first case and the true largest magnitude of the proposed array in the second, which is representable in both. |
| Envelopes.UpdateFits | src/persistent_lazy_segment_tree.cpp:161-202 | Within the envelope no checked operation of an update fails, in either variant, and the weight of the tree grows by at most the delta's magnitude. |
| Envelopes.QueryFits | src/persistent_lazy_segment_tree.cpp:210-236 | Within the envelope no checked operation of a query fails, whatever it inherits. |
| Envelopes.RunWeight | include/valseg/detail/sum_add_domain.hpp:55-67 | Over every run the tags on a path and the leaf at its end add up to at most the initial bound plus the magnitudes of the deltas. |
| Envelopes.EnvelopedQueriesFit | include/valseg/detail/sum_add_domain.hpp:89-107 | In a run whose nonzero envelope the scalar test accepts, no query and no materialization of any version overflows. |
| Envelopes.EnvelopedUpdateFits | include/valseg/detail/sum_add_domain.hpp:89-107 | Nor does the next nonzero update, when the test accepts its delta too. |
| EnvelopedRuns.EnvelopedAccepted | include/valseg/detail/sum_add_domain.hpp:89-107 | A delta that keeps the summed magnitudes within the scalar test is accepted, in either variant: guard, tags and every operation of the update. |
| EnvelopedRuns.EnvelopedBuffered | src/buffered_path_copying_segment_tree.cpp:216-264 | It is accepted by the buffered structure too: every delta entry and every new sum on the way is representable. |
| EnvelopedRuns.EnvelopedAnswerable | src/checkpointing_segment_tree.cpp:104-133 | In a run whose nonzero envelope the scalar test accepts, every historical query is answered, for every interval: the read of the nearest checkpoint and every replayed event are representable. |
| EnvelopedRuns.DriveBuffered | src/buffered_path_copying_segment_tree.cpp:55-93 | The buffered tree through its interface: given the memory, every delta of such a run is published. |
| EnvelopedRuns.AnswerBuffered | src/buffered_path_copying_segment_tree.cpp:95-103 | ... and any query of any of its versions is answered with the exact sum. |
| EnvelopedRuns.DriveCheckpointing | src/checkpointing_segment_tree.cpp:64-102 | The checkpointing tree through its interface: given the memory, every delta of such a run is published. |
| EnvelopedRuns.AnswerCheckpointing | src/checkpointing_segment_tree.cpp:104-133 | ... and any query of any of its versions is answered with the exact sum. |
| Acceptance.UpdateSucceeds | src/persistent_lazy_segment_tree.cpp:161-202 | For both variants: the checked update of a consistent tree succeeds if and only if, before it, every node on its way has room: a covered node for its stamp, a partial one for its tag's push and for the sum over children that took their share. |
| Acceptance.UpdateAddsOverlap | src/buffered_path_copying_segment_tree.cpp:244-263 | An update adds the delta once per element of the overlap to every visited sum, with retained and with pushed tags; so for retained tags one buffered delta entry is enough. |
| Acceptance.MaterializeSucceeds | src/persistent_lazy_segment_tree.cpp:238-251 | The traversal of the leaves succeeds if and only if the tags add up, step by step, within the representation on every path. |
| Acceptance.QuerySucceeds | src/persistent_lazy_segment_tree.cpp:210-236 | A checked query succeeds if and only if on its way the tags add up to words, the inherited tag times the length of each covered node is one, and so is the sum over the elements that each visited node shares with the range. |
| Acceptance.QueryDecides | src/persistent_lazy_segment_tree.cpp:210-236 | The same for every version, in terms of the plain array after its log, with retained and with pushed tags. |
| Acceptance.GuardDecides | include/valseg/detail/sum_add_domain.hpp:89-107 | The guard accepts if and only if the scalar test does, or the leaves can be read and the proposed array is representable. |
| Acceptance.PreflightDecides | src/fat_node_persistent_segment_tree.cpp:72-82 | Guard and update preflight together accept exactly the accepted deltas. |
| GuardedTrees.SumAddSegmentTree.RangeAdd | src/persistent_lazy_segment_tree.cpp:56-89 | PersistentLazySegmentTree (tags retained) and CopyOnPushSegmentTree (tags pushed): publishes one version or changes nothing, a valid request exactly when the delta is accepted or memory runs out; says what bound is committed; while the scalar test accepts, a valid request can only run out of memory. |
| GuardedTrees.SumAddSegmentTree.RangeSum | src/persistent_lazy_segment_tree.cpp:91-99 | An answer on any version is the plain array's; there is one if and only if no sum, tag product or total on the way leaves the representation, and within the envelope always. |
| GuardedTrees.SumAddSegmentTree.Preflight | bench/copy_on_push_segment_tree.hpp:83-103 | The guard over the latest leaves, as an if-and-only-if, and the bound it will commit. |
| GuardedTrees.SumAddSegmentTree.Initialize | src/persistent_lazy_segment_tree.cpp:29-48 | Accepts exactly the arrays whose canonical sums are representable, unless memory runs out; otherwise nothing changes. |
| Refinement.RangeAddBoth | src/brute_force_array.cpp:70-83 | In lockstep over every run: what the tree publishes, the plain array publishes, as the same version of the same array; when memory suffices the tree publishes a valid request exactly when the delta is accepted (zero, or the guard's test and then a condition on every stored sum and tag on the way of the update). |
| Refinement.RangeSumBoth | src/brute_force_array.cpp:91-103 | In lockstep: an answer of the tree is the exact sum over the plain array's version, and both agree when both answer. |
| Refinement.TreeRefusesMore | include/valseg/detail/sum_add_domain.hpp:89-107 | An update that the plain array and the guard accept and either tree refuses: the elements stay inside the representation, a tag does not; the state before it is left by an accepted update of an accepted array. |
| Refinement.AcceptedBesides | src/persistent_lazy_segment_tree.cpp:67-88 | Exactly what the tree demands beyond the plain array: the scalar test or a readable path to every leaf, and room for the operations of the update at every node on its way. |
| Refinement.TreeRefuses | src/persistent_lazy_segment_tree.cpp:56-89 | The counterexample through the interface of the tree, with retained or with pushed tags: the first update is published, the second is not. |
| Refinement.ArrayAccepts | src/brute_force_array.cpp:70-83 | The same two updates through the interface of the plain array: both are published. |
| LazyTrees.LazySegmentTree.RangeAdd | src/lazy_segment_tree.cpp:48-59 | Adds in place and leaves the preflight's sum in the root, or changes nothing at all: exactly when the range is invalid, the delta is not accepted, or memory for the guard's traversal runs out, which a zero delta never needs. |
| LazyTrees.LazySegmentTree.RangeSum | src/lazy_segment_tree.cpp:61-65 | An answer is the sum over the current array; it fails exactly when the checked query does. |
| LazyTrees.LazySegmentTree.Preflight | src/lazy_segment_tree.cpp:99-119 | Predicts the root sum of the update, every operation of which is representable. |
| LazyTrees.LazySegmentTree.Update | src/lazy_segment_tree.cpp:127-148 | Writes only below its slot, cannot fail after the preflight, and leaves the updated tree there. |
| LazyTrees.LazySegmentTree.Initialize | src/lazy_segment_tree.cpp:28-40 | Accepts exactly the arrays whose canonical sums are representable, unless memory runs out; otherwise nothing changes. |
| LazyTrees.InHeapStands | src/lazy_segment_tree.cpp:156-174 | The heap seen as an arena: the read-only recursions over both are the same. |
| Checkpoints.CheckpointingSegmentTree.RangeAdd | src/checkpointing_segment_tree.cpp:64-102 | One more version in the log and the live tree and, when its number is a multiple of K, one more checkpoint, so that there are always versions / K + 1 of them; or no field changes at all, a valid request exactly when the delta is not accepted or memory runs out. |
| Checkpoints.CheckpointingSegmentTree.RangeSum | src/checkpointing_segment_tree.cpp:104-133 | An answer is the sum over the version asked for; none or exactly version mod K events are replayed; it answers exactly when every operation of the query and of the replay is representable. |
| Checkpoints.CheckpointingSegmentTree.Replay | src/checkpointing_segment_tree.cpp:119-131 | The loop: after each event the running sum is the sum over that version's array; it fails exactly on an event whose delta or sum is not representable. |
| Checkpoints.CheckpointingSegmentTree.Reserve | src/checkpointing_segment_tree.cpp:80-91 | The log entry and the copy of the live tree are both kept or both dropped. |
| Checkpoints.CheckpointingSegmentTree.Mutate | src/checkpointing_segment_tree.cpp:93-99 | After the reservations nothing can fail: the live tree and the new checkpoint move to the new version together. |
| Checkpoints.CheckpointingSegmentTree.NodeCount | src/checkpointing_segment_tree.cpp:149-154 | The live tree, one copy for each checkpoint (one every K versions and version zero), and the log; zero for the empty array. |
| Checkpoints.CheckpointingSegmentTree.Initialize | src/checkpointing_segment_tree.cpp:31-56 | Refuses interval zero and unrepresentable sums, or memory runs out, and changes nothing; otherwise one version with its checkpoint. |
| Checkpoints.NearestCheckpoint | src/checkpointing_segment_tree.cpp:114-117 | In every reachable state version / K is a checkpoint that denotes its version, version mod K events before the one asked for. |
| Checkpoints.CheckpointsNext | src/checkpointing_segment_tree.cpp:80-99 | Every multiple of K keeps its checkpoint, zero deltas at the boundary included. |
| Checkpoints.NextQuotient | src/checkpointing_segment_tree.cpp:80-91 | Consecutive versions share their nearest checkpoint exactly unless the later one is due its own. |
| Checkpoints.ReplayOne | src/checkpointing_segment_tree.cpp:123-130 | A range addition changes the sum over another range by its delta once per shared element. |
| Preorder.BlocksTile | src/checkpointing_segment_tree.cpp:171-178 | The blocks of the two children are exactly the slots after the node's own, 2m - 1 in all. |
| Preorder.PackedAgrees | src/checkpointing_segment_tree.cpp:171-178 | A subtree depends on its own block of slots alone. |
| Preorder.PackedBoth | src/checkpointing_segment_tree.cpp:210-239 | Rewriting both children and then the node leaves the new tree in the block and every other slot as it was. |
| Preorder.ValidateIsUpdate | src/checkpointing_segment_tree.cpp:241-264 | The preflight returns the root sum of the update and fails exactly when the update would. |
| Preorder.QueryPacked | src/checkpointing_segment_tree.cpp:272-300 | The read-only recursion over the preorder slots is the checked query of the tree packed there. |
| FatNodes.FatNodePersistentSegmentTree.RangeAdd | src/fat_node_persistent_segment_tree.cpp:60-91 | Publishes one version, or changes no node, root or bound; a valid request is refused exactly when the delta is not accepted or memory runs out. A zero delta shares the latest root and writes nothing. In every case the older versions still read exactly the same records. |
| FatNodes.FatNodePersistentSegmentTree.RangeSum | src/fat_node_persistent_segment_tree.cpp:93-101 | On any published version an answer is the sum over that version's array, whatever was appended in place since; it fails exactly when the checked query of that version's tree does. |
| FatNodes.FatNodePersistentSegmentTree.Update | src/fat_node_persistent_segment_tree.cpp:262-304 | Cannot fail after the preflights; writes only inside its interval; leaves the updated tree; appends exactly one node per visited node that was full. |
| FatNodes.FatNodePersistentSegmentTree.Record | src/fat_node_persistent_segment_tree.cpp:212-230 | While the node holds fewer than three states the new one is appended to it in place; otherwise it goes to a fresh node, whose index is returned. |
| FatNodes.FatNodePersistentSegmentTree.ReserveForUpdate | src/fat_node_persistent_segment_tree.cpp:193-210 | Room for 4(h + 1) nodes and for one root, or out of memory with nothing changed but the capacities. |
| FatNodes.FatNodePersistentSegmentTree.Preflight | src/fat_node_persistent_segment_tree.cpp:72-84 | The guard, the arithmetic of the update and the reservation, before the first write. |
| FatNodes.FatNodePersistentSegmentTree.NodeCount | include/valseg/fat_node_persistent_segment_tree.hpp:56-61 | After any run: 2n - 1 plus the sum over all canonical nodes v of floor(m_v / 3), m_v counted from the log alone as the nonzero updates that meet v and do not cover its parent; with U nonzero updates, all of the whole array, 2n - 1 + floor(U / 3). |
| FatNodes.FatNodePersistentSegmentTree.Initialize | src/fat_node_persistent_segment_tree.cpp:30-52 | Accepts exactly the arrays whose canonical sums are representable, unless memory runs out; otherwise nothing changes. |
| FatNodes.OlderSlicesGrow | src/fat_node_persistent_segment_tree.cpp:170-180 | States stamped with a newer version change no record that an older version reads. |
| FatNodes.NewestSliceIsLatest | src/fat_node_persistent_segment_tree.cpp:183-185 | A reader at least as new as every stamp reads the latest states. |
| FatNodes.PublishOne | src/fat_node_persistent_segment_tree.cpp:60-91 | After the appends of an update all older versions keep their meaning and the new root has the next tree. |
| FatNodes.RecordConfined | src/fat_node_persistent_segment_tree.cpp:212-230 | A record touches only its own node's interval. |
| FatNodes.RecordStamped | src/fat_node_persistent_segment_tree.cpp:212-230 | Stamps stay strictly increasing and no node exceeds three states. |
| FatNodes.ElsewhereUndisturbed | src/fat_node_persistent_segment_tree.cpp:286-294 | The left and right halves of the latest tree are disjoint: writing in one leaves the other's trees where they were. |
| FatNodes.ArenaIsThirds | include/valseg/fat_node_persistent_segment_tree.hpp:56-61 | The latest node of v holds m_v mod 3 states beyond its creation, and the overflows so far add up to the sum of floor(m_v / 3), with m_v counted from the log. |
| Visits.WholeThirds | include/valseg/fat_node_persistent_segment_tree.hpp:56-61 | When every nonzero update is of the whole array it visits the root alone, and the sums of thirds are a third of their number. |
| FatNodes.OverflowsWithinReservation | src/fat_node_persistent_segment_tree.cpp:193-210 | One update never appends more than the 4(h + 1) nodes reserved before it. |
| BufferedNodes.BufferedPathCopyingSegmentTree.RangeAdd | src/buffered_path_copying_segment_tree.cpp:55-93 | Publishes one version, or undoes every append it made: the nodes, roots and bound are what they were. It appends exactly one node for every visited node whose visited part of the subtree holds a buffer with two entries, at most F. A valid request is refused exactly when the guard or a delta on the way refuses, or memory runs out. A zero delta shares the latest root and writes nothing. In every case the older versions read the same records. |
| BufferedNodes.BufferedPathCopyingSegmentTree.RangeSum | src/buffered_path_copying_segment_tree.cpp:95-103 | On any published version an answer is the sum over that version's array; it fails exactly when the checked query of that version's tree does. |
| BufferedNodes.BufferedPathCopyingSegmentTree.RollBack | src/buffered_path_copying_segment_tree.cpp:79-88 | Popping every recorded entry and dropping the copies restores the arena the update started from. |
| BufferedNodes.BufferedPathCopyingSegmentTree.Apply | src/buffered_path_copying_segment_tree.cpp:70-88 | A failure at any point of the update, or of the append of its root, leaves the arena as it was; it fails only for lack of memory, and exactly when a delta or a new sum is not representable. |
| BufferedNodes.BufferedPathCopyingSegmentTree.Update | src/buffered_path_copying_segment_tree.cpp:216-264 | At the new version the returned index denotes the updated tree, and is a new one exactly when a visited node of the subtree was full; the buffers hold what the simulation says; only nodes inside the interval gained entries; at every point the appends so far can be undone. |
| BufferedNodes.BufferedPathCopyingSegmentTree.NodeCount | src/buffered_path_copying_segment_tree.cpp:119-121 | After any run: 2n - 1 plus the copies that the simulation of the buffers makes, which are at least the sum over the canonical nodes v of floor(m_v / 3) and at most the sum of floor(m_w / 3) over all pairs of a node and a node w below it, itself included, m counted from the log alone; with U nonzero updates, all of the whole array, 2n - 1 + floor(U / 3). |
| BufferedNodes.CopiesOfEach | src/buffered_path_copying_segment_tree.cpp:187-263 | Over every run each canonical node v was copied at least floor(m_v / 3) times and at most the sum of floor(m_w / 3) over the nodes w below it, itself included; a leaf exactly floor(m_v / 3) times. |
| BufferedNodes.RunIsBalanced | src/buffered_path_copying_segment_tree.cpp:187-263 | What the buffers, copies and visits of every node have to do with each other after any run: a copy spends at most three visits, and every copy was one of a child or spent three. |
| BufferedNodes.CopiesBound | src/buffered_path_copying_segment_tree.cpp:216-264 | One update copies no more nodes than it visits. |
| BufferedNodes.BufferedPathCopyingSegmentTree.Modify | src/buffered_path_copying_segment_tree.cpp:187-208 | The delta goes into the same node while it holds fewer than two entries, and into a flushed copy otherwise. |
| BufferedNodes.BufferedPathCopyingSegmentTree.Finish | src/buffered_path_copying_segment_tree.cpp:252-263 | A node is copied exactly when a child's index changed or it holds two entries. |
| BufferedNodes.BufferedPathCopyingSegmentTree.Delta | src/buffered_path_copying_segment_tree.cpp:244-250 | The delta of the overlap, exactly when it is representable. |
| BufferedNodes.BufferedPathCopyingSegmentTree.Initialize | src/buffered_path_copying_segment_tree.cpp:30-47 | Accepts exactly the arrays whose canonical sums are representable, unless memory runs out; otherwise nothing changes. |
| BufferedNodes.SnapshotAt | src/buffered_path_copying_segment_tree.cpp:167-179 | The loop folds exactly the entries visible at the version, and none of its additions can fail. |
| BufferedNodes.SnapshotsFit | src/buffered_path_copying_segment_tree.cpp:167-179 | No reader of a reachable node meets an unrepresentable snapshot, at any version. |
| BufferedNodes.OlderSlicesGrow | src/buffered_path_copying_segment_tree.cpp:187-208 | Entries tagged with a newer version and new nodes change no record that an older version reads. |
| BufferedNodes.UndoneIsStart | src/buffered_path_copying_segment_tree.cpp:79-88 | Once every recorded entry was popped, the nodes that existed before are what they were. |
| SharedNodes.PersistentLazyTree.Query | bench/external/thealgorithms_persistent_lazy.hpp:233-240 | The query rewrites nodes shared by many versions; its answer is that version's exact sum (and, for a version of another length asked for everything, the sum of all of it, which for a longer one is right if and only if the elements beyond add up to zero), and every version's array, read from the nodes, is what it was; it creates at most the copies under what was pending on its way. |
| SharedNodes.PersistentLazyTree.Update | bench/external/thealgorithms_persistent_lazy.hpp:211-220 | One more version with the range added to the latest array; it creates at least the F(n, l, r) nodes of its path and at most those with the copies of everything pending on its way; every published version's array, read from the nodes, is what it was. |
| SharedNodes.PersistentLazyTree.Construct | bench/external/thealgorithms_persistent_lazy.hpp:189-200 | One more version over these elements, for 2n - 1 nodes; every node still stands for what it stood for; the tree stays valid if and only if the length is the one it had. |
| SharedNodes.AnotherLength | bench/external/thealgorithms_persistent_lazy.hpp:189-240 | After constructing over [1, 2] and then over [5], the sum of element 0 of version zero is answered with 3 instead of 1. |
| SharedNodes.PersistentLazyTree.Lazy | bench/external/thealgorithms_persistent_lazy.hpp:73-86 | Materializing a shared node keeps what every node stands for, leaves nothing pending on it, and changes a node without a pending value not at all; it creates two copies exactly for a pending value above a leaf. |
| SharedNodes.PersistentLazyTree.UpdateNode | bench/external/thealgorithms_persistent_lazy.hpp:126-147 | The recursive update returns a node that stands for its elements with the range added, and keeps what all other nodes stand for. |
| SharedNodes.PersistentLazyTree.QueryNode | bench/external/thealgorithms_persistent_lazy.hpp:163-175 | The recursive query returns the sum of the elements in the range, and keeps what all nodes stand for. |
| SharedNodes.DenotedIsElems | bench/external/thealgorithms_persistent_lazy.hpp:73-86 | The array read off a node's fields alone is what the node was created to stand for. |
| SharedNodes.Materialized | bench/external/thealgorithms_persistent_lazy.hpp:73-86 | Moving the pending value into the node and onto copies of the children leaves its elements. |

## Left out

- FullCopyPersistentSegmentTree: no sharing and no tags, so its proofs would be easier members of the same family.
- The benchmark driver, clocks, process memory, allocation counters, CSV output and command line, workload and trace generation, and the Python analysis: input, output, floating point and platform calls.
- The stream fingerprint and its text: it promises nothing beyond determinism.
- Exception types, their messages and the order in which several violations are reported: every failure of one operation is one result.
- Constructors that only forward to `initialize`, accessors (`versionCount`, `size`, `checkpointCount`), copying and moving.
- Byte layouts and the amount of slack a vector keeps: only the fat-node tree's two capacities, which its reservations are about, are modelled.
- Overflow of `std::size_t` in arena indices, slot counts and the counts of one range: these are unbounded naturals, as in docs/proof.md section 10.1; the totals of `frontierSum` and `structuralCounts` and the triangular number are checked.
- Values and indices of the vendored tree that exceed `int64_t` or `uint32_t`: it performs unchecked arithmetic, the model is over the integers.
- The entries of a node's buffer or history beyond their count, which the source leaves in place and never reads: the model keeps only the counted ones.
- The C++ arenas, heaps and root lists are vectors; the model holds each as a field of type `seq` that the methods reassign. Only the vendored tree, whose nodes are shared heap objects, is modelled with objects.
- The policies' laws are stated for valid aggregates of a given length and valid actions, not for the aggregates reachable from one array; `Histories.BoundaryTheorem` therefore quantifies over all valid arrays.
- The check of `allRangesCounter` and `fixedWidthCounter` that an interval lies inside the array: the traversal asks for no other.
- Running out of memory for the stack of `frontierSum`, the tags of `PushCountingModel` and the nodes of the vendored tree: these are taken to have memory enough.
- The edge-tag counterexample of docs/proof.md section 10.6: it is a test-local structure outside the library.
- Asymptotic and wall-clock costs: only exact node, visit and replay counts are stated.
- PushedTrees.PushedLazyTree.RangeApply: after an operation that is not representable the source leaves a half-pushed heap and its documentation promises nothing; the model does not describe that state. The same holds for a failed `RangeAggregate`.
- PushCounting.PushCountingModel.Apply: the same holds for the tags after a composition that is not representable.
- SharedNodes.PersistentLazyTree.Query: of a version with another length than the latest only the query of everything is modelled; on the other ranges the recursion of the source meets children it does not expect, or none.
- The binary search of the standard library with which `stateAt` finds the last visible stamp among at most three: the model takes the last visible stamp from the end.
