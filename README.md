# Fringe tree in Dafny

A model of the fringe tree library. A fringe tree is an immutable binary tree used as a sequence container. It has three node shapes: `Empty`, `Leaf(tag, value)` and `Branch(tag, left, right)`. Each `Leaf` and `Branch` caches a tag that is fixed when the node is built. The tag comes from a monoid: an identity, a combining `op`, and a `measure` of each value. The sequence a tree stands for is its fringe, the leaf values from left to right.

Modules:

- `Monoids` (`monoid.dfy`): the Monoid and Measured capabilities as one explicit record, `Monoid(identity, op, measure)`. It defines the monoid laws and `Reduce`, the aggregate of a sequence, which gives a tag its meaning. It also defines the counting monoid the header hard-wires.
- `MinMonoids` (`min_monoid.dfy`): the test suite's `Min<int>`, `MinMonoid` and `MeasuredMin`, over 32-bit `int` values.
- `FringeTree` (`fringetree.dfy`): what `fringetree/fringetree.h` defines. That is the node shapes, `tag()`, the `empty`/`leaf`/`branch` factories and the tag invariant they establish (`WellTagged`), plus `breadth` and `depth`. It also holds `Flatten`, the fringe, which specifies everything else.
- `FringeSequence` (`sequence.dfy`): the list interface the test suite exercises. That is `prepend`, `append`, `view_l`, `view_r`, `head`, `last`, `tail`, `init`, `is_empty`, `concat` and `measure`. Each operation is stated as an equation on the fringe and is shown to keep the tag invariant.
- `MinTree` (`min_tree.dfy`): what a minimum-measured tree measures.
- `Scenarios` (`scenarios.dfy`): the test suite's concrete trees and the results it asserts for them.

The list operations are known from what the test suite asserts about them (`src/fringetree/fringetree.t.cpp`). Those assertions fix only the fringe, so the tree shapes built here are this model's own choice:

- `prepend` and `append` wrap the whole old tree as one child of a new branch and never rebalance. Depth therefore grows by exactly one per edit.
- A view walks down one spine and reattaches each sibling onto the remainder.
- A view skips a spine child that has no leaves. The trees at `src/fringetree/fringetree.t.cpp:191-198` and `:242-249` have `Empty` children on both spines and still expect the first and last leaf.

Every contract here speaks of the fringe, the tags and the depth, not of the exact shape.

Further choices:

- The minimum monoid keeps the identity the test suite registers, `numeric_limits<int>::min()` (`src/fringetree/fringetree.t.cpp:355-361`). That value is not a unit of `op` (see Findings).
- Depth counts a `Leaf` as 1 (`fringetree/fringetree.h:132-138`), so it is the number of nodes on the longest path, not the number of edges.
- The header's `Empty::tag()` returns a value-initialised `Tag{}` (`fringetree/fringetree.h:54`). The model reports the monoid's identity instead. The two agree for the counting monoid (`0`) and for the registered minimum monoid (`Min()`, which is `Min::min()`). They differ for `MinMonoids.MinMonoidFixed`, the corrected minimum monoid of the Findings: there the model's `Empty` reports the largest int, while `Tag{}` would still be `Min::min()`.

## Model

| member | source | states |
|---|---|---|
| `Monoids.Counting` | fringetree/fringetree.h:76-88 | The counting monoid the header hard-wires (empty tag 0, leaf tag 1, `+` on branches) measures every value as 1, as `measured_concept_map<int, int>` does, and obeys the monoid laws: `+` is associative with 0 as a two-sided unit |
| `MinMonoids.MinDefault` | src/fringetree/fringetree.t.cpp:340-344 | `Min::min()`, also held by `Min()`, is less than or equal to every `Min` value |
| `MinMonoids.Less` | src/fringetree/fringetree.t.cpp:348 | `operator<` never holds between equal values, and when it fails between different values the second is the smaller one |
| `MinMonoids.LessIsStrictTotalOrder` | src/fringetree/fringetree.t.cpp:346-349 | `operator<` is a strict total order on `Min` values: irreflexive, asymmetric, transitive, and of two different values one is less than the other |
| `MinMonoids.MinOp` | src/fringetree/fringetree.t.cpp:359-361 | `op` returns one of its operands, and that operand is no larger than either |
| `MinMonoids.MeasuredMin` | src/fringetree/fringetree.t.cpp:364-367 | A value's measure wraps that value unchanged |
| `MinMonoids.MinMonoid` | src/fringetree/fringetree.t.cpp:351-379 | The registered minimum monoid has `Min::min()` (the value `Min()` holds) as its identity, and that identity absorbs every operand on either side: `op(id, x) == op(x, id) == id` |
| `MinMonoids.MinIdentityIsNotUnit` | src/fringetree/fringetree.t.cpp:381-394 | The registered identity is not a two-sided unit, so the minimum monoid as registered breaks the monoid laws |
| `MinMonoids.MinOpIsAssociative` | src/fringetree/fringetree.t.cpp:359-361 | `op` is associative, so only the identity breaks the laws |
| `MinMonoids.FixedMinIsLawful` | src/fringetree/fringetree.t.cpp:355-357 | With the largest int as identity, the minimum monoid satisfies both monoid laws |
| `MinMonoids.FixedIdentityIsNotDefault` | src/fringetree/fringetree.t.cpp:382-390 | The corrected identity differs from `Min()` and is greater than it, so the test's `ASSERT_EQ(m1, monoid.identity())` holds only for the identity as written |
| `MinMonoids.DefaultTagAbsorbsUnderFixedMin` | src/fringetree/fringetree.t.cpp:340-361 | Under the corrected monoid too, `Min()` (the `Tag{}` an `Empty` node reports in the header) absorbs every operand of `op`, so changing `identity()` alone does not fix the measure |
| `FringeTree.Tag` | fringetree/fringetree.h:65-74 | `tag()` is total over the three shapes with no fallback: `Empty` reports the identity (`Tag{}`, 0 for `int`), `Leaf` and `Branch` the tag stored when they were built |
| `FringeTree.Flatten` | src/fringetree/fringetree.t.cpp:86-107 | The fringe; an `Empty` child of a branch contributes nothing, so the branch's fringe is its other child's |
| `FringeTree.MakeEmpty` | fringetree/fringetree.h:76-78 | `empty()` is well tagged, has an empty fringe and has the identity as its tag |
| `FringeTree.MakeLeaf` | fringetree/fringetree.h:80-82 | `leaf(v)` is well tagged, has fringe `[v]` and has tag `measure(v)` |
| `FringeTree.MakeBranch` | fringetree/fringetree.h:84-88 | `branch(l, r)` is well tagged exactly when both children are. Its fringe is `l`'s fringe followed by `r`'s, and its tag combines the children's tags |
| `FringeTree.Rebuild` | fringetree/fringetree.h:76-88 | Rebuilding any tree through the factories gives a well-tagged tree with the same fringe |
| `FringeTree.WellTaggedIffFactoryBuilt` | fringetree/fringetree.h:76-88 | A tree is well tagged if and only if rebuilding it through the factories gives it back unchanged |
| `FringeTree.Breadth` | fringetree/fringetree.h:103-116 | `breadth` is the length of the fringe |
| `FringeTree.Depth` | fringetree/fringetree.h:124-140 | `depth` is 0 exactly for `Empty`, and a branch is deeper than both of its children |
| `FringeTree.BreadthBoundedByDepth` | fringetree/fringetree.h:103-140 | A tree of depth `d` has at most `2^(d-1)` leaves |
| `FringeTree.HeaderFactoryTags` | fringetree/fringetree.h:76-88 | Under the counting monoid, `empty()` has tag 0, `leaf(v)` has tag 1, and `branch(l, r)` has tag `tag(l) + tag(r)` |
| `FringeTree.CountingTagIsBreadth` | fringetree/fringetree.h:80-116 | In every well-tagged counting tree, the cached tag equals `breadth` |
| `FringeTree.TagIsReduce` | fringetree/fringetree.h:76-88 | Under a lawful monoid, the cached tag of a well-tagged tree is the monoid aggregate of its fringe |
| `FringeTree.DefaultLeaf` | fringetree/fringetree.h:45 | A default-constructed `Leaf` reports tag 0 but holds one leaf, so it is not well tagged: tag == breadth holds only for factory-built trees (asserted at `src/fringetree/fringetree.t.cpp:18-21`) |
| `FringeTree.DefaultBranch` | fringetree/fringetree.h:29 | A default-constructed `Branch` reports tag 0 (asserted at `src/fringetree/fringetree.t.cpp:19-22`) |
| `FringeSequence.Prepend` | src/fringetree/fringetree.t.cpp:109-138 | The fringe of `prepend(v, t)` is `[v]` followed by `t`'s fringe. The tags stay correct, and the depth grows by exactly one |
| `FringeSequence.Append` | src/fringetree/fringetree.t.cpp:140-169 | The fringe of `append(v, t)` is `t`'s fringe followed by `[v]`. The tags stay correct, and the depth grows by exactly one |
| `FringeSequence.ViewL` | src/fringetree/fringetree.t.cpp:171-220 | The left view is Nil exactly when the fringe is empty. Otherwise its value followed by the remainder's fringe is the whole fringe, and the remainder is well tagged. On a `Leaf` the remainder is `Empty` |
| `FringeSequence.ViewR` | src/fringetree/fringetree.t.cpp:222-256 | The mirror of the left view: the remainder's fringe followed by the value is the whole fringe |
| `FringeSequence.Head` | src/fringetree/fringetree.t.cpp:265-285 | `head` is the first element of the fringe |
| `FringeSequence.Last` | src/fringetree/fringetree.t.cpp:266-286 | `last` is the last element of the fringe |
| `FringeSequence.Tail` | src/fringetree/fringetree.t.cpp:268-287 | `tail`'s fringe is the fringe without its first element, and the tags stay correct |
| `FringeSequence.Init` | src/fringetree/fringetree.t.cpp:271-288 | `init`'s fringe is the fringe without its last element, and the tags stay correct |
| `FringeSequence.IsEmpty` | src/fringetree/fringetree.t.cpp:290-293 | `is_empty` holds exactly when the fringe is empty, that is, when `breadth` is 0 |
| `FringeSequence.PrependHeadTail` | src/fringetree/fringetree.t.cpp:258-295 | Prepending `head(t)` to `tail(t)` gives back `t`'s fringe |
| `FringeSequence.ViewLPrepend` | src/fringetree/fringetree.t.cpp:109-220 | The left view of `prepend(v, t)` returns `v`, with a remainder whose fringe is `t`'s |
| `FringeSequence.ViewRAppend` | src/fringetree/fringetree.t.cpp:140-256 | The right view of `append(v, t)` returns `v`, with a remainder whose fringe is `t`'s |
| `FringeSequence.Concat` | src/fringetree/fringetree.t.cpp:297-315 | The fringe of `concat(l, r)` is `l`'s fringe followed by `r`'s. Its tag combines both tags, and the tags stay correct |
| `FringeSequence.ConcatAssociative` | src/fringetree/fringetree.t.cpp:297-315 | Both ways of grouping a concatenation have the same fringe. Under an associative monoid they also have the same measure |
| `FringeSequence.Measure` | src/fringetree/fringetree.t.cpp:317-334 | `measure(t)` reads the cached tag; under a lawful monoid it is the aggregate of the fringe of a well-tagged tree |
| `FringeSequence.CountingMeasureIsBreadth` | src/fringetree/fringetree.t.cpp:317-334 | Under the counting monoid, `measure(t)` is the number of leaves |
| `MinTree.MinMeasureAsWritten` | src/fringetree/fringetree.t.cpp:403-420 | With the registered minimum monoid, a tree with no `Empty` node measures its smallest leaf. Any `Empty` node makes the measure `numeric_limits<int>::min()` |
| `MinTree.EmptyChildMasksMinimum` | src/fringetree/fringetree.t.cpp:355-357 | `branch(empty(), leaf(5))` has fringe `[5]` but measures `numeric_limits<int>::min()` |
| `MinTree.MinMeasureFixed` | src/fringetree/fringetree.t.cpp:403-420 | With the largest int as identity, every well-tagged tree with a leaf measures its smallest leaf, `Empty` children or not |
| `Scenarios.T123` | src/fringetree/fringetree.t.cpp:46-51 | `branch(branch(leaf(1), leaf(2)), leaf(3))` is well tagged and has fringe `[1, 2, 3]` |
| `Scenarios.T12WithEmpties` | src/fringetree/fringetree.t.cpp:59-62 | `branch(branch(empty(), leaf(1)), branch(leaf(2), empty()))` is well tagged and has fringe `[1, 2]` |
| `Scenarios.BreadthDepthScenarios` | src/fringetree/fringetree.t.cpp:35-84 | The asserted breadths (3, 2, 0), depths (3, 3, 0) and tag 2 of a two-leaf branch |
| `Scenarios.EditScenarios` | src/fringetree/fringetree.t.cpp:109-315 | Every fringe the tests assert after `prepend`, `append` and `concat`, including on `empty()` and on a single leaf |
| `Scenarios.ViewScenarios` | src/fringetree/fringetree.t.cpp:171-256 | Every view the tests assert: values and remainders, Nil on `empty()`, value 7 with an `Empty` remainder on `leaf(7)`, and a second left view giving 2 and `[3]` |
| `Scenarios.ListOpScenarios` | src/fringetree/fringetree.t.cpp:258-295 | Every `head`, `last`, `tail`, `init` and `is_empty` result the tests assert, on the three-leaf tree, the tree with `Empty` children, `leaf(7)` and `empty()` |
| `Scenarios.MeasureScenarios` | src/fringetree/fringetree.t.cpp:317-420 | Every measure the tests assert: counting measures 1 per value and leaf, 2 and 3 for the branches; minimum measures 1, 2, 3 per leaf, 2 and 1 for the branches, the last with both the registered and the corrected identity |

## Left out

- Structural sharing through `std::shared_ptr` is not modelled. Trees are immutable values, so sharing cannot be observed.
- The `std::visit` dispatch and the `monoid_concept_map`/`measured_concept_map` registries are not modelled. Their definitions are not part of this model. They are replaced by an explicit `Monoid` record passed to every operation.
- Tag arithmetic uses unbounded integers. A counting tag does not wrap at 32 bits, because no realistic tree has 2^31 leaves. Min values are restricted to the 32-bit range, because the Min identity is a 32-bit limit.
- `FringeSequence.Head`, `FringeSequence.Last`, `FringeSequence.Tail` and `FringeSequence.Init` require at least one leaf. The test suite never calls them on a tree without leaves, so that case is excluded by a precondition and not modelled.
- `FringeTree.DefaultBranch` has `Empty` children, but a default-constructed `Branch` holds null child pointers. Only its tag, which is all the tests read, is faithful.
- `FringeSequence.Prepend`, `FringeSequence.Append`, `FringeSequence.ViewL`, `FringeSequence.ViewR` and `FringeSequence.Concat` are specified only by their fringes, tags and depth. The exact tree shapes are this model's choice; the code that builds them is not part of this model.
- `MinTree.MinMeasureFixed` holds only because the model's `Empty` reports the monoid's identity. The header's `Empty::tag()` returns `Tag{}` (`fringetree/fringetree.h:54`), which for `Min<int>` stays `Min::min()` whatever `identity()` returns, so under the header's `Empty` the corrected identity alone would still give `branch(empty(), leaf(5))` the measure `INT_MIN` (`MinMonoids.DefaultTagAbsorbsUnderFixedMin`).
- The demonstration programs `main/main.cpp` and `src/examples/main.cpp` are not modelled. They only print trees as Graphviz text. The smoke test `fringetree/fringetree.t.cpp` is also not modelled, because it asserts nothing.

## Findings

| source | as written | input that shows it | evidently intended | confidence | as-written member | corrected member |
|---|---|---|---|---|---|---|
| src/fringetree/fringetree.t.cpp:355-357 | `MinMonoid::identity()` returns `numeric_limits<int>::min()`. That value absorbs every operand of `op`, so it is not an identity. An `Empty` subtree then forces the measure of every enclosing tree to `INT_MIN` | `measure(branch(empty(), leaf(5)))` on a `Tree<Min<int>, int>` is `INT_MIN`, although the tree's only leaf is 5 | Registering `MinMonoid` as a `monoid::Monoid` (`src/fringetree/fringetree.t.cpp:373-379`) implies the unit law, which `MinMonoids.MinIdentityIsNotUnit` proves fails. The tests do not ask for the fix: they assert the identity as written. The intended identity is `numeric_limits<int>::max()`, a two-sided unit for `op`, with `Empty::tag()` reporting `identity()` rather than `Tag{}` (which stays `Min::min()`). Then the measure is the smallest leaf whatever the `Empty` nodes. This correction also changes the assertion `ASSERT_EQ(m1, monoid.identity())` at `src/fringetree/fringetree.t.cpp:390`, where `m1` is `Min()`, that is `INT_MIN` (`MinMonoids.FixedIdentityIsNotDefault`). Changing `Min::min()` instead would break the assertion `m1 < m2` at `src/fringetree/fringetree.t.cpp:386` | medium; not executed (the tests assert the absorbing behaviour of `Min()` but never measure a tree with an `Empty` node) | `MinTree.EmptyChildMasksMinimum` | `MinTree.MinMeasureFixed` |
