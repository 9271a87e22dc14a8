/** The concrete trees of the test suite and what it asserts about them. */
module Scenarios {
  import opened Monoids
  import opened MinMonoids
  import opened FringeTree
  import opened FringeSequence

  /** branch(branch(leaf(1), leaf(2)), leaf(3)). */
  function T123(): (t: Tree<int, int>)
    ensures WellTagged(Counting(), t) && Flatten(t) == [1, 2, 3]
  {
    MakeBranch(Counting(), MakeBranch(Counting(), MakeLeaf(Counting(), 1), MakeLeaf(Counting(), 2)), MakeLeaf(Counting(), 3))
  }

  /** branch(branch(empty(), leaf(1)), branch(leaf(2), empty())). */
  function T12WithEmpties(): (t: Tree<int, int>)
    ensures WellTagged(Counting(), t) && Flatten(t) == [1, 2]
  {
    MakeBranch(Counting(), MakeBranch(Counting(), MakeEmpty(Counting<int>()), MakeLeaf(Counting(), 1)),
                    MakeBranch(Counting(), MakeLeaf(Counting(), 2), MakeEmpty(Counting<int>())))
  }

  lemma BreadthDepthScenarios()
    ensures Breadth(T123()) == 3 && Depth(T123()) == 3
    ensures Breadth(T12WithEmpties()) == 2 && Depth(T12WithEmpties()) == 3
    ensures Breadth(MakeEmpty(Counting<int>())) == 0 && Depth(MakeEmpty(Counting<int>())) == 0
    ensures Tag(Counting(), MakeBranch(Counting(), MakeLeaf(Counting(), 1), MakeLeaf(Counting(), 2))) == 2
  {
  }

  lemma EditScenarios()
    ensures Flatten(Prepend(Counting(), 0, T123())) == [0, 1, 2, 3]
    ensures Flatten(Prepend(Counting(), 0, T12WithEmpties())) == [0, 1, 2]
    ensures Flatten(Prepend(Counting(), 0, MakeLeaf(Counting(), 1))) == [0, 1]
    ensures Flatten(Append(Counting(), 0, T123())) == [1, 2, 3, 0]
    ensures Flatten(Append(Counting(), 0, T12WithEmpties())) == [1, 2, 0]
    ensures Flatten(Prepend(Counting(), 0, MakeEmpty(Counting<int>()))) == [0]
    ensures Flatten(Append(Counting(), 0, MakeEmpty(Counting<int>()))) == [0]
    ensures Flatten(Append(Counting(), 0, MakeLeaf(Counting(), 1))) == [1, 0]
    ensures Flatten(Concat(Counting(), T123(), T123())) == [1, 2, 3, 1, 2, 3]
  {
  }

  lemma ViewScenarios()
    ensures ViewL(Counting(), T123()).Cons? && ViewL(Counting(), T123()).value == 1
    ensures Flatten(ViewL(Counting(), T123()).tree) == [2, 3]
    ensures ViewR(Counting(), T123()).Cons? && ViewR(Counting(), T123()).value == 3
    ensures Flatten(ViewR(Counting(), T123()).tree) == [1, 2]
    ensures ViewL(Counting(), MakeEmpty(Counting<int>())).Nil? && ViewR(Counting(), MakeEmpty(Counting<int>())).Nil?
    ensures ViewL(Counting(), T12WithEmpties()).Cons? && ViewL(Counting(), T12WithEmpties()).value == 1
    ensures ViewR(Counting(), T12WithEmpties()).Cons? && ViewR(Counting(), T12WithEmpties()).value == 2
    ensures ViewL(Counting(), MakeLeaf(Counting(), 7)) == Cons(7, Empty)
    ensures ViewR(Counting(), MakeLeaf(Counting(), 7)) == Cons(7, Empty)
    ensures ViewL(Counting(), ViewL(Counting(), T123()).tree).Cons?
    ensures ViewL(Counting(), ViewL(Counting(), T123()).tree).value == 2
    ensures Flatten(ViewL(Counting(), ViewL(Counting(), T123()).tree).tree) == [3]
  {
  }

  lemma ListOpScenarios()
    ensures Head(Counting(), T123()) == 1 && Last(Counting(), T123()) == 3
    ensures Flatten(Tail(Counting(), T123())) == [2, 3] && Flatten(Init(Counting(), T123())) == [1, 2]
    ensures Head(Counting(), T12WithEmpties()) == 1 && Last(Counting(), T12WithEmpties()) == 2
    ensures Flatten(Tail(Counting(), T12WithEmpties())) == [2] && Flatten(Init(Counting(), T12WithEmpties())) == [1]
    ensures Head(Counting(), MakeLeaf(Counting(), 7)) == 7 && Last(Counting(), MakeLeaf(Counting(), 7)) == 7
    ensures Flatten(Tail(Counting(), MakeLeaf(Counting(), 7))) == [] && Flatten(Init(Counting(), MakeLeaf(Counting(), 7))) == []
    ensures !IsEmpty(Counting(), MakeLeaf(Counting(), 7))
    ensures !IsEmpty(Counting(), T123()) && !IsEmpty(Counting(), T12WithEmpties()) && IsEmpty(Counting(), MakeEmpty(Counting<int>()))
  {
  }

  /** branch(branch(leaf(2), leaf(3)), leaf(1)) measured by minimum. */
  function MinTree231(m: Monoid<Min, Int32>): Tree<Min, Int32> {
    MakeBranch(m, MakeBranch(m, MakeLeaf(m, 2), MakeLeaf(m, 3)), MakeLeaf(m, 1))
  }

  lemma MeasureScenarios()
    ensures Counting<int>().measure(0) == 1 && Counting<int>().measure(1) == 1
    ensures Measure(Counting(), MakeLeaf(Counting(), 1)) == 1
    ensures Measure(Counting(), MakeLeaf(Counting(), 2)) == 1
    ensures Measure(Counting(), MakeLeaf(Counting(), 3)) == 1
    ensures Measure(Counting(), T123().left) == 2
    ensures Measure(Counting(), T123()) == 3
    ensures Measure(MinMonoid(), MakeLeaf(MinMonoid(), 1)).value == 1
    ensures Measure(MinMonoid(), MakeLeaf(MinMonoid(), 2)).value == 2
    ensures Measure(MinMonoid(), MakeLeaf(MinMonoid(), 3)).value == 3
    ensures Measure(MinMonoid(), MinTree231(MinMonoid())).value == 1
    ensures Measure(MinMonoid(), MinTree231(MinMonoid()).left).value == 2
    ensures Measure(MinMonoidFixed(), MinTree231(MinMonoidFixed())).value == 1
  {
  }
}
