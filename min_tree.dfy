/** Fringe trees measured by the minimum monoid, Tree<Min<int>, int>. */
module MinTree {
  import opened MinMonoids
  import opened FringeTree
  import opened FringeSequence

  /** x is the smallest value of s. */
  predicate IsLeast(x: Int32, s: seq<Int32>) {
    x in s && forall i | 0 <= i < |s| :: x <= s[i]
  }

  /** Some node of t, the root included, is Empty. */
  predicate HasEmpty<T, V>(t: Tree<T, V>) {
    match t
    case Empty => true
    case Leaf(_, _) => false
    case Branch(_, l, r) => HasEmpty(l) || HasEmpty(r)
  }

  lemma {:induction false} NoEmptyHasLeaves<T, V>(t: Tree<T, V>)
    requires !HasEmpty(t)
    ensures Breadth(t) > 0
  {
    if t.Branch? {
      NoEmptyHasLeaves(t.left);
    }
  }

  /** With the registered monoid, a tree without Empty nodes measures its
      smallest leaf, and any Empty node drags the measure down to Min::min(),
      whatever the leaves are. */
  lemma {:induction false} MinMeasureAsWritten(t: Tree<Min, Int32>)
    requires WellTagged(MinMonoid(), t)
    ensures HasEmpty(t) ==> Measure(MinMonoid(), t) == Min(IntMin)
    ensures !HasEmpty(t) ==> Breadth(t) > 0 && IsLeast(Measure(MinMonoid(), t).value, Flatten(t))
  {
    match t
    case Empty =>
    case Leaf(_, _) =>
    case Branch(_, l, r) =>
      MinMeasureAsWritten(l);
      MinMeasureAsWritten(r);
      if !HasEmpty(t) {
        NoEmptyHasLeaves(t);
        var a, b := Flatten(l), Flatten(r);
        assert Flatten(t) == a + b;
        forall i | 0 <= i < |a + b|
          ensures Measure(MinMonoid(), t).value <= (a + b)[i]
        {
          if i >= |a| {
            assert (a + b)[i] == b[i - |a|];
          }
        }
      }
  }

  /** The input that shows it: branch(empty(), leaf(5)) measures
      numeric_limits<int>::min() although its only leaf is 5. */
  lemma EmptyChildMasksMinimum()
    ensures Flatten(MakeBranch(MinMonoid(), MakeEmpty(MinMonoid()), MakeLeaf(MinMonoid(), 5))) == [5]
    ensures Measure(MinMonoid(), MakeBranch(MinMonoid(), MakeEmpty(MinMonoid()), MakeLeaf(MinMonoid(), 5))).value == IntMin
  {
  }

  /** With the largest int as identity, every factory-built tree with a leaf
      measures its smallest leaf, Empty children or not; a tree without
      leaves measures the identity. */
  lemma {:induction false} MinMeasureFixed(t: Tree<Min, Int32>)
    requires WellTagged(MinMonoidFixed(), t)
    ensures Breadth(t) == 0 ==> Measure(MinMonoidFixed(), t) == Min(IntMax)
    ensures Breadth(t) > 0 ==> IsLeast(Measure(MinMonoidFixed(), t).value, Flatten(t))
  {
    match t
    case Empty =>
    case Leaf(_, _) =>
    case Branch(_, l, r) =>
      MinMeasureFixed(l);
      MinMeasureFixed(r);
      var a, b := Flatten(l), Flatten(r);
      assert Flatten(t) == a + b;
      if Breadth(t) > 0 {
        forall i | 0 <= i < |a + b|
          ensures Measure(MinMonoidFixed(), t).value <= (a + b)[i]
        {
          if i >= |a| {
            assert (a + b)[i] == b[i - |a|];
          }
        }
      }
  }
}
