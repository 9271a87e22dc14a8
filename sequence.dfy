/** The list operations of the fringe tree: edits at either end, views,
    head/last/tail/init, concatenation and measure. Each is stated as an
    equation on the fringe, which is all the test suite pins down; the tree
    shapes built here are one choice among many with the same fringe. */
module FringeSequence {
  import opened Monoids
  import opened FringeTree

  /** The result of taking a tree apart at one end: Nil for a tree without
      leaves, otherwise the end value and a tree holding the rest. */
  datatype View<T, V> = Nil | Cons(value: V, tree: Tree<T, V>)

  /** prepend(v, t): a new leaf in front; the whole old tree becomes the right
      child, without rebalancing. */
  function Prepend<T, V>(m: Monoid<T, V>, v: V, t: Tree<T, V>): (r: Tree<T, V>)
    ensures Flatten(r) == [v] + Flatten(t)
    ensures WellTagged(m, t) ==> WellTagged(m, r)
    ensures Depth(r) == Depth(t) + 1
  {
    match t
    case Empty => MakeLeaf(m, v)
    case _ => MakeBranch(m, MakeLeaf(m, v), t)
  }

  /** append(v, t): the mirror image of prepend. */
  function Append<T, V>(m: Monoid<T, V>, v: V, t: Tree<T, V>): (r: Tree<T, V>)
    ensures Flatten(r) == Flatten(t) + [v]
    ensures WellTagged(m, t) ==> WellTagged(m, r)
    ensures Depth(r) == Depth(t) + 1
  {
    match t
    case Empty => MakeLeaf(m, v)
    case _ => MakeBranch(m, t, MakeLeaf(m, v))
  }

  /** view_l(t): descends the left spine and reattaches each right sibling
      onto the remainder; a left child without leaves is skipped. */
  function ViewL<T, V>(m: Monoid<T, V>, t: Tree<T, V>): (w: View<T, V>)
    ensures w.Nil? <==> Flatten(t) == []
    ensures w.Cons? ==> Flatten(t) == [w.value] + Flatten(w.tree)
    ensures w.Cons? && WellTagged(m, t) ==> WellTagged(m, w.tree)
    ensures t.Leaf? ==> w.Cons? && w.tree.Empty?
  {
    match t
    case Empty => Nil
    case Leaf(_, v) => Cons(v, MakeEmpty(m))
    case Branch(_, l, r) =>
      match ViewL(m, l)
      case Nil => ViewL(m, r)
      case Cons(x, rest) => Cons(x, MakeBranch(m, rest, r))
  }

  /** view_r(t): the mirror image of view_l, down the right spine. */
  function ViewR<T, V>(m: Monoid<T, V>, t: Tree<T, V>): (w: View<T, V>)
    ensures w.Nil? <==> Flatten(t) == []
    ensures w.Cons? ==> Flatten(t) == Flatten(w.tree) + [w.value]
    ensures w.Cons? && WellTagged(m, t) ==> WellTagged(m, w.tree)
    ensures t.Leaf? ==> w.Cons? && w.tree.Empty?
  {
    match t
    case Empty => Nil
    case Leaf(_, v) => Cons(v, MakeEmpty(m))
    case Branch(_, l, r) =>
      match ViewR(m, r)
      case Nil => ViewR(m, l)
      case Cons(x, rest) => Cons(x, MakeBranch(m, l, rest))
  }

  /** head(t): the first value of the fringe. */
  function Head<T, V>(m: Monoid<T, V>, t: Tree<T, V>): (x: V)
    requires Breadth(t) > 0
    ensures x == Flatten(t)[0]
  {
    ViewL(m, t).value
  }

  /** last(t): the last value of the fringe. */
  function Last<T, V>(m: Monoid<T, V>, t: Tree<T, V>): (x: V)
    requires Breadth(t) > 0
    ensures x == Flatten(t)[|Flatten(t)| - 1]
  {
    ViewR(m, t).value
  }

  /** tail(t): everything but the first value. */
  function Tail<T, V>(m: Monoid<T, V>, t: Tree<T, V>): (r: Tree<T, V>)
    requires Breadth(t) > 0
    ensures Flatten(r) == Flatten(t)[1..]
    ensures WellTagged(m, t) ==> WellTagged(m, r)
  {
    ViewL(m, t).tree
  }

  /** init(t): everything but the last value. */
  function Init<T, V>(m: Monoid<T, V>, t: Tree<T, V>): (r: Tree<T, V>)
    requires Breadth(t) > 0
    ensures Flatten(r) == Flatten(t)[..|Flatten(t)| - 1]
    ensures WellTagged(m, t) ==> WellTagged(m, r)
  {
    ViewR(m, t).tree
  }

  /** is_empty(t): the left view is Nil. */
  function IsEmpty<T, V>(m: Monoid<T, V>, t: Tree<T, V>): (b: bool)
    ensures b <==> Flatten(t) == []
    ensures b <==> Breadth(t) == 0
  {
    ViewL(m, t).Nil?
  }

  /** Taking the first value off and putting it back restores the fringe. */
  lemma PrependHeadTail<T, V>(m: Monoid<T, V>, t: Tree<T, V>)
    requires Breadth(t) > 0
    ensures Flatten(Prepend(m, Head(m, t), Tail(m, t))) == Flatten(t)
  {
  }

  /** Viewing a freshly prepended tree gives back the value and the fringe. */
  lemma ViewLPrepend<T, V>(m: Monoid<T, V>, v: V, t: Tree<T, V>)
    ensures ViewL(m, Prepend(m, v, t)).Cons?
    ensures ViewL(m, Prepend(m, v, t)).value == v
    ensures Flatten(ViewL(m, Prepend(m, v, t)).tree) == Flatten(t)
  {
  }

  /** Viewing a freshly appended tree from the right gives back the value
      and the fringe. */
  lemma ViewRAppend<T, V>(m: Monoid<T, V>, v: V, t: Tree<T, V>)
    ensures ViewR(m, Append(m, v, t)).Cons?
    ensures ViewR(m, Append(m, v, t)).value == v
    ensures Flatten(ViewR(m, Append(m, v, t)).tree) == Flatten(t)
  {
  }

  /** concat(l, r): one new branch over both trees, shared as they are. */
  function Concat<T, V>(m: Monoid<T, V>, l: Tree<T, V>, r: Tree<T, V>): (c: Tree<T, V>)
    ensures Flatten(c) == Flatten(l) + Flatten(r)
    ensures WellTagged(m, l) && WellTagged(m, r) ==> WellTagged(m, c)
    ensures Tag(m, c) == m.op(Tag(m, l), Tag(m, r))
  {
    MakeBranch(m, l, r)
  }

  /** Concatenation is associative on the fringe, and on the cached tag when
      the monoid is lawful, although the two trees differ in shape. */
  lemma ConcatAssociative<T(!new), V>(m: Monoid<T, V>, a: Tree<T, V>, b: Tree<T, V>, c: Tree<T, V>)
    ensures Flatten(Concat(m, Concat(m, a, b), c)) == Flatten(Concat(m, a, Concat(m, b, c)))
    ensures Associative(m) ==>
      Tag(m, Concat(m, Concat(m, a, b), c)) == Tag(m, Concat(m, a, Concat(m, b, c)))
  {
  }

  /** measure(t): the cached tag, read without traversing the tree. In a
      lawful monoid it is the aggregate of the fringe. */
  function Measure<T(!new), V>(m: Monoid<T, V>, t: Tree<T, V>): (r: T)
    ensures Lawful(m) && WellTagged(m, t) ==> r == Reduce(m, Flatten(t))
  {
    TagIsReduce(m, t);
    Tag(m, t)
  }

  /** Under the counting monoid the measure of a factory-built tree is its
      number of leaves. */
  lemma {:induction false} CountingMeasureIsBreadth<V(!new)>(t: Tree<int, V>)
    requires WellTagged(Counting(), t)
    ensures Measure(Counting(), t) == Breadth(t)
  {
    CountingReduceIsLength<V>(Flatten(t));
  }
}
