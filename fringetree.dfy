/** The node shapes, tag invariant, factories and read-only traversals of the
    fringe tree (fringetree/fringetree.h). */
module FringeTree {
  import opened Monoids

  /** A tree node. Leaf and Branch store the tag fixed when they are built;
      Empty stores none and reports the monoid's identity. Subtree sharing is
      invisible in a value model. */
  datatype Tree<T, V> =
    | Empty
    | Leaf(tag: T, value: V)
    | Branch(tag: T, left: Tree<T, V>, right: Tree<T, V>)

  /** Tree::tag(): the cached annotation, dispatched over exactly the three
      shapes. */
  function Tag<T, V>(m: Monoid<T, V>, t: Tree<T, V>): (r: T)
    ensures t.Empty? ==> r == m.identity
    ensures !t.Empty? ==> r == t.tag
  {
    match t
    case Empty => m.identity
    case Leaf(tag, _) => tag
    case Branch(tag, _, _) => tag
  }

  /** Every node's cached tag is what the factories would have stored. */
  ghost predicate WellTagged<T, V>(m: Monoid<T, V>, t: Tree<T, V>) {
    match t
    case Empty => true
    case Leaf(tag, v) => tag == m.measure(v)
    case Branch(tag, l, r) =>
      WellTagged(m, l) && WellTagged(m, r) && tag == m.op(Tag(m, l), Tag(m, r))
  }

  /** The fringe: the leaf values from left to right. */
  function Flatten<T, V>(t: Tree<T, V>): (s: seq<V>)
    ensures t.Branch? && t.left.Empty? ==> s == Flatten(t.right)
    ensures t.Branch? && t.right.Empty? ==> s == Flatten(t.left)
  {
    match t
    case Empty => []
    case Leaf(_, v) => [v]
    case Branch(_, l, r) => Flatten(l) + Flatten(r)
  }

  /** Tree::empty(). */
  function MakeEmpty<T, V>(m: Monoid<T, V>): (t: Tree<T, V>)
    ensures WellTagged(m, t) && Flatten(t) == [] && Tag(m, t) == m.identity
  {
    Empty
  }

  /** Tree::leaf(v). */
  function MakeLeaf<T, V>(m: Monoid<T, V>, v: V): (t: Tree<T, V>)
    ensures WellTagged(m, t) && Flatten(t) == [v] && Tag(m, t) == m.measure(v)
  {
    Leaf(m.measure(v), v)
  }

  /** Tree::branch(l, r): the tag is computed once, here. */
  function MakeBranch<T, V>(m: Monoid<T, V>, l: Tree<T, V>, r: Tree<T, V>): (t: Tree<T, V>)
    ensures WellTagged(m, t) <==> WellTagged(m, l) && WellTagged(m, r)
    ensures Flatten(t) == Flatten(l) + Flatten(r)
    ensures Tag(m, t) == m.op(Tag(m, l), Tag(m, r))
  {
    Branch(m.op(Tag(m, l), Tag(m, r)), l, r)
  }

  /** The tree with the same shape and values rebuilt through the factories. */
  function Rebuild<T, V>(m: Monoid<T, V>, t: Tree<T, V>): (r: Tree<T, V>)
    ensures WellTagged(m, r)
    ensures Flatten(r) == Flatten(t)
  {
    match t
    case Empty => MakeEmpty(m)
    case Leaf(_, v) => MakeLeaf(m, v)
    case Branch(_, l, r) => MakeBranch(m, Rebuild(m, l), Rebuild(m, r))
  }

  /** A tree is well tagged exactly when the factories alone could have built
      it. */
  lemma {:induction false} WellTaggedIffFactoryBuilt<T, V>(m: Monoid<T, V>, t: Tree<T, V>)
    ensures WellTagged(m, t) <==> Rebuild(m, t) == t
  {
    match t
    case Empty =>
    case Leaf(_, _) =>
    case Branch(_, l, r) =>
      WellTaggedIffFactoryBuilt(m, l);
      WellTaggedIffFactoryBuilt(m, r);
  }

  /** breadth: the number of leaves, that is, the length of the fringe. */
  function Breadth<T, V>(t: Tree<T, V>): (n: nat)
    ensures n == |Flatten(t)|
  {
    match t
    case Empty => 0
    case Leaf(_, _) => 1
    case Branch(_, l, r) => Breadth(l) + Breadth(r)
  }

  /** depth: the number of nodes on the longest root-to-leaf path; Empty
      counts as 0 and a Branch always adds one level. */
  function Depth<T, V>(t: Tree<T, V>): (d: nat)
    ensures d == 0 <==> t.Empty?
    ensures t.Branch? ==> d > Depth(t.left) && d > Depth(t.right)
  {
    match t
    case Empty => 0
    case Leaf(_, _) => 1
    case Branch(_, l, r) =>
      var leftDepth := Depth(l) + 1;
      var rightDepth := Depth(r) + 1;
      if leftDepth > rightDepth then leftDepth else rightDepth
  }

  function Pow2(n: nat): (p: nat)
    ensures p >= 1
  {
    if n == 0 then 1 else 2 * Pow2(n - 1)
  }

  lemma {:induction false} Pow2Monotone(a: nat, b: nat)
    requires a <= b
    ensures Pow2(a) <= Pow2(b)
  {
    if a < b {
      Pow2Monotone(a, b - 1);
    }
  }

  /** A binary tree of depth d has at most 2^(d-1) leaves. */
  lemma {:induction false} BreadthBoundedByDepth<T, V>(t: Tree<T, V>)
    ensures 2 * Breadth(t) <= Pow2(Depth(t))
  {
    match t
    case Empty =>
    case Leaf(_, _) =>
    case Branch(_, l, r) =>
      BreadthBoundedByDepth(l);
      BreadthBoundedByDepth(r);
      Pow2Monotone(Depth(l), Depth(t) - 1);
      Pow2Monotone(Depth(r), Depth(t) - 1);
  }

  /** Under the counting monoid fringetree/fringetree.h hard-wires, empty() has tag
      0 (int's default), leaf(v) has tag 1 and branch(l, r) sums the
      children's tags. */
  lemma HeaderFactoryTags<V(!new)>(v: V, l: Tree<int, V>, r: Tree<int, V>)
    ensures Tag(Counting(), MakeEmpty(Counting<V>())) == 0
    ensures Tag(Counting(), MakeLeaf(Counting(), v)) == 1
    ensures Tag(Counting(), MakeBranch(Counting(), l, r)) == Tag(Counting(), l) + Tag(Counting(), r)
  {
  }

  /** In every factory-built tree of the counting monoid the cached tag is the
      leaf count. */
  lemma {:induction false} CountingTagIsBreadth<V(!new)>(t: Tree<int, V>)
    requires WellTagged(Counting(), t)
    ensures Tag(Counting(), t) == Breadth(t)
  {
    match t
    case Empty =>
    case Leaf(_, _) =>
    case Branch(_, l, r) =>
      CountingTagIsBreadth(l);
      CountingTagIsBreadth(r);
  }

  /** Leaf<int, int>{}: the default constructor stores tag 0 and value 0,
      so it reports tag 0 although it holds one leaf: tag == breadth holds
      only for factory-built trees. */
  function DefaultLeaf(): (t: Tree<int, int>)
    ensures Tag(Counting(), t) == 0 && Breadth(t) == 1
    ensures !WellTagged(Counting(), t)
  {
    Leaf(0, 0)
  }

  /** Branch<int, int>{}: the default constructor stores tag 0; its null
      children are represented by Empty. */
  function DefaultBranch(): (t: Tree<int, int>)
    ensures t.Branch? && Tag(Counting(), t) == 0
  {
    Branch(0, Empty, Empty)
  }

  /** In a lawful monoid, the cached tag of a factory-built tree is the
      aggregate of its fringe. */
  lemma {:induction false} TagIsReduce<T(!new), V>(m: Monoid<T, V>, t: Tree<T, V>)
    ensures Lawful(m) && WellTagged(m, t) ==> Tag(m, t) == Reduce(m, Flatten(t))
  {
    if Lawful(m) && WellTagged(m, t) {
      match t
      case Empty =>
      case Leaf(_, v) =>
        assert Reduce(m, [v]) == m.op(m.measure(v), m.identity);
      case Branch(_, l, r) =>
        TagIsReduce(m, l);
        TagIsReduce(m, r);
        ReduceAppend(m, Flatten(l), Flatten(r));
    }
  }
}
