/** The Monoid and Measured capabilities a fringe tree is parameterised by.

    The C++ code looks both up in type-indexed registries; here they are one
    explicit record that every tree operation receives. */
module Monoids {

  /** A tag type T with its identity and combining operation (the Monoid
      capability) together with the measure of a leaf value (the Measured
      capability). */
  datatype Monoid<!T, !V> = Monoid(identity: T, op: (T, T) -> T, measure: V -> T)

  ghost predicate Associative<T(!new), V>(m: Monoid<T, V>) {
    forall a, b, c :: m.op(m.op(a, b), c) == m.op(a, m.op(b, c))
  }

  /** e is a two-sided unit of m.op. */
  ghost predicate IsUnit<T(!new), V>(m: Monoid<T, V>, e: T) {
    forall a :: m.op(e, a) == a && m.op(a, e) == a
  }

  /** The monoid laws the tree engine relies on when it reads a cached tag as
      the aggregate of the fringe. */
  ghost predicate Lawful<T(!new), V>(m: Monoid<T, V>) {
    Associative(m) && IsUnit(m, m.identity)
  }

  /** The aggregate of a sequence of values, folded from the right: the
      reference meaning of a tag. */
  function Reduce<T, V>(m: Monoid<T, V>, s: seq<V>): T {
    if |s| == 0 then m.identity else m.op(m.measure(s[0]), Reduce(m, s[1..]))
  }

  /** Under the monoid laws, reducing a concatenation combines the reductions
      of the parts; this is what lets a branch cache op(tag(l), tag(r)). */
  lemma {:induction false} ReduceAppend<T(!new), V>(m: Monoid<T, V>, a: seq<V>, b: seq<V>)
    requires Lawful(m)
    ensures Reduce(m, a + b) == m.op(Reduce(m, a), Reduce(m, b))
  {
    if |a| == 0 {
      assert a + b == b;
    } else {
      assert (a + b)[0] == a[0];
      assert (a + b)[1..] == a[1..] + b;
      ReduceAppend(m, a[1..], b);
    }
  }

  /** The counting monoid fringetree/fringetree.h hard-wires: every value measures 1,
      tags add up, and the identity is int's default value 0. */
  function Counting<V(!new)>(): (m: Monoid<int, V>)
    ensures m.identity == 0
    ensures forall v: V :: m.measure(v) == 1
    ensures Lawful(m)
  {
    Monoid(0, (a: int, b: int) => a + b, (_: V) => 1)
  }

  /** Counting reduces a sequence to its length. */
  lemma {:induction false} CountingReduceIsLength<V(!new)>(s: seq<V>)
    ensures Reduce(Counting<V>(), s) == |s|
  {
    if |s| > 0 {
      CountingReduceIsLength(s[1..]);
    }
  }
}
