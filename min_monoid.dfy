/** The minimum monoid of the test suite: Min<int>, MinMonoid and MeasuredMin,
    over 32-bit int values. */
module MinMonoids {
  import opened Monoids

  /** The values of a C++ int. */
  type Int32 = x: int | -0x8000_0000 <= x <= 0x7fff_ffff

  /** numeric_limits<int>::min() and numeric_limits<int>::max(). */
  const IntMin: Int32 := -0x8000_0000
  const IntMax: Int32 := 0x7fff_ffff

  /** Min<int>: a wrapped int, compared by its value. */
  datatype Min = Min(value: Int32)

  /** Min::min(), which is also what the default constructor Min() holds. */
  function MinDefault(): (r: Min)
    ensures forall x: Min :: r == x || Less(r, x)
  {
    Min(IntMin)
  }

  /** operator< of Min. */
  predicate Less(a: Min, b: Min): (r: bool)
    ensures r ==> a != b
    ensures r || a == b || b.value < a.value
  {
    a.value < b.value
  }

  /** operator< is a strict total order on Min values: irreflexive,
      asymmetric, transitive, and any two different values are comparable. */
  lemma LessIsStrictTotalOrder(a: Min, b: Min, c: Min)
    ensures !Less(a, a)
    ensures Less(a, b) ==> !Less(b, a)
    ensures Less(a, b) && Less(b, c) ==> Less(a, c)
    ensures Less(a, b) || a == b || Less(b, a)
  {
  }

  /** MinMonoid::op: the smaller operand (the second one on a tie). */
  function MinOp(s1: Min, s2: Min): (r: Min)
    ensures r == s1 || r == s2
    ensures r.value <= s1.value && r.value <= s2.value
  {
    if Less(s1, s2) then s1 else s2
  }

  /** MeasuredMin::measure: a value is its own measure. */
  function MeasuredMin(a: Int32): (r: Min)
    ensures r.value == a
  {
    Min(a)
  }

  /** The registered minimum monoid. Its identity() is Min::min(), the
      same value Min() holds, and it absorbs every operand of op instead of
      leaving it unchanged. */
  function MinMonoid(): (m: Monoid<Min, Int32>)
    ensures m.identity == MinDefault()
    ensures forall x: Min :: m.op(m.identity, x) == m.identity && m.op(x, m.identity) == m.identity
  {
    Monoid(MinDefault(), MinOp, MeasuredMin)
  }

  /** Hence the registered identity is not a unit, and the monoid laws fail. */
  lemma MinIdentityIsNotUnit()
    ensures !IsUnit(MinMonoid(), MinMonoid().identity)
    ensures !Lawful(MinMonoid())
  {
    assert MinMonoid().op(MinMonoid().identity, Min(0)) != Min(0);
  }

  lemma MinOpIsAssociative()
    ensures Associative(MinMonoid())
  {
  }

  /** The minimum monoid with the largest int as identity, a two-sided unit
      of op; everything else is unchanged. */
  function MinMonoidFixed(): Monoid<Min, Int32> {
    Monoid(Min(IntMax), MinOp, MeasuredMin)
  }

  lemma FixedMinIsLawful()
    ensures Lawful(MinMonoidFixed())
  {
  }

  /** The corrected identity is not Min(), so the test that compares Min()
      with identity() would have to change with it. */
  lemma FixedIdentityIsNotDefault()
    ensures MinMonoidFixed().identity != MinDefault()
    ensures Less(MinDefault(), MinMonoidFixed().identity)
  {
  }

  /** Changing identity() alone is not enough: a tree node that still reports
      Min(), that is Min::min(), as its tag absorbs every operand of op under
      the fixed monoid too. */
  lemma DefaultTagAbsorbsUnderFixedMin(x: Min)
    ensures MinMonoidFixed().op(MinDefault(), x) == MinDefault()
    ensures MinMonoidFixed().op(x, MinDefault()) == MinDefault()
  {
  }
}
