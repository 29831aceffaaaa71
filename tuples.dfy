/** The generic tuples of math/Tuple2.java and math/Tuple3.java: field-wise
    equality, lexicographic comparison and a 32-bit hash. The component
    classes are not part of this model: a component's `equals` is value
    equality, and whether it implements Comparable, its `compareTo` and its
    `hashCode` are supplied as an `Ord` record. */
module Tuples {
  import opened Util

  datatype Tuple2<A, B> = Tuple2(x: A, y: B)

  datatype Tuple3<A, B, C> = Tuple3(x: A, y: B, z: C)

  /** The argument of `equals(Object)`: null, an object of some other class,
      or a tuple of the same arity. */
  datatype Other<T> = Null | Foreign | Of(t: T)

  /** The failed cast to Comparable, rethrown as IllegalArgumentException. */
  datatype CompareError = NotComparable

  /** A component class: whether its objects are Comparable, their
      `compareTo`, and their `hashCode` as a Java int. */
  datatype Ord<!A> = Ord(comparable: A -> bool, compare: (A, A) -> int, hash: A -> bv32)

  function Sign(k: int): int
  {
    if k < 0 then -1 else if k == 0 then 0 else 1
  }

  /** The contract of java.lang.Comparable: every object is comparable,
      compareTo is zero exactly on equal objects, swapping the arguments
      flips the sign, and "less than" is transitive. */
  ghost predicate Consistent<A(!new)>(o: Ord<A>)
  {
    (forall a :: o.comparable(a)) &&
    (forall a, b :: (o.compare(a, b) == 0 <==> a == b) && Sign(o.compare(a, b)) == -Sign(o.compare(b, a))) &&
    (forall a, b, c :: o.compare(a, b) < 0 && o.compare(b, c) < 0 ==> o.compare(a, c) < 0)
  }

  /** java.lang.Integer as a component: compareTo gives -1, 0 or 1, and the
      hash is the value itself as a 32-bit word. */
  function IntOrd(): (o: Ord<int>)
    ensures Consistent(o)
  {
    Ord(_ => true,
        (a: int, b: int) => if a < b then -1 else if a == b then 0 else 1,
        (a: int) => (a % 0x1_0000_0000) as bv32)
  }

  // ---------------------------------------------------------------------
  // Tuple2

  /** equals(other), lines 28-42: false for null and for any object that is
      not a Tuple2, otherwise true exactly when both components are equal. */
  function Equals2<A(==), B(==)>(t: Tuple2<A, B>, other: Other<Tuple2<A, B>>): (r: bool)
    ensures r <==> other == Of(t)
  {
    match other
    case Null => false
    case Foreign => false
    case Of(u) => t.x == u.x && t.y == u.y
  }

  /** compareTo(other), lines 45-56: both of this tuple's components are
      cast to Comparable first, so a non-Comparable one fails even when the
      first comparison alone would decide; otherwise the x comparison when
      it is non-zero, else the y comparison. */
  function Compare2<A, B>(t: Tuple2<A, B>, u: Tuple2<A, B>, ox: Ord<A>, oy: Ord<B>): (r: Result<int, CompareError>)
    ensures r.Failure? <==> !ox.comparable(t.x) || !oy.comparable(t.y)
    ensures r.Success? && ox.compare(t.x, u.x) != 0 ==> r.value == ox.compare(t.x, u.x)
    ensures r.Success? && ox.compare(t.x, u.x) == 0 ==> r.value == oy.compare(t.y, u.y)
  {
    if !ox.comparable(t.x) || !oy.comparable(t.y) then Failure(NotComparable)
    else
      var xs := ox.compare(t.x, u.x);
      if xs != 0 then Success(xs) else Success(oy.compare(t.y, u.y))
  }

  /** With well-behaved components the tuple order is a total order
      consistent with equals: zero exactly on equal tuples, antisymmetric in
      sign, and transitive. */
  lemma Compare2Order<A(!new), B(!new)>(t: Tuple2<A, B>, u: Tuple2<A, B>, v: Tuple2<A, B>, ox: Ord<A>, oy: Ord<B>)
    requires Consistent(ox) && Consistent(oy)
    ensures Compare2(t, u, ox, oy).Success?
    ensures Compare2(t, u, ox, oy).value == 0 <==> t == u
    ensures Sign(Compare2(t, u, ox, oy).value) == -Sign(Compare2(u, t, ox, oy).value)
    ensures Compare2(t, u, ox, oy).value < 0 && Compare2(u, v, ox, oy).value < 0 ==> Compare2(t, v, ox, oy).value < 0
  {
    var tx, ux, vx := t.x, u.x, v.x;
    var ty, uy, vy := t.y, u.y, v.y;
    assert Sign(ox.compare(tx, ux)) == -Sign(ox.compare(ux, tx));
    assert Sign(ox.compare(ux, vx)) == -Sign(ox.compare(vx, ux));
    assert Sign(oy.compare(ty, uy)) == -Sign(oy.compare(uy, ty));
    if ox.compare(tx, ux) < 0 && ox.compare(ux, vx) < 0 {
      assert ox.compare(tx, vx) < 0;
    }
    if oy.compare(ty, uy) < 0 && oy.compare(uy, vy) < 0 {
      assert oy.compare(ty, vy) < 0;
    }
  }

  /** hashCode, line 60: (37 * h(x)) xor h(y) with Java's 32-bit wrap-around.
      The xor with h(y) gives back the scaled hash of x. */
  function Hash2<A, B>(t: Tuple2<A, B>, ox: Ord<A>, oy: Ord<B>): (r: bv32)
    ensures r ^ oy.hash(t.y) == 37 * ox.hash(t.x)
  {
    (37 * ox.hash(t.x)) ^ oy.hash(t.y)
  }

  // ---------------------------------------------------------------------
  // Tuple3

  /** equals(other), lines 32-46: false for null and for any object that is
      not a Tuple3, otherwise true exactly when all three components are
      equal. */
  function Equals3<A(==), B(==), C(==)>(t: Tuple3<A, B, C>, other: Other<Tuple3<A, B, C>>): (r: bool)
    ensures r <==> other == Of(t)
  {
    match other
    case Null => false
    case Foreign => false
    case Of(u) => t.x == u.x && t.y == u.y && t.z == u.z
  }

  /** compareTo(other), lines 49-66: all three components are cast first;
      then x decides if non-zero, else y if non-zero, else z. */
  function Compare3<A, B, C>(t: Tuple3<A, B, C>, u: Tuple3<A, B, C>, ox: Ord<A>, oy: Ord<B>, oz: Ord<C>): (r: Result<int, CompareError>)
    ensures r.Failure? <==> !ox.comparable(t.x) || !oy.comparable(t.y) || !oz.comparable(t.z)
    ensures r.Success? && ox.compare(t.x, u.x) != 0 ==> r.value == ox.compare(t.x, u.x)
    ensures r.Success? && ox.compare(t.x, u.x) == 0 && oy.compare(t.y, u.y) != 0 ==> r.value == oy.compare(t.y, u.y)
    ensures r.Success? && ox.compare(t.x, u.x) == 0 && oy.compare(t.y, u.y) == 0 ==> r.value == oz.compare(t.z, u.z)
  {
    if !ox.comparable(t.x) || !oy.comparable(t.y) || !oz.comparable(t.z) then Failure(NotComparable)
    else
      var xs := ox.compare(t.x, u.x);
      if xs != 0 then Success(xs)
      else
        var ys := oy.compare(t.y, u.y);
        if ys != 0 then Success(ys) else Success(oz.compare(t.z, u.z))
  }

  /** The three-component comparison is the two-component one applied to
      (x, (y, z)): Tuple3's order is Tuple2's order nested. */
  lemma Compare3Nested<A, B, C>(t: Tuple3<A, B, C>, u: Tuple3<A, B, C>, ox: Ord<A>, oy: Ord<B>, oz: Ord<C>)
    requires ox.comparable(t.x) && oy.comparable(t.y) && oz.comparable(t.z)
    ensures Compare3(t, u, ox, oy, oz) ==
      Compare2(Tuple2(t.x, Tuple2(t.y, t.z)), Tuple2(u.x, Tuple2(u.y, u.z)), ox, PairOrd(oy, oz))
  {
    var inner := Compare2(Tuple2(t.y, t.z), Tuple2(u.y, u.z), oy, oz);
    assert inner.Success?;
  }

  /** A Tuple2 used as a component: always Comparable (it implements the
      interface), compared by Compare2, hashed by Hash2. A failed inner
      comparison counts as zero; it is never reached from Compare3Nested. */
  function PairOrd<B, C>(oy: Ord<B>, oz: Ord<C>): Ord<Tuple2<B, C>>
  {
    Ord(_ => true,
        (p: Tuple2<B, C>, q: Tuple2<B, C>) =>
          var r := Compare2(p, q, oy, oz); if r.Success? then r.value else 0,
        (p: Tuple2<B, C>) => Hash2(p, oy, oz))
  }

  /** hashCode, line 70: ((37 * h(x)) xor h(y)) xor h(z), 32-bit. It is the
      Tuple2 hash of (x, y) xored with h(z). */
  function Hash3<A, B, C>(t: Tuple3<A, B, C>, ox: Ord<A>, oy: Ord<B>, oz: Ord<C>): (r: bv32)
    ensures r ^ oz.hash(t.z) ^ oy.hash(t.y) == 37 * ox.hash(t.x)
  {
    ((37 * ox.hash(t.x)) ^ oy.hash(t.y)) ^ oz.hash(t.z)
  }
}
