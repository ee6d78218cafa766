/**
 * Intervals of integers described by two bounds.  A bound is a conceptual
 * point between two values: `LeftOf(x)` lies just below `x`, `RightOf(x)`
 * just above it.  Two bounds with nothing between them compare equal, which
 * for integers means `RightOf(3) == LeftOf(4)`.
 *
 * The operations follow the code, match for match.  Their meaning is stated
 * against a reference: every bound denotes a point on the extended integer
 * line (`Key`), and an interval holds exactly the integers `v` with
 * `Key(lower) <= v < Key(upper)` (see `Contains`).
 */
module Intervals {
  import opened Wrappers

  datatype Bound = LeftUnbounded | LeftOf(p: int) | RightOf(p: int) | RightUnbounded

  datatype Interval = Interval(lower: Bound, upper: Bound)

  /** The result of a difference: one interval, or two with the left-most first. */
  datatype MultiInterval = One(only: Interval) | Two(first: Interval, second: Interval)

  // ---------------------------------------------------------------------
  // Reference: bounds as points of the extended integer line
  // ---------------------------------------------------------------------

  datatype Ext = NegInf | Fin(n: int) | PosInf

  predicate ExtLt(x: Ext, y: Ext) {
    match (x, y)
    case (NegInf, NegInf) => false
    case (NegInf, _) => true
    case (Fin(a), Fin(b)) => a < b
    case (Fin(_), PosInf) => true
    case (_, _) => false
  }

  predicate ExtLe(x: Ext, y: Ext) { !ExtLt(y, x) }

  /** `LeftOf(x)` sits at `x`, `RightOf(x)` at `x + 1`: the first value above it. */
  function Key(b: Bound): Ext {
    match b
    case LeftUnbounded => NegInf
    case LeftOf(p) => Fin(p)
    case RightOf(p) => Fin(p + 1)
    case RightUnbounded => PosInf
  }

  // ---------------------------------------------------------------------
  // Bound comparisons, as the code writes them
  // ---------------------------------------------------------------------

  /** For integers no value lies strictly between `a` and `b` when `b - a <= 1`. */
  predicate NothingBetween(a: int, b: int) { b - a <= 1 }

  /** `partial_cmp` on bounds; for integers it never returns None. */
  function Cmp(a: Bound, b: Bound): (r: Ordering)
    ensures r == Less <==> ExtLt(Key(a), Key(b))
    ensures r == Equal <==> Key(a) == Key(b)
  {
    match (a, b)
    case (LeftUnbounded, LeftUnbounded) => Equal
    case (RightUnbounded, RightUnbounded) => Equal
    case (LeftOf(s), LeftOf(o)) => CmpInt(s, o)
    case (RightOf(s), RightOf(o)) => CmpInt(s, o)
    case (LeftOf(s), RightOf(o)) =>
      if s <= o then Less
      else if NothingBetween(o, s) then Equal
      else Greater
    case (RightOf(s), LeftOf(o)) =>
      if s < o then (if NothingBetween(s, o) then Equal else Less)
      else Greater
    case (LeftUnbounded, _) => Less
    case (_, LeftUnbounded) => Greater
    case (_, RightUnbounded) => Less
    case (RightUnbounded, _) => Greater
  }

  /** `PartialEq` on bounds, written separately in the code. */
  predicate BoundEq(a: Bound, b: Bound) {
    match (a, b)
    case (LeftUnbounded, LeftUnbounded) => true
    case (RightUnbounded, RightUnbounded) => true
    case (LeftOf(s), LeftOf(o)) => s == o
    case (RightOf(s), RightOf(o)) => s == o
    case (LeftOf(s), RightOf(o)) => if s <= o then false else NothingBetween(o, s)
    case (RightOf(s), LeftOf(o)) => if s < o then NothingBetween(s, o) else false
    case (_, _) => false
  }

  predicate Lt(a: Bound, b: Bound) { Cmp(a, b) == Less }
  predicate Le(a: Bound, b: Bound) { Cmp(a, b) == Less || Cmp(a, b) == Equal }
  predicate Gt(a: Bound, b: Bound) { Cmp(a, b) == Greater }
  predicate Ge(a: Bound, b: Bound) { Cmp(a, b) == Greater || Cmp(a, b) == Equal }

  /** `min`: the left operand only when it is strictly smaller. */
  function Min(a: Bound, b: Bound): (r: Bound)
    ensures r == a || r == b
    ensures ExtLe(Key(r), Key(a)) && ExtLe(Key(r), Key(b))
  {
    if Lt(a, b) then a else b
  }

  /** `max`: the left operand only when it is strictly greater. */
  function Max(a: Bound, b: Bound): (r: Bound)
    ensures r == a || r == b
    ensures ExtLe(Key(a), Key(r)) && ExtLe(Key(b), Key(r))
  {
    if Gt(a, b) then a else b
  }

  /** True if `v` is to the right of the bound. */
  predicate BoundLeftOf(b: Bound, v: int) {
    match b
    case LeftUnbounded => true
    case LeftOf(p) => p <= v
    case RightOf(p) => p < v
    case RightUnbounded => false
  }

  /** True if `v` is to the left of the bound. */
  predicate BoundRightOf(b: Bound, v: int) {
    match b
    case LeftUnbounded => false
    case LeftOf(p) => v < p
    case RightOf(p) => v <= p
    case RightUnbounded => true
  }

  function BoundValue(b: Bound): (r: Option<int>)
    ensures r.None? <==> b.LeftUnbounded? || b.RightUnbounded?
  {
    match b
    case LeftUnbounded => None
    case RightUnbounded => None
    case LeftOf(p) => Some(p)
    case RightOf(p) => Some(p)
  }

  lemma BoundEqIsCmpEqual(a: Bound, b: Bound)
    ensures BoundEq(a, b) <==> Cmp(a, b) == Equal
    ensures BoundEq(a, b) <==> Key(a) == Key(b)
  {
  }

  lemma BoundSidesMatchKey(b: Bound, v: int)
    ensures BoundLeftOf(b, v) <==> ExtLe(Key(b), Fin(v))
    ensures BoundRightOf(b, v) <==> ExtLt(Fin(v), Key(b))
  {
  }

  // ---------------------------------------------------------------------
  // Constructors and accessors
  // ---------------------------------------------------------------------

  function NewClosedOpen(lo: int, hi: int): (r: Interval)
    ensures forall v :: Contains(r, v) <==> lo <= v < hi
  {
    Interval(LeftOf(lo), LeftOf(hi))
  }

  function NewClosedClosed(lo: int, hi: int): (r: Interval)
    ensures forall v :: Contains(r, v) <==> lo <= v <= hi
  {
    Interval(LeftOf(lo), RightOf(hi))
  }

  function NewOpenOpen(lo: int, hi: int): (r: Interval)
    ensures forall v :: Contains(r, v) <==> lo < v < hi
  {
    Interval(RightOf(lo), LeftOf(hi))
  }

  function NewOpenClosed(lo: int, hi: int): (r: Interval)
    ensures forall v :: Contains(r, v) <==> lo < v <= hi
  {
    Interval(RightOf(lo), RightOf(hi))
  }

  function NewUnboundedClosed(hi: int): (r: Interval)
    ensures forall v :: Contains(r, v) <==> v <= hi
  {
    Interval(LeftUnbounded, RightOf(hi))
  }

  function NewUnboundedOpen(hi: int): (r: Interval)
    ensures forall v :: Contains(r, v) <==> v < hi
  {
    Interval(LeftUnbounded, LeftOf(hi))
  }

  function NewClosedUnbounded(lo: int): (r: Interval)
    ensures forall v :: Contains(r, v) <==> lo <= v
  {
    Interval(LeftOf(lo), RightUnbounded)
  }

  function NewOpenUnbounded(lo: int): (r: Interval)
    ensures forall v :: Contains(r, v) <==> lo < v
  {
    Interval(RightOf(lo), RightUnbounded)
  }

  function DoublyUnbounded(): (r: Interval)
    ensures forall v :: Contains(r, v)
  {
    Interval(LeftUnbounded, RightUnbounded)
  }

  function Empty(): (r: Interval)
    ensures forall v :: !Contains(r, v)
  {
    Interval(RightUnbounded, LeftUnbounded)
  }

  function NewSingle(x: int): (r: Interval)
    ensures forall v :: Contains(r, v) <==> v == x
  {
    NewClosedClosed(x, x)
  }

  function Lower(i: Interval): (r: Option<int>)
    ensures r.None? <==> !i.lower.LeftOf? && !i.lower.RightOf?
  {
    BoundValue(i.lower)
  }

  function Upper(i: Interval): (r: Option<int>)
    ensures r.None? <==> !i.upper.LeftOf? && !i.upper.RightOf?
  {
    BoundValue(i.upper)
  }

  predicate LowerInclusive(i: Interval) { i.lower.LeftOf? }
  predicate LowerUnbounded(i: Interval) { i.lower.LeftUnbounded? }
  predicate UpperInclusive(i: Interval) { i.upper.RightOf? }
  predicate UpperUnbounded(i: Interval) { i.upper.RightUnbounded? }

  // ---------------------------------------------------------------------
  // Queries
  // ---------------------------------------------------------------------

  /** An interval holds exactly the integers between the keys of its bounds. */
  predicate Contains(i: Interval, v: int)
    ensures Contains(i, v) <==> ExtLe(Key(i.lower), Fin(v)) && ExtLt(Fin(v), Key(i.upper))
  {
    BoundLeftOf(i.lower, v) && BoundRightOf(i.upper, v)
  }

  predicate IsEmpty(i: Interval)
    ensures IsEmpty(i) <==> ExtLe(Key(i.upper), Key(i.lower))
  {
    match Cmp(i.upper, i.lower)
    case Equal => true
    case Less => true
    case Greater => false
  }

  predicate ContainsInterval(i: Interval, other: Interval) {
    IsEmpty(other) || (Le(i.lower, other.lower) && Le(other.upper, i.upper))
  }

  predicate Equivalent(a: Interval, b: Interval) {
    if IsEmpty(a) then IsEmpty(b)
    else if IsEmpty(b) then false
    else BoundEq(a.lower, b.lower) && BoundEq(a.upper, b.upper)
  }

  predicate StrictlyLeftOf(i: Interval, x: int) {
    IsEmpty(i) || BoundLeftOf(i.upper, x)
  }

  predicate LeftOfValue(i: Interval, x: int) {
    IsEmpty(i) || Le(i.upper, RightOf(x))
  }

  predicate StrictlyLeftOfInterval(a: Interval, b: Interval) {
    IsEmpty(a) || IsEmpty(b) || Le(a.upper, b.lower)
  }

  predicate StrictlyRightOf(i: Interval, x: int) {
    IsEmpty(i) || BoundRightOf(i.lower, x)
  }

  predicate RightOfValue(i: Interval, x: int) {
    IsEmpty(i) || Ge(i.lower, LeftOf(x))
  }

  predicate IsSingle(i: Interval) {
    match (i.lower, i.upper)
    case (LeftOf(lp), RightOf(rp)) => lp == rp
    case (_, _) => false
  }

  // ---------------------------------------------------------------------
  // Combinations
  // ---------------------------------------------------------------------

  function NewFromTwo(a: Interval, b: Interval): (r: MultiInterval)
    ensures r.Two? ==> !IsEmpty(r.first) && !IsEmpty(r.second)
  {
    if IsEmpty(a) then One(b)
    else if IsEmpty(b) then One(a)
    else Two(a, b)
  }

  function ConvexHull(a: Interval, b: Interval): Interval {
    if IsEmpty(a) then b
    else if IsEmpty(b) then a
    else Interval(Min(a.lower, b.lower), Max(a.upper, b.upper))
  }

  function Difference(a: Interval, b: Interval): MultiInterval {
    if IsEmpty(a) || IsEmpty(b) then One(a)
    else NewFromTwo(Interval(a.lower, Min(b.lower, a.upper)),
                    Interval(Max(b.upper, a.lower), a.upper))
  }

  function SymmetricDifference(a: Interval, b: Interval): MultiInterval {
    if IsEmpty(a) || IsEmpty(b) then NewFromTwo(a, b)
    else NewFromTwo(
      Interval(Min(a.lower, b.lower),
               Min(Max(a.lower, b.lower), Min(a.upper, b.upper))),
      Interval(Max(Min(a.upper, b.upper), Max(a.lower, b.lower)),
               Max(a.upper, b.upper)))
  }

  predicate Intersects(a: Interval, b: Interval) {
    !IsEmpty(a) && !IsEmpty(b) && Lt(a.lower, b.upper) && Lt(b.lower, a.upper)
  }

  function Intersection(a: Interval, b: Interval): Interval {
    Interval(Max(a.lower, b.lower), Min(a.upper, b.upper))
  }

  function Between(a: Interval, b: Interval): Interval {
    if IsEmpty(a) || IsEmpty(b) then Empty()
    else Interval(Min(a.upper, b.upper), Max(a.lower, b.lower))
  }

  predicate Contiguous(a: Interval, b: Interval) {
    if IsEmpty(a) || IsEmpty(b) then true
    else Le(a.lower, b.upper) && Le(b.lower, a.upper)
  }

  function Union(a: Interval, b: Interval): Option<Interval> {
    if Contiguous(a, b) then Some(ConvexHull(a, b)) else None
  }

  /** Membership in a difference result. */
  predicate MultiHolds(m: MultiInterval, v: int) {
    match m
    case One(i) => Contains(i, v)
    case Two(i, j) => Contains(i, v) || Contains(j, v)
  }

  /** The derived `PartialEq` of `MultiInterval`, comparing intervals by `equivalent`. */
  predicate MultiEq(m: MultiInterval, n: MultiInterval) {
    match (m, n)
    case (One(i), One(j)) => Equivalent(i, j)
    case (Two(i1, i2), Two(j1, j2)) => Equivalent(i1, j1) && Equivalent(i2, j2)
    case (_, _) => false
  }

  // ---------------------------------------------------------------------
  // Witnesses: elements of a non-empty interval
  // ---------------------------------------------------------------------

  /** An element at or above `n`, which exists when `n` is below the upper bound. */
  ghost function ElemAtLeast(i: Interval, n: int): (r: int)
    requires !IsEmpty(i) && ExtLt(Fin(n), Key(i.upper))
    ensures Contains(i, r) && n <= r
  {
    if Key(i.lower).Fin? && Key(i.lower).n > n then Key(i.lower).n else n
  }

  /** An element at or below `n`, which exists when the lower bound is at most `n`. */
  ghost function ElemAtMost(i: Interval, n: int): (r: int)
    requires !IsEmpty(i) && ExtLe(Key(i.lower), Fin(n))
    ensures Contains(i, r) && r <= n
  {
    if Key(i.upper).Fin? && Key(i.upper).n - 1 < n then Key(i.upper).n - 1 else n
  }

  /** Some element of a non-empty interval. */
  ghost function Elem(i: Interval): (r: int)
    requires !IsEmpty(i)
    ensures Contains(i, r)
  {
    if Key(i.lower).Fin? then ElemAtLeast(i, Key(i.lower).n) else ElemAtMost(i, 0)
  }

  /** If every element of non-empty `b` is in `a`, the bounds of `a` enclose those of `b`. */
  lemma SubsetBounds(a: Interval, b: Interval)
    requires !IsEmpty(b)
    requires forall v :: Contains(b, v) ==> Contains(a, v)
    ensures ExtLe(Key(a.lower), Key(b.lower)) && ExtLe(Key(b.upper), Key(a.upper))
  {
    if ExtLt(Key(b.lower), Key(a.lower)) {
      var w := if Key(a.lower).Fin? then ElemAtMost(b, Key(a.lower).n - 1) else Elem(b);
      assert false;
    }
    if ExtLt(Key(a.upper), Key(b.upper)) {
      var w := if Key(a.upper).Fin? then ElemAtLeast(b, Key(a.upper).n) else Elem(b);
      assert false;
    }
  }

  // ---------------------------------------------------------------------
  // Properties of the queries
  // ---------------------------------------------------------------------

  /** `is_empty` holds exactly when the interval contains no integer. */
  lemma IsEmptyIffNoElement(i: Interval)
    ensures IsEmpty(i) <==> forall v :: !Contains(i, v)
  {
    if !IsEmpty(i) {
      var w := Elem(i);
      assert Contains(i, w);
    }
  }

  /** `contains_interval` is inclusion of the sets of integers. */
  lemma ContainsIntervalIsInclusion(a: Interval, b: Interval)
    ensures ContainsInterval(a, b) <==> forall v :: Contains(b, v) ==> Contains(a, v)
  {
    IsEmptyIffNoElement(b);
    if !IsEmpty(b) && forall v :: Contains(b, v) ==> Contains(a, v) {
      SubsetBounds(a, b);
    }
  }

  /** Every interval contains the empty one; the empty one contains no non-empty one. */
  lemma EmptyContainment(a: Interval)
    ensures ContainsInterval(a, Empty())
    ensures ContainsInterval(Empty(), a) <==> IsEmpty(a)
  {
    ContainsIntervalIsInclusion(Empty(), a);
    IsEmptyIffNoElement(a);
  }

  /** `equivalent` (and so `==` on intervals) holds exactly when both contain the same integers. */
  lemma EquivalentIsSameElements(a: Interval, b: Interval)
    ensures Equivalent(a, b) <==> forall v :: Contains(a, v) <==> Contains(b, v)
  {
    IsEmptyIffNoElement(a);
    IsEmptyIffNoElement(b);
    if !IsEmpty(a) && !IsEmpty(b) && forall v :: Contains(a, v) <==> Contains(b, v) {
      SubsetBounds(a, b);
      SubsetBounds(b, a);
      BoundEqIsCmpEqual(a.lower, b.lower);
      BoundEqIsCmpEqual(a.upper, b.upper);
    }
  }

  /** `strictly_left_of(x)`: every element is below `x` (vacuously so when empty). */
  lemma StrictlyLeftOfMeaning(i: Interval, x: int)
    ensures StrictlyLeftOf(i, x) <==> forall v :: Contains(i, v) ==> v < x
  {
    BoundSidesMatchKey(i.upper, x);
    if !StrictlyLeftOf(i, x) {
      var w := ElemAtLeast(i, x);
      assert Contains(i, w);
    }
  }

  /** `left_of(x)`: every element is at most `x`. */
  lemma LeftOfValueMeaning(i: Interval, x: int)
    ensures LeftOfValue(i, x) <==> forall v :: Contains(i, v) ==> v <= x
  {
    if !LeftOfValue(i, x) {
      var w := ElemAtLeast(i, x + 1);
      assert Contains(i, w);
    }
  }

  /** `strictly_right_of(x)`: every element is above `x`. */
  lemma StrictlyRightOfMeaning(i: Interval, x: int)
    ensures StrictlyRightOf(i, x) <==> forall v :: Contains(i, v) ==> x < v
  {
    BoundSidesMatchKey(i.lower, x);
    if !StrictlyRightOf(i, x) {
      var w := ElemAtMost(i, x);
      assert Contains(i, w);
    }
  }

  /** `right_of(x)`: every element is at least `x`. */
  lemma RightOfValueMeaning(i: Interval, x: int)
    ensures RightOfValue(i, x) <==> forall v :: Contains(i, v) ==> x <= v
  {
    if !RightOfValue(i, x) {
      var w := ElemAtMost(i, x - 1);
      assert Contains(i, w);
    }
  }

  /** `strictly_left_of_interval`: every element of `a` is below every element of `b`. */
  lemma StrictlyLeftOfIntervalMeaning(a: Interval, b: Interval)
    ensures StrictlyLeftOfInterval(a, b) <==>
            forall v, w :: Contains(a, v) && Contains(b, w) ==> v < w
  {
    if !StrictlyLeftOfInterval(a, b) {
      var n := if Key(b.lower).Fin? then Key(b.lower).n
               else if Key(a.upper).Fin? then Key(a.upper).n - 1
               else 0;
      var w := ElemAtMost(b, n);
      var v := ElemAtLeast(a, w);
      assert Contains(a, v) && Contains(b, w) && !(v < w);
    }
  }

  /** `is_single` recognises the `[A,A]` shape, which contains exactly `A`. */
  lemma IsSingleMeaning(i: Interval)
    ensures IsSingle(i) <==> i.lower.LeftOf? && i.upper == RightOf(i.lower.p)
    ensures IsSingle(i) ==> forall v :: Contains(i, v) <==> v == i.lower.p
  {
  }

  /**
   * An inclusive bound's value is in the (non-empty) interval, the value of
   * a bound that is not inclusive is not, and an unbounded side has no
   * value and no last element on that side.
   */
  lemma BoundKindsMeaning(i: Interval)
    ensures LowerInclusive(i) && !IsEmpty(i) ==> Lower(i).Some? && Contains(i, Lower(i).value)
    ensures UpperInclusive(i) && !IsEmpty(i) ==> Upper(i).Some? && Contains(i, Upper(i).value)
    ensures !LowerInclusive(i) && Lower(i).Some? ==> !Contains(i, Lower(i).value)
    ensures !UpperInclusive(i) && Upper(i).Some? ==> !Contains(i, Upper(i).value)
    ensures LowerUnbounded(i) ==> Lower(i).None? && forall v :: Contains(i, v) ==> Contains(i, v - 1)
    ensures UpperUnbounded(i) ==> Upper(i).None? && forall v :: Contains(i, v) ==> Contains(i, v + 1)
  {
  }

  // ---------------------------------------------------------------------
  // Properties of the combinations
  // ---------------------------------------------------------------------

  /** `new_from_two` keeps the union of its operands and never yields an empty member of `Two`. */
  lemma NewFromTwoMeaning(a: Interval, b: Interval, v: int)
    ensures MultiHolds(NewFromTwo(a, b), v) <==> Contains(a, v) || Contains(b, v)
    ensures NewFromTwo(a, b).Two? ==> !IsEmpty(a) && !IsEmpty(b)
  {
    IsEmptyIffNoElement(a);
    IsEmptyIffNoElement(b);
  }

  /** The convex hull: an empty operand yields the other; otherwise it spans both. */
  lemma ConvexHullMeaning(a: Interval, b: Interval)
    ensures IsEmpty(a) ==> ConvexHull(a, b) == b
    ensures !IsEmpty(a) && IsEmpty(b) ==> ConvexHull(a, b) == a
    ensures ContainsInterval(ConvexHull(a, b), a) && ContainsInterval(ConvexHull(a, b), b)
    ensures !IsEmpty(a) && !IsEmpty(b) ==>
      ConvexHull(a, b) == Interval(Min(a.lower, b.lower), Max(a.upper, b.upper))
  {
  }

  /** No interval with fewer elements contains both operands: the hull's ends are attained. */
  lemma ConvexHullIsSmallest(a: Interval, b: Interval, c: Interval)
    requires ContainsInterval(c, a) && ContainsInterval(c, b)
    ensures ContainsInterval(c, ConvexHull(a, b))
  {
    ContainsIntervalIsInclusion(c, a);
    ContainsIntervalIsInclusion(c, b);
    if !IsEmpty(a) && !IsEmpty(b) {
      SubsetBounds(c, a);
      SubsetBounds(c, b);
    }
  }

  /** `difference` keeps exactly the elements of `a` that are not in `b`. */
  lemma DifferenceMeaning(a: Interval, b: Interval, v: int)
    ensures MultiHolds(Difference(a, b), v) <==> Contains(a, v) && !Contains(b, v)
    ensures IsEmpty(b) ==> Difference(a, b) == One(a)
  {
    IsEmptyIffNoElement(b);
    if !IsEmpty(a) && !IsEmpty(b) {
      NewFromTwoMeaning(Interval(a.lower, Min(b.lower, a.upper)),
                        Interval(Max(b.upper, a.lower), a.upper), v);
    }
  }

  /** When `difference` yields two intervals, the first lies wholly left of the second. */
  lemma DifferenceOrdered(a: Interval, b: Interval)
    ensures Difference(a, b).Two? ==>
            StrictlyLeftOfInterval(Difference(a, b).first, Difference(a, b).second)
  {
  }

  /** `symmetric_difference` keeps the elements in exactly one operand. */
  lemma SymmetricDifferenceMeaning(a: Interval, b: Interval, v: int)
    ensures MultiHolds(SymmetricDifference(a, b), v) <==> (Contains(a, v) != Contains(b, v))
  {
    IsEmptyIffNoElement(a);
    IsEmptyIffNoElement(b);
    if IsEmpty(a) || IsEmpty(b) {
      NewFromTwoMeaning(a, b, v);
    } else {
      NewFromTwoMeaning(
        Interval(Min(a.lower, b.lower),
                 Min(Max(a.lower, b.lower), Min(a.upper, b.upper))),
        Interval(Max(Min(a.upper, b.upper), Max(a.lower, b.lower)),
                 Max(a.upper, b.upper)), v);
    }
  }

  /** When `symmetric_difference` has two parts, the first lies strictly left of the second. */
  lemma SymmetricDifferenceOrdered(a: Interval, b: Interval)
    ensures SymmetricDifference(a, b).Two? ==>
            StrictlyLeftOfInterval(SymmetricDifference(a, b).first, SymmetricDifference(a, b).second)
  {
  }

  /** `intersection` holds exactly the common elements. */
  lemma IntersectionMeaning(a: Interval, b: Interval, v: int)
    ensures Contains(Intersection(a, b), v) <==> Contains(a, v) && Contains(b, v)
  {
  }

  /** `intersects` is false when either operand is empty, and is exactly a non-empty intersection. */
  lemma IntersectsMeaning(a: Interval, b: Interval)
    ensures IsEmpty(a) || IsEmpty(b) ==> !Intersects(a, b)
    ensures Intersects(a, b) <==> !IsEmpty(Intersection(a, b))
    ensures Intersects(a, b) <==> exists v :: Contains(a, v) && Contains(b, v)
  {
    IsEmptyIffNoElement(Intersection(a, b));
    if Intersects(a, b) {
      var w := Elem(Intersection(a, b));
      IntersectionMeaning(a, b, w);
    }
  }

  /** `between` holds the values of the hull that are in neither operand, and is empty if one is empty. */
  lemma BetweenMeaning(a: Interval, b: Interval, v: int)
    ensures IsEmpty(a) || IsEmpty(b) ==> IsEmpty(Between(a, b))
    ensures Contains(Between(a, b), v) <==>
            Contains(ConvexHull(a, b), v) && !Contains(a, v) && !Contains(b, v)
  {
  }

  /** `contiguous` is true if either operand is empty; otherwise no gap separates them. */
  lemma ContiguousMeaning(a: Interval, b: Interval)
    ensures IsEmpty(a) || IsEmpty(b) ==> Contiguous(a, b)
    ensures Contiguous(a, b) <==>
            forall v :: Contains(ConvexHull(a, b), v) ==> Contains(a, v) || Contains(b, v)
  {
    if !Contiguous(a, b) {
      var g := if ExtLt(Key(b.upper), Key(a.lower)) then Key(b.upper).n else Key(a.upper).n;
      assert Contains(ConvexHull(a, b), g) && !Contains(a, g) && !Contains(b, g);
    }
  }

  /** `union` is `Some(convex_hull)` exactly when the operands are contiguous, and then holds both. */
  lemma UnionMeaning(a: Interval, b: Interval)
    ensures Union(a, b).Some? <==> Contiguous(a, b)
    ensures Union(a, b).Some? ==> Union(a, b).value == ConvexHull(a, b)
    ensures Union(a, b).Some? ==>
            forall v :: Contains(Union(a, b).value, v) <==> Contains(a, v) || Contains(b, v)
  {
    ContiguousMeaning(a, b);
    ConvexHullMeaning(a, b);
    ContainsIntervalIsInclusion(ConvexHull(a, b), a);
    ContainsIntervalIsInclusion(ConvexHull(a, b), b);
  }

  // ---------------------------------------------------------------------
  // The worked examples of the unit tests
  // ---------------------------------------------------------------------

  lemma BoundOrderExample()
    ensures Lt(LeftOf(3), RightOf(3)) && !BoundEq(LeftOf(3), RightOf(3))
    ensures BoundEq(RightOf(3), LeftOf(4)) && BoundEq(LeftOf(4), RightOf(3))
  {
  }

  lemma ContainsExample()
    ensures Contains(NewClosedOpen(1, 10), 1) && Contains(NewClosedOpen(1, 10), 9)
    ensures !Contains(NewClosedOpen(1, 10), 10) && !Contains(NewClosedOpen(1, 10), 11)
    ensures ContainsInterval(NewClosedOpen(1, 10), Empty())
    ensures !ContainsInterval(Empty(), NewClosedOpen(1, 10))
    ensures ContainsInterval(NewUnboundedClosed(10), NewClosedOpen(1, 10))
  {
  }

  lemma EmptyExample()
    ensures IsEmpty(Empty()) && IsEmpty(NewClosedOpen(1, 1)) && IsEmpty(NewOpenOpen(1, 1))
    ensures IsEmpty(NewOpenOpen(0, 1)) && IsEmpty(NewOpenOpen(2, 1)) && IsEmpty(NewOpenClosed(1, 1))
    ensures !IsEmpty(NewClosedClosed(1, 1)) && !IsEmpty(NewClosedOpen(1, 10))
  {
  }

  lemma InclusiveExample()
    ensures Lower(NewClosedOpen(1, 10)) == Some(1) && LowerInclusive(NewClosedOpen(1, 10))
    ensures Upper(NewClosedOpen(1, 10)) == Some(10) && !UpperInclusive(NewClosedOpen(1, 10))
    ensures Lower(DoublyUnbounded()) == None && Upper(DoublyUnbounded()) == None
    ensures !LowerInclusive(Empty()) && !UpperInclusive(Empty())
    ensures Lower(NewOpenClosed(3, 3)) == Some(3) && UpperInclusive(NewOpenClosed(3, 3))
  {
  }

  lemma SingleExample()
    ensures IsSingle(NewSingle(4)) && IsSingle(NewClosedClosed(1, 1))
    ensures !IsSingle(NewClosedOpen(1, 4)) && !IsSingle(NewOpenOpen(0, 2))
  {
  }

  lemma EquivalentExample()
    ensures Equivalent(NewClosedOpen(1, 4), NewClosedClosed(1, 3))
    ensures Equivalent(NewClosedOpen(1, 4), NewOpenClosed(0, 3))
    ensures Equivalent(NewClosedOpen(1, 4), NewOpenOpen(0, 4))
    ensures !Equivalent(NewClosedOpen(1, 4), NewClosedClosed(1, 4))
    ensures !Equivalent(NewClosedClosed(1, 3), NewClosedClosed(1, 4))
    ensures Equivalent(NewUnboundedOpen(10), NewUnboundedClosed(9))
  {
  }

  lemma LeftOfExample()
    ensures StrictlyLeftOf(NewClosedOpen(3, 5), 5) && !StrictlyLeftOf(NewClosedOpen(3, 5), 3)
    ensures LeftOfValue(NewClosedClosed(3, 5), 5) && !StrictlyLeftOf(NewClosedClosed(3, 5), 5)
    ensures StrictlyRightOf(NewClosedOpen(3, 5), 2) && !StrictlyRightOf(NewClosedOpen(3, 5), 3)
    ensures RightOfValue(NewClosedOpen(3, 5), 3)
    ensures StrictlyLeftOf(Empty(), 1) && LeftOfValue(Empty(), 1)
    ensures StrictlyRightOf(Empty(), 1) && RightOfValue(Empty(), 1)
    ensures StrictlyLeftOfInterval(NewClosedClosed(1, 3), NewOpenClosed(3, 5))
    ensures !StrictlyLeftOfInterval(NewClosedClosed(1, 3), NewClosedOpen(3, 5))
    ensures StrictlyLeftOfInterval(Empty(), NewClosedOpen(3, 5))
  {
  }

  lemma ConvexHullExample()
    ensures Equivalent(ConvexHull(NewClosedClosed(10, 30), NewClosedClosed(40, 50)),
                       NewClosedClosed(10, 50))
    ensures Equivalent(ConvexHull(NewUnboundedOpen(10), NewOpenOpen(40, 50)),
                       NewUnboundedOpen(50))
  {
  }

  lemma DifferenceExample()
    ensures MultiEq(Difference(NewClosedClosed(1, 50), NewClosedClosed(10, 30)),
                    Two(NewClosedOpen(1, 10), NewOpenClosed(30, 50)))
    ensures MultiEq(Difference(NewClosedClosed(10, 30), NewClosedClosed(1, 15)),
                    One(NewOpenClosed(15, 30)))
    ensures MultiEq(Difference(NewClosedClosed(10, 30), NewClosedClosed(1, 50)), One(Empty()))
  {
  }

  lemma SymmetricDifferenceExample()
    ensures MultiEq(SymmetricDifference(NewClosedClosed(10, 30), NewClosedClosed(25, 40)),
                    Two(NewClosedOpen(10, 25), NewOpenClosed(30, 40)))
    ensures MultiEq(SymmetricDifference(NewClosedClosed(10, 30), NewClosedClosed(1, 5)),
                    Two(NewClosedClosed(1, 5), NewClosedClosed(10, 30)))
  {
  }

  lemma IntersectionExample()
    ensures !Intersects(NewClosedClosed(10, 30), NewClosedOpen(40, 50))
    ensures IsEmpty(Intersection(NewClosedClosed(10, 30), NewClosedOpen(40, 50)))
    ensures Intersects(NewClosedOpen(40, 50), NewOpenUnbounded(35))
    ensures Equivalent(Intersection(NewClosedOpen(40, 50), NewOpenUnbounded(35)),
                       NewClosedOpen(40, 50))
  {
  }

  lemma BetweenExample()
    ensures Equivalent(Between(NewClosedClosed(10, 30), NewClosedClosed(40, 50)), NewOpenOpen(30, 40))
    ensures Equivalent(Between(NewClosedClosed(10, 30), NewOpenUnbounded(35)), NewOpenClosed(30, 35))
    ensures IsEmpty(Between(NewClosedClosed(40, 50), NewOpenUnbounded(35)))
    ensures !Contiguous(NewClosedClosed(10, 30), NewClosedClosed(40, 50))
    ensures Contiguous(NewClosedClosed(40, 50), NewOpenUnbounded(35))
  {
  }
}
