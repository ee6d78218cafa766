/**
 * Amounts that may mix several commodities (`1 EUR + 3 USD`).
 *
 * A `MultiValue` is `Zero`, `One` value, or a `Multi` map from commodity id to
 * amount.  The code keeps it normalized: `One` never holds a zero amount and
 * `Multi` holds at least two entries, none of them zero.  The meaning of a
 * value is its amount in each commodity (`AmountOf`); two normalized values
 * are equal exactly when all their amounts agree (`Extensionality`), so every
 * operation below is specified by what it does to the amounts.
 *
 * Amounts are exact (`real`), as the decimal arithmetic of the code is for
 * the values it handles.  A `MultiValue` is a plain value with exclusive
 * access, so the in-place operators (`+=`, `-=`, `apply`) are methods that
 * return the new value.
 */
module MultiValues {
  import opened Wrappers
  import Commodities

  type CommodityId = Commodities.CommodityId

  /** An amount of one commodity. */
  datatype Value = Value(amount: real, commodity: CommodityId)

  datatype MultiValue = Zero | One(pair: Value) | Multi(m: map<CommodityId, real>)

  /** What a split records about an account; only the quantities matter here. */
  datatype Operation =
    | Credit(value: MultiValue)
    | BuyAmount(qty: Value, amount: Value)
    | BuyPrice(qty: Value, price: Value)
    | AddShares(qty: Value)
    | Reinvest(shares: MultiValue, reinvested: MultiValue)
    | Dividend
    | Split(ratio: real, commodity: CommodityId)

  // ---------------------------------------------------------------------
  // Meaning of a value
  // ---------------------------------------------------------------------

  function Get(m: map<CommodityId, real>, c: CommodityId): real {
    if c in m then m[c] else 0.0
  }

  /** The amount of commodity `c` in `x`. */
  function AmountOf(x: MultiValue, c: CommodityId): real {
    match x
    case Zero => 0.0
    case One(p) => if p.commodity == c then p.amount else 0.0
    case Multi(m) => Get(m, c)
  }

  /** `is_normalized`. */
  predicate IsNormalized(x: MultiValue) {
    match x
    case Zero => true
    case One(p) => p.amount != 0.0
    case Multi(m) => |m| >= 2 && forall c :: c in m ==> m[c] != 0.0
  }

  /** A map with at least two keys has two distinct ones. */
  lemma TwoKeys(m: map<CommodityId, real>) returns (a: CommodityId, b: CommodityId)
    requires |m| >= 2
    ensures a in m && b in m && a != b
  {
    assert |m.Keys| >= 2;
    a :| a in m.Keys;
    assert |m.Keys - {a}| >= 1;
    b :| b in m.Keys - {a};
  }

  /** A map with exactly one key has no other. */
  lemma OneKey(m: map<CommodityId, real>, a: CommodityId)
    requires |m| == 1 && a in m
    ensures m.Keys == {a}
  {
    assert |m.Keys - {a}| == 0;
    assert m.Keys - {a} == {};
  }

  function TheKey(m: map<CommodityId, real>): (c: CommodityId)
    requires |m| == 1
    ensures m.Keys == {c}
  {
    assert exists a :: a in m by { var a, b := TwoKeysOrOne(m); }
    var a :| a in m;
    OneKey(m, a);
    assert forall b :: b in m ==> b == a;
    a
  }

  lemma TwoKeysOrOne(m: map<CommodityId, real>) returns (a: CommodityId, b: CommodityId)
    requires |m| >= 1
    ensures a in m && b in m
  {
    assert |m.Keys| >= 1;
    a :| a in m.Keys;
    b := a;
  }

  /** Normalized values with the same amounts everywhere are the same value. */
  lemma Extensionality(x: MultiValue, y: MultiValue)
    requires IsNormalized(x) && IsNormalized(y)
    requires forall c :: AmountOf(x, c) == AmountOf(y, c)
    ensures x == y
  {
    match x {
      case Zero =>
        match y {
          case Zero =>
          case One(q) =>
            ghost var t := AmountOf(y, q.commodity);
            assert false;
          case Multi(m2) =>
            var a, _ := TwoKeys(m2);
            ghost var t := AmountOf(y, a);
            assert false;
        }
      case One(p) =>
        assert AmountOf(y, p.commodity) == p.amount;
        match y {
          case Zero =>
          case One(q) =>
          case Multi(m2) =>
            var a, b := TwoKeys(m2);
            ghost var t, u := AmountOf(y, a), AmountOf(y, b);
            assert false;
        }
      case Multi(m1) =>
        match y {
          case Zero =>
            var a, _ := TwoKeys(m1);
            ghost var t := AmountOf(x, a);
            assert false;
          case One(q) =>
            var a, b := TwoKeys(m1);
            ghost var t, u := AmountOf(x, a), AmountOf(x, b);
            assert false;
          case Multi(m2) =>
            assert forall c :: c in m1 <==> AmountOf(x, c) != 0.0;
            assert forall c :: c in m2 <==> AmountOf(y, c) != 0.0;
            assert m1.Keys == m2.Keys;
            assert forall c :: c in m1 ==> m1[c] == AmountOf(x, c) == m2[c];
        }
    }
  }

  // ---------------------------------------------------------------------
  // Construction and queries
  // ---------------------------------------------------------------------

  /** `Value::zero`. */
  function ValueZero(c: CommodityId): (r: Value)
    ensures r.amount == 0.0 && r.commodity == c
  {
    Value(0.0, c)
  }

  /** `Value::abs`: same commodity, non-negative amount of the same magnitude. */
  function ValueAbs(v: Value): (r: Value)
    ensures r.commodity == v.commodity
    ensures r.amount >= 0.0 && (r.amount == v.amount || r.amount == -v.amount)
  {
    Value(if v.amount < 0.0 then -v.amount else v.amount, v.commodity)
  }

  /** `Value / Decimal`; a zero divisor panics in the code. */
  function ValueDiv(v: Value, d: real): (r: Value)
    requires d != 0.0
    ensures r.commodity == v.commodity && r.amount * d == v.amount
  {
    Value(v.amount / d, v.commodity)
  }

  /** `MultiValue::new`: a zero amount gives the zero value. */
  function New(amount: real, c: CommodityId): (r: MultiValue)
    ensures IsNormalized(r)
    ensures r.Zero? <==> amount == 0.0
    ensures forall d :: AmountOf(r, d) == if d == c then amount else 0.0
  {
    if amount == 0.0 then Zero else One(Value(amount, c))
  }

  /** `is_zero`: for a normalized value, every amount is zero. */
  predicate IsZero(x: MultiValue) {
    x.Zero?
  }

  /** `commodity`: the commodity of a single-commodity value. */
  function CommodityOf(x: MultiValue): (r: Option<CommodityId>)
    ensures IsNormalized(x) && r.Some? ==>
            AmountOf(x, r.value) != 0.0 && forall d :: d != r.value ==> AmountOf(x, d) == 0.0
  {
    match x
    case One(p) => Some(p.commodity)
    case _ => None
  }

  lemma IsZeroMeaning(x: MultiValue)
    requires IsNormalized(x)
    ensures IsZero(x) <==> forall c :: AmountOf(x, c) == 0.0
  {
    if !IsZero(x) && forall c :: AmountOf(x, c) == 0.0 {
      Extensionality(x, Zero);
    }
  }

  /** On a normalized value, `commodity` is None exactly when it does not hold exactly one commodity. */
  lemma CommodityOfMeaning(x: MultiValue)
    requires IsNormalized(x)
    ensures CommodityOf(x).None? <==> x.Zero? || x.Multi?
    ensures x.Multi? ==> exists a, b :: a != b && AmountOf(x, a) != 0.0 && AmountOf(x, b) != 0.0
  {
    if x.Multi? {
      var a, b := TwoKeys(x.m);
      assert AmountOf(x, a) != 0.0 && AmountOf(x, b) != 0.0;
    }
  }

  // ---------------------------------------------------------------------
  // Normalization
  // ---------------------------------------------------------------------

  function NonZeroPart(m: map<CommodityId, real>): (r: map<CommodityId, real>)
    ensures forall c :: c in r <==> c in m && m[c] != 0.0
    ensures forall c :: Get(r, c) == Get(m, c)
  {
    map c | c in m && m[c] != 0.0 :: m[c]
  }

  /** `normalize`: drop the zero entries, then shrink to `One` or `Zero` when one or none is left. */
  function Normalize(x: MultiValue): (r: MultiValue)
    ensures IsNormalized(r)
    ensures forall c :: AmountOf(r, c) == AmountOf(x, c)
  {
    match x
    case Zero => Zero
    case One(p) => if p.amount == 0.0 then Zero else x
    case Multi(m) =>
      var kept := NonZeroPart(m);
      if |kept| == 0 then
        assert forall c :: c !in kept;
        Zero
      else if |kept| == 1 then
        var c := TheKey(kept);
        One(Value(kept[c], c))
      else
        Multi(kept)
  }

  lemma NormalizeKeepsNormalized(x: MultiValue)
    requires IsNormalized(x)
    ensures Normalize(x) == x
  {
    Extensionality(Normalize(x), x);
  }

  // ---------------------------------------------------------------------
  // Arithmetic
  // ---------------------------------------------------------------------

  /**
   * The merge loop shared by `+`, `-`, `+=` and `-=`: every entry of `m2`
   * is added to (or, if `sub`, subtracted from) the entry of `m1`; a
   * commodity missing from `m1` is inserted, negated only if `negateInsert`.
   */
  function Merge(m1: map<CommodityId, real>, m2: map<CommodityId, real>, sub: bool,
                 negateInsert: bool): (r: map<CommodityId, real>)
    ensures r.Keys == m1.Keys + m2.Keys
    ensures forall c :: Get(r, c) == MergedAmount(m1, m2, sub, negateInsert, c)
  {
    map c | c in m1.Keys + m2.Keys :: MergedEntry(m1, m2, sub, negateInsert, c)
  }

  /** The entry of commodity `c` once the merge has visited it. */
  function MergedEntry(m1: map<CommodityId, real>, m2: map<CommodityId, real>, sub: bool,
                       negateInsert: bool, c: CommodityId): real
    requires c in m1 || c in m2
  {
    if c in m2 then
      (if c in m1 then (if sub then m1[c] - m2[c] else m1[c] + m2[c])
       else (if sub && negateInsert then -m2[c] else m2[c]))
    else m1[c]
  }

  /** What the merge leaves for `c`: the sum, the difference, or the unsigned right amount. */
  function MergedAmount(m1: map<CommodityId, real>, m2: map<CommodityId, real>, sub: bool,
                        negateInsert: bool, c: CommodityId): real
  {
    if !sub then Get(m1, c) + Get(m2, c)
    else if !negateInsert && c in m2 && c !in m1 then m2[c]
    else Get(m1, c) - Get(m2, c)
  }

  lemma PairMap(a: CommodityId, x: real, b: CommodityId, y: real)
    requires a != b
    ensures |map[a := x, b := y]| == 2
  {
    assert map[a := x, b := y].Keys == {a, b};
  }

  /** `+` on normalized values (the code asserts both are normalized). */
  function Add(x: MultiValue, y: MultiValue): (r: MultiValue)
    requires IsNormalized(x) && IsNormalized(y)
    ensures IsNormalized(r)
    ensures forall c :: AmountOf(r, c) == AmountOf(x, c) + AmountOf(y, c)
  {
    match (x, y)
    case (Zero, _) => y
    case (_, Zero) => x
    case (One(p1), One(p2)) =>
      if p1.commodity == p2.commodity then
        var amount := p1.amount + p2.amount;
        if amount == 0.0 then Zero else One(Value(amount, p1.commodity))
      else
        PairMap(p1.commodity, p1.amount, p2.commodity, p2.amount);
        Multi(map[p1.commodity := p1.amount, p2.commodity := p2.amount])
    case (One(p1), Multi(m2)) =>
      Normalize(Multi(Merge(m2, map[p1.commodity := p1.amount], false, false)))
    case (Multi(m1), One(p2)) =>
      Normalize(Multi(Merge(m1, map[p2.commodity := p2.amount], false, false)))
    case (Multi(m1), Multi(m2)) =>
      Normalize(Multi(Merge(m1, m2, false, false)))
  }

  /** Unary `-`: negates every amount. */
  function Neg(x: MultiValue): (r: MultiValue)
    ensures forall c :: AmountOf(r, c) == -AmountOf(x, c)
    ensures IsNormalized(x) ==> IsNormalized(r)
  {
    match x
    case Zero => Zero
    case One(p) => One(Value(-p.amount, p.commodity))
    case Multi(m) =>
      var n := map c | c in m :: -m[c];
      assert n.Keys == m.Keys;
      Multi(n)
  }

  /** The amount `-` leaves as written: a commodity only on the right keeps its sign. */
  function SubAsWrittenAmount(x: MultiValue, y: MultiValue, c: CommodityId): real {
    if x.Multi? && y.Multi? && c in y.m && c !in x.m then y.m[c]
    else if x.Multi? && y.One? && c == y.pair.commodity && c !in x.m then y.pair.amount
    else AmountOf(x, c) - AmountOf(y, c)
  }

  /**
   * `-` as written: for a commodity that the `Multi` left operand lacks, the
   * right amount is inserted without its sign changed.
   */
  function SubAsWritten(x: MultiValue, y: MultiValue): (r: MultiValue)
    ensures forall c :: AmountOf(r, c) == SubAsWrittenAmount(x, y, c)
  {
    match (x, y)
    case (Zero, _) => Neg(y)
    case (_, Zero) => x
    case (One(p1), One(p2)) =>
      if p1.commodity == p2.commodity then
        var amount := p1.amount - p2.amount;
        if amount == 0.0 then Zero else One(Value(amount, p1.commodity))
      else
        Multi(map[p1.commodity := p1.amount, p2.commodity := -p2.amount])
    case (One(p1), Multi(m2)) =>
      Normalize(Multi(Merge(map[p1.commodity := p1.amount], m2, true, true)))
    case (Multi(m1), One(p2)) =>
      Normalize(Multi(Merge(m1, map[p2.commodity := p2.amount], true, false)))
    case (Multi(m1), Multi(m2)) =>
      Normalize(Multi(Merge(m1, m2, true, false)))
  }

  /** `-` with the missing commodities inserted negated, as `One - Multi` already does. */
  function Sub(x: MultiValue, y: MultiValue): (r: MultiValue)
    ensures forall c :: AmountOf(r, c) == AmountOf(x, c) - AmountOf(y, c)
    ensures IsNormalized(x) && IsNormalized(y) ==> IsNormalized(r)
  {
    match (x, y)
    case (Zero, _) => Neg(y)
    case (_, Zero) => x
    case (One(p1), One(p2)) =>
      if p1.commodity == p2.commodity then
        var amount := p1.amount - p2.amount;
        if amount == 0.0 then Zero else One(Value(amount, p1.commodity))
      else
        PairMap(p1.commodity, p1.amount, p2.commodity, -p2.amount);
        Multi(map[p1.commodity := p1.amount, p2.commodity := -p2.amount])
    case (One(p1), Multi(m2)) =>
      Normalize(Multi(Merge(map[p1.commodity := p1.amount], m2, true, true)))
    case (Multi(m1), One(p2)) =>
      Normalize(Multi(Merge(m1, map[p2.commodity := p2.amount], true, true)))
    case (Multi(m1), Multi(m2)) =>
      Normalize(Multi(Merge(m1, m2, true, true)))
  }

  /** `split`: multiplies the amount of commodity `c` by `ratio`; it does not normalize. */
  function SplitBy(x: MultiValue, c: CommodityId, ratio: real): (r: MultiValue)
    ensures forall d :: AmountOf(r, d) == if d == c then AmountOf(x, d) * ratio else AmountOf(x, d)
    ensures x.Zero? ==> r.Zero?
  {
    match x
    case Zero => Zero
    case One(p) => if p.commodity == c then One(Value(p.amount * ratio, c)) else x
    case Multi(m) => if c in m then Multi(m[c := m[c] * ratio]) else x
  }

  /** `MultiValue / MultiValue`: only a single commodity divided by a single commodity has a ratio. */
  function DivValue(x: MultiValue, y: MultiValue): (r: Option<real>)
    requires IsNormalized(x) && IsNormalized(y)
    ensures y.Zero? ==> r.None?
    ensures x.Zero? && !y.Zero? ==> r == Some(0.0)
    ensures x.One? && y.One? ==> r.Some? && r.value * y.pair.amount == x.pair.amount
    ensures (x.Multi? || y.Multi?) && !x.Zero? && !y.Zero? ==> r.None?
  {
    match (x, y)
    case (_, Zero) => None
    case (Zero, _) => Some(0.0)
    case (One(p1), One(p2)) => Some(p1.amount / p2.amount)
    case (_, Multi(_)) => None
    case (Multi(_), _) => None
  }

  /**
   * `MultiValue / Decimal`: divides every amount; zero stays zero, even
   * when divided by zero, and any other amount divided by zero panics in
   * the code.
   */
  function DivScalar(x: MultiValue, d: real): (r: MultiValue)
    requires IsNormalized(x) && (x.Zero? || d != 0.0)
    ensures IsNormalized(r)
    ensures x.Zero? ==> r.Zero?
    ensures d != 0.0 ==> forall c :: AmountOf(r, c) == AmountOf(x, c) / d
  {
    match x
    case Zero => Zero
    case One(p) => One(ValueDiv(p, d))
    case Multi(m) =>
      var n := map c | c in m :: m[c] / d;
      assert n.Keys == m.Keys;
      Multi(n)
  }

  // ---------------------------------------------------------------------
  // In-place operators
  // ---------------------------------------------------------------------

  /** The entry-by-entry loop over `m2` that `+=` and `-=` run on the left map. */
  method MergeInto(m1: map<CommodityId, real>, m2: map<CommodityId, real>, sub: bool,
                   negateInsert: bool) returns (m: map<CommodityId, real>)
    ensures m == Merge(m1, m2, sub, negateInsert)
  {
    m := m1;
    var todo := m2.Keys;
    while todo != {}
      invariant MergedExcept(m, m1, m2, sub, negateInsert, todo)
      decreases todo
    {
      var c :| c in todo;
      var v := if c in m then (if sub then m[c] - m2[c] else m[c] + m2[c])
               else (if sub && negateInsert then -m2[c] else m2[c]);
      MergeStep(m, m1, m2, sub, negateInsert, todo, c, v);
      m, todo := m[c := v], todo - {c};
    }
    MergeByEntries(m, m1, m2, sub, negateInsert);
  }

  /** `m` is the merge of `m1` and `m2` except for the keys in `todo`, which still hold their `m1` entry. */
  ghost predicate MergedExcept(m: map<CommodityId, real>, m1: map<CommodityId, real>,
                               m2: map<CommodityId, real>, sub: bool, negateInsert: bool,
                               todo: set<CommodityId>)
  {
    && todo <= m2.Keys
    && m.Keys == m1.Keys + (m2.Keys - todo)
    && (forall c :: c in m && c !in todo ==> m[c] == MergedEntry(m1, m2, sub, negateInsert, c))
    && (forall c :: c in todo && c in m1 ==> m[c] == m1[c])
  }

  /** One turn of the merge loop: updating the entry of `c` by the right amount keeps `MergedExcept`. */
  lemma MergeStep(m: map<CommodityId, real>, m1: map<CommodityId, real>,
                  m2: map<CommodityId, real>, sub: bool, negateInsert: bool,
                  todo: set<CommodityId>, c: CommodityId, v: real)
    requires MergedExcept(m, m1, m2, sub, negateInsert, todo) && c in todo
    requires v == if c in m then (if sub then m[c] - m2[c] else m[c] + m2[c])
                  else (if sub && negateInsert then -m2[c] else m2[c])
    ensures MergedExcept(m[c := v], m1, m2, sub, negateInsert, todo - {c})
  {
    assert c in m <==> c in m1;
    assert v == MergedEntry(m1, m2, sub, negateInsert, c);
  }

  /** A map holding the merged entry for every key of either side is the merge. */
  lemma MergeByEntries(m: map<CommodityId, real>, m1: map<CommodityId, real>,
                       m2: map<CommodityId, real>, sub: bool, negateInsert: bool)
    requires m.Keys == m1.Keys + m2.Keys
    requires forall c :: c in m ==> m[c] == MergedEntry(m1, m2, sub, negateInsert, c)
    ensures m == Merge(m1, m2, sub, negateInsert)
  {
    var r := Merge(m1, m2, sub, negateInsert);
    assert m.Keys == r.Keys;
    assert forall c :: c in m ==> m[c] == r[c];
  }

  /** `+=`; the code asserts both operands are normalized. */
  method AddAssign(x: MultiValue, y: MultiValue) returns (r: MultiValue)
    requires IsNormalized(x) && IsNormalized(y)
    ensures r == Add(x, y)
  {
    match (x, y)
    case (Zero, _) => r := y;
    case (_, Zero) => r := x;
    case (One(p1), One(p2)) =>
      if p1.commodity == p2.commodity {
        var amount := p1.amount + p2.amount;
        if amount == 0.0 {
          r := Zero;
        } else {
          r := One(Value(p1.amount + p2.amount, p1.commodity));
        }
      } else {
        r := Multi(map[p1.commodity := p1.amount, p2.commodity := p2.amount]);
      }
    case (One(p1), Multi(m2)) =>
      var m := MergeInto(m2, map[p1.commodity := p1.amount], false, false);
      r := Normalize(Multi(m));
    case (Multi(m1), One(p2)) =>
      var m := MergeInto(m1, map[p2.commodity := p2.amount], false, false);
      r := Normalize(Multi(m));
    case (Multi(m1), Multi(m2)) =>
      var m := MergeInto(m1, m2, false, false);
      r := Normalize(Multi(m));
  }

  /** `-=` as written, with the same unsigned insertion as `SubAsWritten`. */
  method SubAssignAsWritten(x: MultiValue, y: MultiValue) returns (r: MultiValue)
    ensures r == SubAsWritten(x, y)
  {
    match (x, y)
    case (Zero, _) => r := Neg(y);
    case (_, Zero) => r := x;
    case (One(p1), One(p2)) =>
      if p1.commodity == p2.commodity {
        var amount := p1.amount - p2.amount;
        if amount == 0.0 {
          r := Zero;
        } else {
          r := One(Value(p1.amount - p2.amount, p1.commodity));
        }
      } else {
        r := Multi(map[p1.commodity := p1.amount, p2.commodity := -p2.amount]);
      }
    case (One(p1), Multi(m2)) =>
      var m := MergeInto(map[p1.commodity := p1.amount], m2, true, true);
      r := Normalize(Multi(m));
    case (Multi(m1), One(p2)) =>
      var m := MergeInto(m1, map[p2.commodity := p2.amount], true, false);
      r := Normalize(Multi(m));
    case (Multi(m1), Multi(m2)) =>
      var m := MergeInto(m1, m2, true, false);
      r := Normalize(Multi(m));
  }

  /** `-=` with missing commodities inserted negated. */
  method SubAssign(x: MultiValue, y: MultiValue) returns (r: MultiValue)
    ensures r == Sub(x, y)
  {
    match (x, y)
    case (Zero, _) => r := Neg(y);
    case (_, Zero) => r := x;
    case (One(p1), One(p2)) =>
      if p1.commodity == p2.commodity {
        var amount := p1.amount - p2.amount;
        if amount == 0.0 {
          r := Zero;
        } else {
          r := One(Value(p1.amount - p2.amount, p1.commodity));
        }
      } else {
        r := Multi(map[p1.commodity := p1.amount, p2.commodity := -p2.amount]);
      }
    case (One(p1), Multi(m2)) =>
      var m := MergeInto(map[p1.commodity := p1.amount], m2, true, true);
      r := Normalize(Multi(m));
    case (Multi(m1), One(p2)) =>
      var m := MergeInto(m1, map[p2.commodity := p2.amount], true, true);
      r := Normalize(Multi(m));
    case (Multi(m1), Multi(m2)) =>
      var m := MergeInto(m1, m2, true, true);
      r := Normalize(Multi(m));
  }

  /** What `apply` asserts of its operand: every value it adds is normalized. */
  predicate OperationAddsNormalized(op: Operation) {
    match op
    case Credit(v) => IsNormalized(v)
    case BuyAmount(q, _) => q.amount != 0.0
    case BuyPrice(q, _) => q.amount != 0.0
    case AddShares(q) => q.amount != 0.0
    case Reinvest(s, _) => IsNormalized(s)
    case _ => true
  }

  /** The quantity `apply` adds for an operation, as a value. */
  function AddedBy(op: Operation): MultiValue {
    match op
    case Credit(v) => v
    case BuyAmount(q, _) => One(q)
    case BuyPrice(q, _) => One(q)
    case AddShares(q) => One(q)
    case Reinvest(s, _) => s
    case _ => Zero
  }

  /**
   * `apply`: adds the quantity of a credit, a purchase or a reinvestment,
   * multiplies the split commodity, ignores a dividend, then normalizes.
   */
  method Apply(x: MultiValue, op: Operation) returns (r: MultiValue)
    requires op.Split? || op.Dividend? || IsNormalized(x)
    requires OperationAddsNormalized(op)
    ensures IsNormalized(r)
    ensures op.Dividend? && IsNormalized(x) ==> r == x
    ensures !op.Split? ==> forall c :: AmountOf(r, c) == AmountOf(x, c) + AmountOf(AddedBy(op), c)
    ensures op.Split? ==> forall c ::
                            AmountOf(r, c) == AmountOf(SplitBy(x, op.commodity, op.ratio), c)
  {
    match op {
      case Credit(v) => r := AddAssign(x, v);
      case AddShares(q) => r := AddAssign(x, One(q));
      case BuyAmount(q, _) => r := AddAssign(x, One(q));
      case BuyPrice(q, _) => r := AddAssign(x, One(q));
      case Reinvest(s, _) => r := AddAssign(x, s);
      case Split(ratio, c) => r := SplitBy(x, c, ratio);
      case Dividend => r := x;
    }
    r := Normalize(r);
    if op.Dividend? && IsNormalized(x) {
      NormalizeKeepsNormalized(x);
    }
  }

  // ---------------------------------------------------------------------
  // Laws
  // ---------------------------------------------------------------------

  lemma NewZeroIsZero(c: CommodityId)
    ensures New(0.0, c) == Zero
  {
  }

  lemma AddCommutes(x: MultiValue, y: MultiValue)
    requires IsNormalized(x) && IsNormalized(y)
    ensures Add(x, y) == Add(y, x)
  {
    Extensionality(Add(x, y), Add(y, x));
  }

  lemma AddAssociates(x: MultiValue, y: MultiValue, z: MultiValue)
    requires IsNormalized(x) && IsNormalized(y) && IsNormalized(z)
    ensures Add(Add(x, y), z) == Add(x, Add(y, z))
  {
    Extensionality(Add(Add(x, y), z), Add(x, Add(y, z)));
  }

  /** `x + (-x)` is zero. */
  lemma AddNegIsZero(x: MultiValue)
    requires IsNormalized(x)
    ensures Add(x, Neg(x)) == Zero
  {
    Extensionality(Add(x, Neg(x)), Zero);
  }

  lemma NegInvolution(x: MultiValue)
    ensures Neg(Neg(x)) == x
  {
    match x
    case Multi(m) =>
      assert Neg(Neg(x)).m == m;
    case _ =>
  }

  /** `x + x` doubles a single-commodity value. */
  lemma AddSelfDoubles(p: Value)
    requires p.amount != 0.0
    ensures Add(One(p), One(p)) == One(Value(2.0 * p.amount, p.commodity))
  {
  }

  /** The corrected `-` is addition of the negation, so `x - x` is zero. */
  lemma SubIsAddNeg(x: MultiValue, y: MultiValue)
    requires IsNormalized(x) && IsNormalized(y)
    ensures Sub(x, y) == Add(x, Neg(y))
    ensures Sub(x, x) == Zero
  {
    Extensionality(Sub(x, y), Add(x, Neg(y)));
    Extensionality(Sub(x, x), Zero);
  }

  /** `x - x` is zero even as written, so the `x - x` cases of the unit tests cannot show the un-negated insert. */
  lemma SubAsWrittenSelfIsZero(x: MultiValue)
    requires IsNormalized(x)
    ensures SubAsWritten(x, x) == Zero
  {
    if x.One? || x.Zero? {
    } else {
      Extensionality(Normalize(Multi(Merge(x.m, x.m, true, false))), Zero);
    }
  }

  /** As written, `-` is right whenever the left operand already holds every commodity of the right one. */
  lemma SubAsWrittenAgreesWhenCovered(x: MultiValue, y: MultiValue)
    requires IsNormalized(x) && IsNormalized(y)
    requires x.Multi? ==> forall c :: AmountOf(y, c) != 0.0 ==> c in x.m
    ensures SubAsWritten(x, y) == Sub(x, y)
  {
    if x.Multi? && (y.One? || y.Multi?) {
      var a := SubAsWritten(x, y);
      assert IsNormalized(a) by {
        if y.One? {
          assert a == Normalize(Multi(Merge(x.m, map[y.pair.commodity := y.pair.amount], true, false)));
        } else {
          assert a == Normalize(Multi(Merge(x.m, y.m, true, false)));
        }
      }
      Extensionality(a, Sub(x, y));
    }
  }

  /** `{EUR: 1, USD: 1} - 1 GBP` as written holds +1 GBP where -1 GBP is meant. */
  lemma SubAsWrittenKeepsSign()
    ensures AmountOf(SubAsWritten(Multi(map[1 := 1.0, 2 := 1.0]), One(Value(1.0, 3))), 3) == 1.0
    ensures AmountOf(Sub(Multi(map[1 := 1.0, 2 := 1.0]), One(Value(1.0, 3))), 3) == -1.0
  {
  }

  /**
   * The worked example of the unit tests, with commodities 1 and 2, through
   * `-=` as written: each subtraction removes a commodity the left operand
   * holds, so the un-negated insert is never reached.
   */
  method OperatorsExample() {
    var oneC1 := New(1.0, 1);
    var oneC2 := New(1.0, 2);
    var acc := AddAssign(Zero, oneC1);
    assert acc == oneC1;
    acc := AddAssign(acc, oneC2);
    assert acc != Zero by { assert AmountOf(acc, 1) == 1.0; }
    var both := acc;
    acc := SubAssignAsWritten(acc, oneC1);
    SubAsWrittenAgreesWhenCovered(both, oneC1);
    Extensionality(acc, oneC2);
    assert acc == oneC2;
    acc := SubAssignAsWritten(acc, oneC2);
    assert acc == Zero;
  }
}
