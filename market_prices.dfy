/**
 * Market prices: the price of a commodity in a target commodity at a given
 * time, taken from the known historical prices.  A direct rate and the
 * inverted reverse rate are both looked up and the more recent one wins;
 * routes through turnkey currencies are tried as well.  Each (from, to) pair
 * keeps a cache line recording the last query, which narrows the next
 * search to one side of the previous answer.
 *
 * The meaning of a lookup is `Latest`: the last known price whose
 * timestamp is not after the query time.  The cache invariant says every
 * cache line is what a fresh search at its own time would give; under it a
 * cached lookup answers exactly `Latest`.
 */
module MarketPrices {
  import opened Wrappers
  import opened Prices
  import MultiValues

  type Pair = (CommodityId, CommodityId)

  /** What a previous query of a pair returned: its time, and the index just past the price found. */
  datatype CacheLine = CacheLine(requestTs: int, found: Option<(nat, Price)>)

  // ---------------------------------------------------------------------
  // Reference definitions
  // ---------------------------------------------------------------------

  /** The prices of a pair, none for an unknown pair. */
  function PricesIn(known: map<Pair, seq<Price>>, from: CommodityId, to: CommodityId): seq<Price> {
    if (from, to) in known then known[(from, to)] else []
  }

  /** Every list is chronological, and no price is zero (inverting one panics in the code). */
  ghost predicate WellFormed(known: map<Pair, seq<Price>>) {
    forall k :: k in known ==> Sorted(known[k]) && forall i :: 0 <= i < |known[k]| ==> known[k][i].price != 0.0
  }

  /** The number of prices whose timestamp is not after `t`. */
  function CountAtOrBefore(ps: seq<Price>, t: int): (n: nat)
    ensures n <= |ps|
  {
    if ps == [] then 0 else (if ps[0].timestamp <= t then 1 else 0) + CountAtOrBefore(ps[1..], t)
  }

  /** `k` separates the prices up to `t` from the later ones. */
  predicate SplitsAt(ps: seq<Price>, t: int, k: nat) {
    && k <= |ps|
    && (forall i :: 0 <= i < k ==> ps[i].timestamp <= t)
    && (forall i :: k <= i < |ps| ==> ps[i].timestamp > t)
  }

  lemma {:induction false} SplitIsCount(ps: seq<Price>, t: int, k: nat)
    requires SplitsAt(ps, t, k)
    ensures CountAtOrBefore(ps, t) == k
  {
    if ps != [] {
      if k > 0 {
        assert SplitsAt(ps[1..], t, k - 1);
        SplitIsCount(ps[1..], t, k - 1);
      } else {
        assert SplitsAt(ps[1..], t, 0);
        SplitIsCount(ps[1..], t, 0);
      }
    }
  }

  /** A chronological list splits at its count. */
  lemma {:induction false} SortedSplits(ps: seq<Price>, t: int)
    requires Sorted(ps)
    ensures SplitsAt(ps, t, CountAtOrBefore(ps, t))
  {
    if ps != [] {
      assert Sorted(ps[1..]);
      SortedSplits(ps[1..], t);
      if ps[0].timestamp > t {
        assert SplitsAt(ps, t, 0);
        SplitIsCount(ps, t, 0);
      }
    }
  }

  /** The most recent price not after `t`. */
  function Latest(ps: seq<Price>, t: int): (r: Option<Price>)
    ensures r.Some? ==> r.value in ps
  {
    var n := CountAtOrBefore(ps, t);
    if n == 0 then None else Some(ps[n - 1])
  }

  /** `Latest` is None exactly when every price is later, and otherwise no later-or-equal price is newer. */
  lemma LatestMeaning(ps: seq<Price>, t: int)
    requires Sorted(ps)
    ensures Latest(ps, t).None? <==> forall i :: 0 <= i < |ps| ==> ps[i].timestamp > t
    ensures Latest(ps, t).Some? ==>
      Latest(ps, t).value.timestamp <= t &&
      forall i :: 0 <= i < |ps| && ps[i].timestamp <= t ==> ps[i].timestamp <= Latest(ps, t).value.timestamp
  {
    SortedSplits(ps, t);
  }

  /** The cache line a full search at time `t` produces. */
  function FreshLine(ps: seq<Price>, t: int): CacheLine {
    var n := CountAtOrBefore(ps, t);
    CacheLine(t, if n == 0 then None else Some((n, ps[n - 1])))
  }

  function FoundPrice(line: CacheLine): Option<Price> {
    if line.found.Some? then Some(line.found.value.1) else None
  }

  /** `keep_most_recent`: keeps `left` unless `right` is strictly newer. */
  function KeepMostRecent(left: Option<Price>, right: Price): (r: Option<Price>)
    ensures r.Some? && (r.value == right || r == left)
    ensures left.None? ==> r == Some(right)
    ensures left.Some? && left.value.timestamp < right.timestamp ==> r == Some(right)
    ensures left.Some? && right.timestamp <= left.value.timestamp ==> r == left
  {
    match left
    case None => Some(right)
    case Some(l) => if OlderThan(l, right) == Less then Some(right) else left
  }

  /** `get_price_no_turnkey`: the more recent of the direct rate and the inverted reverse rate. */
  function NoTurnkey(known: map<Pair, seq<Price>>, from: CommodityId, to: CommodityId, t: int): Option<Price>
    requires WellFormed(known)
  {
    var direct := Latest(PricesIn(known, from, to), t);
    match Latest(PricesIn(known, to, from), t)
    case None => direct
    case Some(p) => KeepMostRecent(direct, Invert(p))
  }

  /** A route through a turnkey: the product of both legs, as old as the older leg. */
  function TurnkeyPrice(p1: Price, p2: Price): Price {
    Price(if p1.timestamp <= p2.timestamp then p1.timestamp else p2.timestamp, p1.price * p2.price, Turnkey)
  }

  /** The result after trying the direct rates and then the turnkeys `tks` in order. */
  function ViaTurnkeys(known: map<Pair, seq<Price>>, from: CommodityId, target: CommodityId,
                       tks: seq<CommodityId>, t: int): Option<Price>
    requires WellFormed(known)
  {
    if tks == [] then NoTurnkey(known, from, target, t)
    else ThroughTurnkey(known, from, target, tks[|tks| - 1], t,
                        ViaTurnkeys(known, from, target, tks[..|tks| - 1], t))
  }

  /** One turnkey `tk` considered after the best rate `acc` found so far. */
  function ThroughTurnkey(known: map<Pair, seq<Price>>, from: CommodityId, target: CommodityId,
                          tk: CommodityId, t: int, acc: Option<Price>): Option<Price>
    requires WellFormed(known)
  {
    if tk == target then acc
    else
      match (NoTurnkey(known, from, tk, t), NoTurnkey(known, tk, target, t))
      case (Some(p1), Some(p2)) => KeepMostRecent(acc, TurnkeyPrice(p1, p2))
      case _ => acc
  }

  lemma ViaTurnkeysStep(known: map<Pair, seq<Price>>, from: CommodityId, target: CommodityId,
                        tks: seq<CommodityId>, i: nat, t: int)
    requires WellFormed(known) && i < |tks|
    ensures ViaTurnkeys(known, from, target, tks[..i + 1], t)
            == ThroughTurnkey(known, from, target, tks[i], t, ViaTurnkeys(known, from, target, tks[..i], t))
  {
    assert tks[..i + 1][..i] == tks[..i];
  }

  /** `get_price`: none without a target, one for the target itself, otherwise the best route. */
  function PriceSpec(known: map<Pair, seq<Price>>, tks: seq<CommodityId>, to: Option<CommodityId>,
                     commodity: CommodityId, t: int): (r: Option<real>)
    requires WellFormed(known)
    ensures to.None? ==> r.None?
    ensures to == Some(commodity) ==> r == Some(1.0)
  {
    match to
    case None => None
    case Some(c) =>
      if c == commodity then Some(1.0)
      else
        var p := ViaTurnkeys(known, commodity, c, tks, t);
        if p.Some? then Some(p.value.price) else None
  }

  /** `convert_value`: the value in the target commodity when a price is known, unchanged otherwise. */
  function Converted(known: map<Pair, seq<Price>>, tks: seq<CommodityId>, to: Option<CommodityId>,
                     v: MultiValues.Value, t: int): MultiValues.MultiValue
    requires WellFormed(known)
  {
    match PriceSpec(known, tks, to, v.commodity, t)
    case None => MultiValues.New(v.amount, v.commodity)
    case Some(p) => MultiValues.New(p * v.amount, to.value)
  }

  /** `convert_multi_value`: the sum of the converted components, visited in the order `order`. */
  function ConvertedSum(known: map<Pair, seq<Price>>, tks: seq<CommodityId>, to: Option<CommodityId>,
                        x: MultiValues.MultiValue, order: seq<CommodityId>, t: int): (r: MultiValues.MultiValue)
    requires WellFormed(known)
    ensures MultiValues.IsNormalized(r)
  {
    if order == [] then MultiValues.Zero
    else
      var c := order[|order| - 1];
      MultiValues.Add(ConvertedSum(known, tks, to, x, order[..|order| - 1], t),
                      Converted(known, tks, to, MultiValues.Value(MultiValues.AmountOf(x, c), c), t))
  }

  /** One more component of the visiting order. */
  lemma ConvertedSumStep(known: map<Pair, seq<Price>>, tks: seq<CommodityId>, to: Option<CommodityId>,
                         x: MultiValues.MultiValue, order: seq<CommodityId>, i: nat, t: int)
    requires WellFormed(known) && i < |order|
    ensures ConvertedSum(known, tks, to, x, order[..i + 1], t)
            == MultiValues.Add(ConvertedSum(known, tks, to, x, order[..i], t),
                               Converted(known, tks, to, MultiValues.Value(MultiValues.AmountOf(x, order[i]), order[i]), t))
  {
    assert order[..i + 1][..i] == order[..i];
  }

  // ---------------------------------------------------------------------
  // The searches
  // ---------------------------------------------------------------------

  /** `bisect_right_by(more_recent_than_ts)`: a binary search for the split point. */
  method BisectRight(ps: seq<Price>, t: int) returns (n: nat)
    requires Sorted(ps)
    ensures SplitsAt(ps, t, n)
    ensures n == CountAtOrBefore(ps, t)
  {
    var lo, hi := 0, |ps|;
    while lo < hi
      invariant 0 <= lo <= hi <= |ps|
      invariant forall i :: 0 <= i < lo ==> ps[i].timestamp <= t
      invariant forall i :: hi <= i < |ps| ==> ps[i].timestamp > t
    {
      var mid := lo + (hi - lo) / 2;
      if MoreRecentThanTs(ps[mid], t) == Less {
        hi := mid;
      } else {
        lo := mid + 1;
      }
    }
    n := lo;
    SplitIsCount(ps, t, n);
  }

  /** A line found earlier bounds where the answer at `t` lies, so the narrowed search lands at the full count. */
  lemma NarrowedSearch(ps: seq<Price>, line: CacheLine, t: int, k: nat)
    requires Sorted(ps) && line == FreshLine(ps, line.requestTs) && line.found.Some?
    requires line.requestTs < t ==> SplitsAt(ps[line.found.value.0..], t, k)
    requires line.requestTs >= t ==> SplitsAt(ps[..line.found.value.0], t, k)
    ensures (if line.requestTs < t then line.found.value.0 + k else k) == CountAtOrBefore(ps, t)
  {
    var f := line.found.value.0;
    SortedSplits(ps, line.requestTs);
    if line.requestTs < t {
      assert forall i :: f <= i < |ps| ==> ps[i] == ps[f..][i - f];
      SplitIsCount(ps, t, f + k);
    } else {
      assert forall i :: 0 <= i < f ==> ps[i] == ps[..f][i];
      SplitIsCount(ps, t, k);
    }
  }

  class MarketPrices {
    const known: map<Pair, seq<Price>>
    const turnkeys: seq<CommodityId>
    const toCommodity: Option<CommodityId>
    var cache: map<Pair, CacheLine>

    /** Every cache line is what a fresh search at its own time gives. */
    ghost predicate Valid()
      reads this
    {
      && WellFormed(known)
      && forall k :: k in cache ==> cache[k] == FreshLine(PricesIn(known, k.0, k.1), cache[k].requestTs)
    }

    /** `new`: looks at the prices of `prices`, which do not change while it is in use. */
    constructor (prices: PriceCollection, turnkeys: seq<CommodityId>, toCommodity: Option<CommodityId>)
      requires prices.Valid()
      requires forall k :: k in prices.prices ==> forall i :: 0 <= i < |prices.prices[k]| ==> prices.prices[k][i].price != 0.0
      ensures Valid() && cache == map[]
      ensures known == prices.prices && this.turnkeys == turnkeys && this.toCommodity == toCommodity
    {
      known := prices.prices;
      this.turnkeys := turnkeys;
      this.toCommodity := toCommodity;
      cache := map[];
    }

    /** `bisect`: a search for the prices of (from, to) at `t`, narrowed by a previous line when there is one. */
    method Bisect(from: CommodityId, to: CommodityId, t: int, previous: Option<CacheLine>) returns (line: CacheLine)
      requires Valid()
      requires previous.Some? ==> previous.value == FreshLine(PricesIn(known, from, to), previous.value.requestTs)
      ensures line == FreshLine(PricesIn(known, from, to), t)
    {
      if (from, to) !in known {
        return CacheLine(t, None);
      }
      var prices := known[(from, to)];
      var index: nat;
      if previous.Some? && previous.value.found.Some? {
        var f := previous.value.found.value.0;
        if previous.value.requestTs < t {
          assert Sorted(prices[f..]);
          var k := BisectRight(prices[f..], t);
          NarrowedSearch(prices, previous.value, t, k);
          index := f + k;
        } else {
          assert Sorted(prices[..f]);
          var k := BisectRight(prices[..f], t);
          NarrowedSearch(prices, previous.value, t, k);
          index := k;
        }
      } else {
        index := BisectRight(prices, t);
      }
      if index == 0 {
        line := CacheLine(t, None);
      } else {
        line := CacheLine(t, Some((index, prices[index - 1])));
      }
    }

    /** `lookup_price`: the direct rate at `t`, answered from the cache when the same time was asked before. */
    method LookupPrice(from: CommodityId, to: CommodityId, t: int) returns (r: Option<Price>)
      requires Valid()
      modifies this
      ensures Valid()
      ensures r == Latest(PricesIn(known, from, to), t)
      ensures cache == old(cache)[(from, to) := FreshLine(PricesIn(known, from, to), t)]
    {
      var key := (from, to);
      if key !in cache {
        var line := Bisect(from, to, t, None);
        cache := cache[key := line];
        r := FoundPrice(line);
      } else if cache[key].requestTs != t {
        var line := Bisect(from, to, t, Some(cache[key]));
        cache := cache[key := line];
        r := FoundPrice(line);
      } else {
        r := FoundPrice(cache[key]);
      }
    }

    /** `get_price_no_turnkey`: the direct rate, replaced by the inverted reverse rate when that one is newer. */
    method GetPriceNoTurnkey(from: CommodityId, to: CommodityId, t: int) returns (r: Option<Price>)
      requires Valid()
      modifies this
      ensures Valid()
      ensures r == NoTurnkey(known, from, to, t)
    {
      r := LookupPrice(from, to, t);
      var reverse := LookupPrice(to, from, t);
      if reverse.Some? {
        r := KeepMostRecent(r, Invert(reverse.value));
      }
    }

    /** `get_price`: tries the direct rates, then every turnkey other than the target. */
    method GetPrice(commodity: CommodityId, t: int) returns (r: Option<real>)
      requires Valid()
      modifies this
      ensures Valid()
      ensures r == PriceSpec(known, turnkeys, toCommodity, commodity, t)
    {
      if toCommodity.None? {
        return None;
      }
      var c := toCommodity.value;
      if c == commodity {
        return Some(1.0);
      }
      var result := GetPriceNoTurnkey(commodity, c, t);
      var i := 0;
      while i < |turnkeys|
        invariant 0 <= i <= |turnkeys|
        invariant Valid()
        invariant result == ViaTurnkeys(known, commodity, c, turnkeys[..i], t)
      {
        ViaTurnkeysStep(known, commodity, c, turnkeys, i, t);
        result := TryTurnkey(commodity, c, turnkeys[i], t, result);
        i := i + 1;
      }
      assert turnkeys[..i] == turnkeys;
      r := if result.Some? then Some(result.value.price) else None;
    }

    /** The body of the turnkey loop in `get_price`: the rate through `tk`, kept when more recent. */
    method TryTurnkey(commodity: CommodityId, c: CommodityId, tk: CommodityId, t: int, acc: Option<Price>)
      returns (result: Option<Price>)
      requires Valid()
      modifies this
      ensures Valid()
      ensures result == ThroughTurnkey(known, commodity, c, tk, t, acc)
    {
      result := acc;
      if tk != c {
        var p1 := GetPriceNoTurnkey(commodity, tk, t);
        if p1.Some? {
          var p2 := GetPriceNoTurnkey(tk, c, t);
          if p2.Some? {
            result := KeepMostRecent(result, TurnkeyPrice(p1.value, p2.value));
          }
        }
      }
    }

    /** `convert_value`. */
    method ConvertValue(v: MultiValues.Value, t: int) returns (r: MultiValues.MultiValue)
      requires Valid()
      modifies this
      ensures Valid()
      ensures r == Converted(known, turnkeys, toCommodity, v, t)
    {
      var p := GetPrice(v.commodity, t);
      match p {
        case None => r := MultiValues.New(v.amount, v.commodity);
        case Some(price) => r := MultiValues.New(price * v.amount, toCommodity.value);
      }
    }

    /**
     * `convert_multi_value`: converts every non-zero component and sums the
     * results.  `order` is the order in which the components are visited,
     * each of them once.
     */
    method ConvertMultiValue(x: MultiValues.MultiValue, order: seq<CommodityId>, t: int)
      returns (r: MultiValues.MultiValue)
      requires Valid()
      requires forall c :: c in order <==> MultiValues.AmountOf(x, c) != 0.0
      requires forall i, j :: 0 <= i < j < |order| ==> order[i] != order[j]
      modifies this
      ensures Valid()
      ensures r == ConvertedSum(known, turnkeys, toCommodity, x, order, t)
    {
      r := MultiValues.Zero;
      var i := 0;
      while i < |order|
        invariant 0 <= i <= |order|
        invariant Valid()
        invariant r == ConvertedSum(known, turnkeys, toCommodity, x, order[..i], t)
      {
        var c := order[i];
        var converted := ConvertValue(MultiValues.Value(MultiValues.AmountOf(x, c), c), t);
        r := MultiValues.AddAssign(r, converted);
        ConvertedSumStep(known, turnkeys, toCommodity, x, order, i, t);
        i := i + 1;
      }
      assert order[..i] == order;
    }
  }

  // ---------------------------------------------------------------------
  // Properties
  // ---------------------------------------------------------------------

  /** A direct lookup with a reverse rate: the newer wins, and neither wins when both are missing. */
  lemma NoTurnkeyMeaning(known: map<Pair, seq<Price>>, from: CommodityId, to: CommodityId, t: int)
    requires WellFormed(known)
    ensures var direct := Latest(PricesIn(known, from, to), t);
            var reverse := Latest(PricesIn(known, to, from), t);
            && (NoTurnkey(known, from, to, t).None? <==> direct.None? && reverse.None?)
            && (reverse.None? ==> NoTurnkey(known, from, to, t) == direct)
            && (direct.None? && reverse.Some? ==> NoTurnkey(known, from, to, t) == Some(Invert(reverse.value)))
            && (direct.Some? && reverse.Some? && direct.value.timestamp < reverse.value.timestamp ==>
                  NoTurnkey(known, from, to, t) == Some(Invert(reverse.value)))
            && (direct.Some? && reverse.Some? && reverse.value.timestamp <= direct.value.timestamp ==>
                  NoTurnkey(known, from, to, t) == direct)
  {
    var reverse := Latest(PricesIn(known, to, from), t);
    if reverse.Some? {
      assert reverse.value in PricesIn(known, to, from);
    }
  }

  /** A single turnkey route with no direct rate multiplies the two legs and takes the older timestamp. */
  lemma TurnkeyRoute(known: map<Pair, seq<Price>>, from: CommodityId, target: CommodityId, tk: CommodityId, t: int)
    requires WellFormed(known) && tk != target
    requires NoTurnkey(known, from, target, t).None?
    requires NoTurnkey(known, from, tk, t).Some? && NoTurnkey(known, tk, target, t).Some?
    ensures var p1 := NoTurnkey(known, from, tk, t).value;
            var p2 := NoTurnkey(known, tk, target, t).value;
            var r := ViaTurnkeys(known, from, target, [tk], t);
            && r.Some? && r.value.price == p1.price * p2.price
            && r.value.timestamp <= p1.timestamp && r.value.timestamp <= p2.timestamp
            && (r.value.timestamp == p1.timestamp || r.value.timestamp == p2.timestamp)
  {
    assert [tk][..0] == [];
  }

  /** When there is a direct rate, `ViaTurnkeys` finds a rate too, and one that is not older. */
  lemma {:induction false} ViaTurnkeysNotOlder(known: map<Pair, seq<Price>>, from: CommodityId, target: CommodityId,
                                             tks: seq<CommodityId>, t: int)
    requires WellFormed(known)
    ensures var direct := NoTurnkey(known, from, target, t);
            var r := ViaTurnkeys(known, from, target, tks, t);
            && (direct.Some? ==> r.Some? && direct.value.timestamp <= r.value.timestamp)
  {
    if tks != [] {
      ViaTurnkeysNotOlder(known, from, target, tks[..|tks| - 1], t);
    }
  }

  /** With a known price, the value lands entirely in the target commodity; without one it is unchanged. */
  lemma ConvertedMeaning(known: map<Pair, seq<Price>>, tks: seq<CommodityId>, to: Option<CommodityId>,
                         v: MultiValues.Value, t: int)
    requires WellFormed(known)
    ensures var r := Converted(known, tks, to, v, t);
            match PriceSpec(known, tks, to, v.commodity, t)
            case None => forall d :: MultiValues.AmountOf(r, d) == if d == v.commodity then v.amount else 0.0
            case Some(p) => forall d :: MultiValues.AmountOf(r, d) == if d == to.value then p * v.amount else 0.0
    ensures to == Some(v.commodity) ==> Converted(known, tks, to, v, t) == MultiValues.New(v.amount, v.commodity)
  {
  }

  /** Without a target commodity nothing is converted: the sum is the value itself. */
  lemma {:induction false} ConvertedSumWithoutTarget(known: map<Pair, seq<Price>>, tks: seq<CommodityId>,
                                                    x: MultiValues.MultiValue, order: seq<CommodityId>, t: int)
    requires WellFormed(known)
    requires forall i, j :: 0 <= i < j < |order| ==> order[i] != order[j]
    ensures forall d :: MultiValues.AmountOf(ConvertedSum(known, tks, None, x, order, t), d) ==
                        if d in order then MultiValues.AmountOf(x, d) else 0.0
  {
    if order != [] {
      var init := order[..|order| - 1];
      ConvertedSumWithoutTarget(known, tks, x, init, t);
      forall d ensures d in order <==> d in init || d == order[|order| - 1] {
        assert order == init + [order[|order| - 1]];
      }
    }
  }

  lemma ConvertedSumIdentity(known: map<Pair, seq<Price>>, tks: seq<CommodityId>,
                             x: MultiValues.MultiValue, order: seq<CommodityId>, t: int)
    requires WellFormed(known) && MultiValues.IsNormalized(x)
    requires forall i, j :: 0 <= i < j < |order| ==> order[i] != order[j]
    requires forall c :: c in order <==> MultiValues.AmountOf(x, c) != 0.0
    ensures ConvertedSum(known, tks, None, x, order, t) == x
  {
    ConvertedSumWithoutTarget(known, tks, x, order, t);
    MultiValues.Extensionality(ConvertedSum(known, tks, None, x, order, t), x);
  }

  /** A newer price replaces an older one only when strictly newer. */
  lemma KeepMostRecentIsNewest(left: Option<Price>, right: Price)
    ensures KeepMostRecent(left, right).value.timestamp ==
            if left.Some? && left.value.timestamp > right.timestamp then left.value.timestamp else right.timestamp
  {
  }

  // The test scenario, with commodities origin = 1, target = 2, turnkey = 3,
  // target2 = 4, and time in days.

  /** One price of 0.2 on day 1: nothing before it, 0.2 from then on, and 5 the other way. */
  lemma OnePriceExample()
    ensures var known := map[(1, 2) := [Price(1, 0.2, Transaction)]];
            && WellFormed(known)
            && PriceSpec(known, [3], Some(2), 1, 0) == None
            && PriceSpec(known, [3], Some(2), 1, 1) == Some(0.2)
            && PriceSpec(known, [3], Some(2), 1, 4) == Some(0.2)
            && PriceSpec(known, [3], Some(1), 2, 1) == Some(5.0)
  {
    var known := map[(1, 2) := [Price(1, 0.2, Transaction)]];
    assert [3][..0] == [];
  }

  /** With a reverse rate of 4 on day 3, the direct 0.2 of day 1 is still the price on day 2. */
  lemma ReverseRateBeforeExample()
    ensures var known := map[(1, 2) := [Price(1, 0.2, Transaction)], (2, 1) := [Price(3, 4.0, Transaction)]];
            && WellFormed(known)
            && PriceSpec(known, [3], Some(2), 1, 0) == None
            && PriceSpec(known, [3], Some(2), 1, 2) == Some(0.2)
  {
    assert [3][..0] == [];
  }

  /** The reverse rate of 4 on day 3 is newer than the direct 0.2, so from day 3 the price is 0.25. */
  lemma ReverseRateExample()
    ensures var known := map[(1, 2) := [Price(1, 0.2, Transaction)], (2, 1) := [Price(3, 4.0, Transaction)]];
            && WellFormed(known)
            && PriceSpec(known, [3], Some(2), 1, 3) == Some(0.25)
            && PriceSpec(known, [3], Some(2), 1, 4) == Some(0.25)
  {
    assert [3][..0] == [];
  }

  /** Through turnkey 3: 0.7 origin-to-turnkey and 0.8 target2-to-turnkey give 0.7 / 0.8 and 0.8 / 0.7. */
  lemma TurnkeyExample()
    ensures var known := map[(1, 3) := [Price(1, 0.7, Transaction)], (4, 3) := [Price(1, 0.8, Transaction)]];
            && WellFormed(known)
            && PriceSpec(known, [3], Some(4), 1, 1) == Some(0.7 / 0.8)
            && PriceSpec(known, [3], Some(1), 4, 1) == Some(0.8 / 0.7)
  {
    assert [3][..0] == [];
  }

  /** A single price of day 1 is not known on day 0 and is the latest on day 3. */
  lemma SinglePrice(p: Price)
    requires p.timestamp == 1
    ensures Latest([p], 0) == None && Latest([p], 3) == Some(p)
  {
    assert [p][1..] == [];
  }

  /** The cache in use: a query on day 0, then on day 3 narrowed by the first line, then day 3 again from the cache. */
  method CachedLookupExample() {
    var coll := new PriceCollection();
    coll.Add(1, 2, Price(1, 0.2, Transaction));
    assert coll.prices[(1, 2)] == [Price(1, 0.2, Transaction)] by {
      ghost var one := coll.prices[(1, 2)];
      assert |one| == 1 by { assert |multiset(one)| == 1; }
      assert one == [one[0]] && one[0] in multiset(one);
    }
    var mp := new MarketPrices(coll, [], Some(2));
    var a := mp.LookupPrice(1, 2, 0);
    var b := mp.LookupPrice(1, 2, 3);
    var c := mp.LookupPrice(1, 2, 3);
    assert PricesIn(mp.known, 1, 2) == [Price(1, 0.2, Transaction)];
    SinglePrice(Price(1, 0.2, Transaction));
    assert a == None;
    assert b == Some(Price(1, 0.2, Transaction)) && c == b;
  }
}
