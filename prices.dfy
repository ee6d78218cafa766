/**
 * Historical prices.  A price says how much one unit of an origin commodity
 * is worth in a target commodity at a given time; the collection keeps, for
 * every (origin, target) pair, the list of known prices sorted by timestamp.
 * Timestamps are integers.
 */
module Prices {
  import opened Wrappers
  import Commodities

  type CommodityId = Commodities.CommodityId

  /** Where a price comes from. */
  datatype PriceSource = Transaction | External(id: nat) | Turnkey

  datatype Price = Price(timestamp: int, price: real, source: PriceSource)

  /** Chronological order; the amounts do not take part. */
  predicate Sorted(ps: seq<Price>) {
    forall i, j :: 0 <= i < j < |ps| ==> ps[i].timestamp <= ps[j].timestamp
  }

  /** `older_than`: compares the timestamps of two prices. */
  function OlderThan(p: Price, q: Price): (r: Ordering)
    ensures r == Less <==> p.timestamp < q.timestamp
    ensures r == Equal <==> p.timestamp == q.timestamp
  {
    CmpInt(p.timestamp, q.timestamp)
  }

  /** `older_than_ts`: compares the timestamp of a price with a time. */
  function OlderThanTs(p: Price, ts: int): (r: Ordering)
    ensures r == Less <==> p.timestamp < ts
    ensures r == Equal <==> p.timestamp == ts
  {
    CmpInt(p.timestamp, ts)
  }

  /** `more_recent_than_ts`: `Less` when the price is more recent than `ts`. */
  function MoreRecentThanTs(p: Price, ts: int): (r: Ordering)
    ensures r == Less <==> p.timestamp > ts
    ensures r == Equal <==> p.timestamp == ts
  {
    Reverse(CmpInt(p.timestamp, ts))
  }

  /** `more_recent_than_ts` is the reverse of `older_than_ts`, and `older_than` ignores amount and source. */
  lemma OrderingsAgree(p: Price, q: Price, ts: int)
    ensures MoreRecentThanTs(p, ts) == Reverse(OlderThanTs(p, ts))
    ensures OlderThan(p, q) == OlderThanTs(p, q.timestamp)
    ensures OlderThan(p, q) == Reverse(OlderThan(q, p))
  {
  }

  /** `invert`: the price of the reverse pair; the code panics on a zero price. */
  function Invert(p: Price): (r: Price)
    requires p.price != 0.0
    ensures r.timestamp == p.timestamp && r.source == p.source
    ensures r.price * p.price == 1.0
  {
    Price(p.timestamp, 1.0 / p.price, p.source)
  }

  lemma InvertInvolutive(p: Price)
    requires p.price != 0.0
    ensures Invert(p).price != 0.0 && Invert(Invert(p)) == p
  {
  }

  /**
   * `binary_search_by(older_than)`: a position where `price` can be inserted
   * without breaking the chronological order.  An equal timestamp may be
   * found anywhere in its run.
   */
  method InsertionPoint(ps: seq<Price>, price: Price) returns (pos: nat)
    requires Sorted(ps)
    ensures pos <= |ps|
    ensures forall i :: 0 <= i < pos ==> ps[i].timestamp <= price.timestamp
    ensures forall i :: pos <= i < |ps| ==> ps[i].timestamp >= price.timestamp
  {
    var lo, hi := 0, |ps|;
    while lo < hi
      invariant 0 <= lo <= hi <= |ps|
      invariant forall i :: 0 <= i < lo ==> ps[i].timestamp < price.timestamp
      invariant forall i :: hi <= i < |ps| ==> ps[i].timestamp > price.timestamp
    {
      var mid := lo + (hi - lo) / 2;
      match OlderThan(ps[mid], price) {
        case Less => lo := mid + 1;
        case Greater => hi := mid;
        case Equal => return mid;
      }
    }
    return lo;
  }

  /** Inserting at such a position keeps the list sorted. */
  lemma InsertKeepsSorted(ps: seq<Price>, pos: nat, price: Price)
    requires Sorted(ps) && pos <= |ps|
    requires forall i :: 0 <= i < pos ==> ps[i].timestamp <= price.timestamp
    requires forall i :: pos <= i < |ps| ==> ps[i].timestamp >= price.timestamp
    ensures Sorted(ps[..pos] + [price] + ps[pos..])
    ensures multiset(ps[..pos] + [price] + ps[pos..]) == multiset(ps) + multiset{price}
  {
    var r := ps[..pos] + [price] + ps[pos..];
    assert forall i :: 0 <= i < |r| ==> r[i] == if i < pos then ps[i] else if i == pos then price else ps[i - 1];
    InsertMultiset(ps, pos, price);
  }

  lemma InsertMultiset(ps: seq<Price>, pos: nat, price: Price)
    requires pos <= |ps|
    ensures multiset(ps[..pos] + [price] + ps[pos..]) == multiset(ps) + multiset{price}
  {
    assert ps == ps[..pos] + ps[pos..];
  }

  class PriceCollection {
    var prices: map<(CommodityId, CommodityId), seq<Price>>

    ghost predicate Valid()
      reads this
    {
      forall k :: k in prices ==> Sorted(prices[k])
    }

    constructor ()
      ensures Valid() && prices == map[]
    {
      prices := map[];
    }

    /** The known prices of a pair, oldest first; none for a pair never registered. */
    function PricesOf(origin: CommodityId, target: CommodityId): (r: seq<Price>)
      reads this
      requires Valid()
      ensures Sorted(r)
    {
      if (origin, target) in prices then prices[(origin, target)] else []
    }

    /**
     * `add`: registers a historical price.  Only the list of that pair
     * changes; the new price is inserted among the old ones, which keep
     * their order, and the list stays chronological.
     */
    method Add(origin: CommodityId, target: CommodityId, price: Price)
      requires Valid()
      modifies this
      ensures Valid()
      ensures (origin, target) in prices
      ensures multiset(prices[(origin, target)]) == multiset(old(PricesOf(origin, target))) + multiset{price}
      ensures exists pos :: 0 <= pos <= |old(PricesOf(origin, target))|
                && prices[(origin, target)] == old(PricesOf(origin, target))[..pos] + [price] + old(PricesOf(origin, target))[pos..]
      ensures forall k :: k != (origin, target) ==> (k in prices <==> k in old(prices))
      ensures forall k :: k != (origin, target) && k in prices ==> prices[k] == old(prices)[k]
    {
      var p := if (origin, target) in prices then prices[(origin, target)] else [];
      var pos := InsertionPoint(p, price);
      InsertKeepsSorted(p, pos, price);
      prices := prices[(origin, target) := p[..pos] + [price] + p[pos..]];
    }
  }

  /** Prices added out of order come back chronological: the 0.6 price at day 0 goes before the 0.2 at day 1. */
  method AddExample() {
    var coll := new PriceCollection();
    var later := Price(1, 0.2, Transaction);
    var earlier := Price(0, 0.6, Transaction);
    coll.Add(1, 2, later);
    SingleOf(coll.prices[(1, 2)], later);
    coll.Add(1, 2, earlier);
    PairOf(coll.prices[(1, 2)], earlier, later);
    assert coll.prices[(1, 2)] == [earlier, later];
  }

  /** A list holding exactly one price is that price. */
  lemma SingleOf(ps: seq<Price>, p: Price)
    requires multiset(ps) == multiset{} + multiset{p}
    ensures ps == [p]
  {
    assert |ps| == 1 by { assert |multiset(ps)| == 1; }
    assert ps[0] in multiset(ps);
  }

  /** A chronological list holding exactly two prices of different times is those two, oldest first. */
  lemma PairOf(ps: seq<Price>, a: Price, b: Price)
    requires Sorted(ps) && a.timestamp < b.timestamp
    requires multiset(ps) == multiset([b]) + multiset{a}
    ensures ps == [a, b]
  {
    assert multiset([b]) == multiset{b};
    assert |ps| == 2 by { assert |multiset(ps)| == 2; }
    assert ps == [ps[0], ps[1]];
    assert multiset{ps[0], ps[1]} == multiset{a, b};
    assert ps[0] in multiset{a, b} && ps[1] in multiset{a, b};
  }
}
