/**
 * Commodities (currencies, securities) and the collection that hands out
 * their ids.  A commodity is shared by reference in the code and compared by
 * identity; here the identity is its id, which the collection keeps unique.
 */
module Commodities {
  import opened Wrappers
  import opened Text

  type CommodityId = nat

  datatype Commodity = Commodity(
    id: CommodityId,
    name: string,
    symbol: string,
    symbolAfter: bool,
    isCurrency: bool,
    quoteSymbol: Option<string>,
    displayPrecision: nat)

  /** Commodity equality is identity: two handles are equal when they name the same commodity. */
  predicate SameCommodity(a: Commodity, b: Commodity) {
    a.id == b.id
  }

  /** The largest id in the list, 0 when it is empty. */
  function MaxId(cs: seq<Commodity>): (m: nat)
    ensures forall k :: 0 <= k < |cs| ==> cs[k].id <= m
    ensures cs == [] ==> m == 0
    ensures cs != [] ==> exists k :: 0 <= k < |cs| && cs[k].id == m
  {
    if cs == [] then 0
    else
      var m := MaxId(cs[..|cs| - 1]);
      assert forall k :: 0 <= k < |cs| - 1 ==> cs[..|cs| - 1][k] == cs[k];
      if cs[|cs| - 1].id > m then cs[|cs| - 1].id else m
  }

  /** The currencies among `cs`, in the same order. */
  function CurrenciesOf(cs: seq<Commodity>): (r: seq<Commodity>)
    ensures forall c :: c in r <==> c in cs && c.isCurrency
  {
    if cs == [] then []
    else CurrenciesOf(cs[..|cs| - 1]) + (if cs[|cs| - 1].isCurrency then [cs[|cs| - 1]] else [])
  }

  predicate UniqueIds(cs: seq<Commodity>) {
    forall i, j :: 0 <= i < j < |cs| ==> cs[i].id != cs[j].id
  }

  /** The loop over the commodities in `add` that finds the largest id. */
  method LargestId(cs: seq<Commodity>) returns (m: nat)
    ensures m == MaxId(cs)
  {
    m := 0;
    var i := 0;
    while i < |cs|
      invariant 0 <= i <= |cs|
      invariant m == MaxId(cs[..i])
    {
      assert cs[..i + 1][..i] == cs[..i];
      if cs[i].id > m {
        m := cs[i].id;
      }
      i := i + 1;
    }
    assert cs[..i] == cs;
  }

  /** Appending a commodity with an id above every other keeps the ids unique and extends the currencies. */
  lemma AppendKeepsIds(cs: seq<Commodity>, c: Commodity)
    requires UniqueIds(cs) && c.id == 1 + MaxId(cs)
    ensures forall d :: d in cs ==> d.id < c.id
    ensures UniqueIds(cs + [c])
    ensures CurrenciesOf(cs + [c]) == CurrenciesOf(cs) + (if c.isCurrency then [c] else [])
  {
    var r := cs + [c];
    assert r[..|r| - 1] == cs;
  }

  class CommodityCollection {
    var commodities: seq<Commodity>
    var currencies: seq<Commodity>

    ghost predicate Valid()
      reads this
    {
      UniqueIds(commodities) && currencies == CurrenciesOf(commodities)
    }

    constructor ()
      ensures Valid() && commodities == [] && currencies == []
    {
      commodities := [];
      currencies := [];
    }

    /**
     * Registers a new commodity: its id is one more than the largest id so
     * far, its symbol is trimmed, and a currency is also listed among the
     * currencies.
     */
    method Add(name: string, symbol: string, symbolAfter: bool, isCurrency: bool,
               quoteSymbol: Option<string>, displayPrecision: nat)
      returns (c: Commodity)
      requires Valid()
      modifies this
      ensures Valid()
      ensures c == Commodity(1 + MaxId(old(commodities)), name, Trim(symbol), symbolAfter,
                             isCurrency, quoteSymbol, displayPrecision)
      ensures forall d :: d in old(commodities) ==> d.id < c.id
      ensures commodities == old(commodities) + [c]
      ensures currencies == if isCurrency then old(currencies) + [c] else old(currencies)
    {
      var maxId := LargestId(commodities);
      c := Commodity(maxId + 1, name, Trim(symbol), symbolAfter, isCurrency, quoteSymbol,
                     displayPrecision);
      AppendKeepsIds(commodities, c);
      if isCurrency {
        currencies := currencies + [c];
      }
      commodities := commodities + [c];
    }

    function ListCurrencies(): (r: seq<Commodity>)
      reads this
      requires Valid()
      ensures forall c :: c in r <==> c in commodities && c.isCurrency
    {
      currencies
    }

    /** `find`: a linear search for the first commodity named `name`. */
    method Find(name: string) returns (r: Option<Commodity>)
      ensures r == FirstNamed(commodities, name)
    {
      var i := 0;
      while i < |commodities|
        invariant 0 <= i <= |commodities|
        invariant FirstNamed(commodities, name) == FirstNamed(commodities[i..], name)
      {
        if commodities[i].name == name {
          return Some(commodities[i]);
        }
        assert commodities[i..][1..] == commodities[i + 1..];
        i := i + 1;
      }
      return None;
    }
  }

  /** The first commodity of `cs` named `name`: every one before it has another name. */
  function FirstNamed(cs: seq<Commodity>, name: string): (r: Option<Commodity>)
    ensures r.None? <==> forall k :: 0 <= k < |cs| ==> cs[k].name != name
    ensures r.Some? ==> exists k :: 0 <= k < |cs| && cs[k] == r.value && r.value.name == name
                                    && forall j :: 0 <= j < k ==> cs[j].name != name
  {
    if cs == [] then None
    else if cs[0].name == name then Some(cs[0])
    else
      var r := FirstNamed(cs[1..], name);
      assert forall k :: 1 <= k < |cs| ==> cs[k] == cs[1..][k - 1];
      r
  }

  /** Equality is identity: the same fields under two ids are two commodities. */
  lemma IdentityNotFields()
    ensures !SameCommodity(Commodity(1, "EUR", "EUR", true, true, None, 2),
                           Commodity(2, "EUR", "EUR", true, true, None, 2))
  {
  }

  /** Adding EUR then AAPL: ids 1 and 2, and only EUR is listed as a currency. */
  method AddExample() {
    var coll := new CommodityCollection();
    var eur := coll.Add("EUR", "EUR", true, true, None, 2);
    var aapl := coll.Add("AAPL", "AAPL", true, false, None, 2);
    assert eur.id == 1 && aapl.id == 2;
    assert coll.ListCurrencies() == [eur];
  }

  lemma FindAmongTwo(cs: seq<Commodity>, eur: Commodity, aapl: Commodity)
    requires eur.name == "EUR" && aapl.name == "AAPL" && cs == [] + [eur] + [aapl]
    ensures FirstNamed(cs, "AAPL") == Some(aapl)
    ensures FirstNamed(cs, "FOO") == None
  {
    assert "EUR"[0] != "AAPL"[0] && "EUR"[0] != "FOO"[0] && "AAPL"[0] != "FOO"[0];
    assert cs[1..] == [aapl];
  }

  /** `find` returns the commodity registered under a name, and None for an unknown name. */
  method FindExample() {
    var coll := new CommodityCollection();
    var eur := coll.Add("EUR", "EUR", true, true, None, 2);
    var aapl := coll.Add("AAPL", "AAPL", true, false, None, 2);
    FindAmongTwo(coll.commodities, eur, aapl);
    var f := coll.Find("AAPL");
    assert f == Some(aapl);
    var g := coll.Find("FOO");
    assert g == None;
  }
}
