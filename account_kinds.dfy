/**
 * Account kinds: a broad category plus fine-grained flags (work or passive
 * income, unrealized gains, part of the networth, trading, stock, taxes)
 * that the reports rely on.  Kinds live in a collection and are known by
 * their 1-based position in it.
 */
module AccountKinds {
  import opened Wrappers
  import opened Utils

  /** `AccountKindId(u32)`. */
  newtype AccountKindId = x: int | 0 <= x < 0x1_0000_0000

  datatype AccountCategory = Expense | Income | Equity | Liability | Asset

  /** The discriminants the source gives the categories. */
  function Discriminant(c: AccountCategory): (r: nat)
    ensures r <= 4
  {
    match c
    case Expense => 0
    case Income => 1
    case Equity => 2
    case Liability => 4
    case Asset => 3
  }

  datatype AccountKind = AccountKind(
    name: string,
    nameWhenPositive: string,
    nameWhenNegative: string,
    category: AccountCategory,
    isWorkIncome: bool,
    isPassiveIncome: bool,
    isUnrealized: bool,
    isNetworth: bool,
    isTrading: bool,
    isStock: bool,
    isIncomeTax: bool,
    isMiscTax: bool)

  /** No flag set. */
  predicate NoFlags(k: AccountKind) {
    !k.isWorkIncome && !k.isPassiveIncome && !k.isUnrealized && !k.isNetworth
    && !k.isTrading && !k.isStock && !k.isIncomeTax && !k.isMiscTax
  }

  /** `AccountKind::new`: the names and category given, every flag cleared. */
  function New(name: string, nameWhenPositive: string, nameWhenNegative: string, category: AccountCategory): (r: AccountKind)
    ensures NoFlags(r)
    ensures r.name == name && r.nameWhenPositive == nameWhenPositive
            && r.nameWhenNegative == nameWhenNegative && r.category == category
  {
    AccountKind(name, nameWhenPositive, nameWhenNegative, category,
                false, false, false, false, false, false, false, false)
  }

  // Each `set_is_*` builder sets its own flag and keeps every other field.

  function SetIsWorkIncome(k: AccountKind, b: bool): (r: AccountKind)
    ensures r.isWorkIncome == b && r.(isWorkIncome := k.isWorkIncome) == k
  {
    k.(isWorkIncome := b)
  }

  function SetIsPassiveIncome(k: AccountKind, b: bool): (r: AccountKind)
    ensures r.isPassiveIncome == b && r.(isPassiveIncome := k.isPassiveIncome) == k
  {
    k.(isPassiveIncome := b)
  }

  function SetIsUnrealized(k: AccountKind, b: bool): (r: AccountKind)
    ensures r.isUnrealized == b && r.(isUnrealized := k.isUnrealized) == k
  {
    k.(isUnrealized := b)
  }

  function SetIsNetworth(k: AccountKind, b: bool): (r: AccountKind)
    ensures r.isNetworth == b && r.(isNetworth := k.isNetworth) == k
  {
    k.(isNetworth := b)
  }

  function SetIsTrading(k: AccountKind, b: bool): (r: AccountKind)
    ensures r.isTrading == b && r.(isTrading := k.isTrading) == k
  {
    k.(isTrading := b)
  }

  function SetIsStock(k: AccountKind, b: bool): (r: AccountKind)
    ensures r.isStock == b && r.(isStock := k.isStock) == k
  {
    k.(isStock := b)
  }

  function SetIsIncomeTax(k: AccountKind, b: bool): (r: AccountKind)
    ensures r.isIncomeTax == b && r.(isIncomeTax := k.isIncomeTax) == k
  {
    k.(isIncomeTax := b)
  }

  function SetIsMiscTax(k: AccountKind, b: bool): (r: AccountKind)
    ensures r.isMiscTax == b && r.(isMiscTax := k.isMiscTax) == k
  {
    k.(isMiscTax := b)
  }

  predicate IsExpense(k: AccountKind) {
    k.category == Expense
  }

  predicate IsIncome(k: AccountKind) {
    k.category == Income
  }

  /** A kind is never both an expense and an income. */
  lemma ExpenseNotIncome(k: AccountKind)
    ensures !(IsExpense(k) && IsIncome(k))
    ensures IsExpense(k) <==> Discriminant(k.category) == 0
    ensures IsIncome(k) <==> Discriminant(k.category) == 1
  {
  }

  /** The fifteen kinds of the default collection, in the order they are added. */
  function DefaultKinds(): (r: seq<AccountKind>)
    ensures |r| == 15
  {
    [ SetIsPassiveIncome(New("Passive Income", "Expense", "Income", Income), true),
      SetIsWorkIncome(New("Work Income", "Expense", "Income", Income), true),
      New("Income", "Expense", "Income", Income),
      SetIsUnrealized(New("Unrealized gain", "Expense", "Income", Income), true),
      New("Expense", "Increase", "Decrease", Expense),
      SetIsIncomeTax(New("Income tax", "Increase", "Decrease", Expense), true),
      SetIsMiscTax(New("Other tax", "Increase", "Decrease", Expense), true),
      SetIsNetworth(New("Liability", "Deposit", "Paiement", Liability), true),
      New("Equity", "Deposit", "Paiement", Equity),
      SetIsNetworth(New("Checking", "Deposit", "Paiement", Equity), true),
      SetIsNetworth(New("Savings", "Deposit", "Paiement", Equity), true),
      SetIsStock(SetIsTrading(SetIsNetworth(New("Stock", "Add", "Remove", Equity), true), true), true),
      SetIsTrading(SetIsNetworth(New("Investment", "Deposit", "Paiement", Equity), true), true),
      SetIsNetworth(New("Asset", "Increase", "Decrease", Asset), true),
      SetIsTrading(SetIsNetworth(New("Non-liquid Investment", "Deposit", "Paiement", Asset), true), true) ]
  }

  class AccountKindCollection {
    var kinds: seq<AccountKind>

    /** An empty collection. */
    constructor ()
      ensures kinds == []
    {
      kinds := [];
    }

    /** `Default`: the fifteen predefined kinds, added one after the other. */
    constructor Default()
      ensures kinds == DefaultKinds()
    {
      kinds := [];
      new;
      var all := DefaultKinds();
      var i := 0;
      while i < |all|
        invariant 0 <= i <= |all|
        invariant kinds == all[..i]
      {
        var _ := Add(all[i]);
        assert all[..i + 1] == all[..i] + [all[i]];
        i := i + 1;
      }
    }

    /**
     * `add`: stores the kind last and returns its id, the new number of
     * kinds as a `u32`.
     */
    method Add(kind: AccountKind) returns (id: AccountKindId)
      modifies this
      ensures kinds == old(kinds) + [kind]
      ensures id as int == |kinds| % 0x1_0000_0000
    {
      kinds := kinds + [kind];
      id := (|kinds| % 0x1_0000_0000) as AccountKindId;
    }

    /** `get`: position `id - 1`, which id 0 underflows. */
    function Get(id: AccountKindId): (r: Option<AccountKind>)
      reads this
      requires id >= 1
      ensures r == Lookup(kinds, id as int)
    {
      Lookup(kinds, id as int)
    }
  }

  /** The id `add` returns finds the added kind, and the kinds already there keep their ids. */
  lemma AddThenGet(before: seq<AccountKind>, kind: AccountKind)
    requires |before| < 0xFFFF_FFFF
    ensures var after := before + [kind];
            var id := (|after| % 0x1_0000_0000) as AccountKindId;
            id as int == |after| && Lookup(after, id as int) == Some(kind)
            && forall k :: 1 <= k < id as int ==> Lookup(after, k) == Lookup(before, k)
  {
  }

  /** In the default collection, ids 1 to 15 are the kinds in the order they were added. */
  lemma DefaultIds()
    ensures forall id :: 1 <= id <= 15 ==> Lookup(DefaultKinds(), id) == Some(DefaultKinds()[id - 1])
    ensures Lookup(DefaultKinds(), 16) == None
  {
  }

  /**
   * In the default collection the networth kinds are none of the income
   * and expense kinds, every trading kind counts in the networth and every
   * stock kind is a trading kind.
   */
  lemma DefaultFlagsConsistent()
    ensures forall i :: 0 <= i < 15 && DefaultKinds()[i].isNetworth ==> !IsExpense(DefaultKinds()[i]) && !IsIncome(DefaultKinds()[i])
    ensures forall i :: 0 <= i < 15 && DefaultKinds()[i].isTrading ==> DefaultKinds()[i].isNetworth
    ensures forall i :: 0 <= i < 15 && DefaultKinds()[i].isStock ==> DefaultKinds()[i].isTrading
  {
  }

  /** Ids 1 to 4 are income kinds, 5 to 7 expense kinds, the others neither. */
  lemma DefaultCategories()
    ensures forall i :: 0 <= i < 4 ==> IsIncome(DefaultKinds()[i])
    ensures forall i :: 4 <= i < 7 ==> IsExpense(DefaultKinds()[i])
    ensures forall i :: 7 <= i < 15 ==> !IsExpense(DefaultKinds()[i]) && !IsIncome(DefaultKinds()[i])
  {
  }
}
