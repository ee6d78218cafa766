/**
 * Accounts and the collection that stores them.  An account is known by
 * its id, the 1-based position at which it was added; its parent, if any,
 * is another id of the same collection.  Account names are either the
 * account's own (short) name or the names of all its ancestors joined by
 * "::" (the full name).
 */
module Accounts {
  import opened Wrappers
  import opened Utils

  /** `AccountId(u16)`. */
  newtype AccountId = x: int | 0 <= x < 0x1_0000

  datatype NameKind = Short | Full

  datatype Account = Account(
    name: string,
    institution: Option<nat>,
    parent: Option<AccountId>,
    description: Option<string>,
    iban: Option<string>,
    number: Option<string>,
    closed: bool,
    openedOn: Option<int>,
    kind: nat)

  /** `AccountId::inc`: the next id; the `u16` addition overflows (and panics) on the last one. */
  function Inc(id: AccountId): (r: AccountId)
    requires id < 0xFFFF
    ensures r as int == id as int + 1
  {
    id + 1
  }

  /** `set_parent`: the same account under another parent. */
  function SetParent(a: Account, parent: AccountId): (r: Account)
    ensures r.parent == Some(parent)
    ensures r.(parent := a.parent) == a
  {
    a.(parent := Some(parent))
  }

  /** The separator of the full name. */
  const PathSep := "::"

  /**
   * `name`: the short name, or the parent's full name, "::" and the short
   * name.  The source unwraps a missing account (a panic) and recurses
   * without end on a cycle of parents; `None` stands for both, `fuel`
   * bounding the number of ancestors followed.
   */
  function AccountName(accounts: seq<Account>, id: AccountId, kind: NameKind, fuel: nat): Option<string>
    decreases fuel
  {
    if id == 0 || |accounts| < id as int then None
    else
      var acc := accounts[id - 1];
      match kind
      case Short => Some(acc.name)
      case Full =>
        match acc.parent
        case None => Some(acc.name)
        case Some(p) =>
          if fuel == 0 then None
          else
            match AccountName(accounts, p, kind, fuel - 1)
            case None => None
            case Some(prefix) => Some(prefix + PathSep + acc.name)
  }

  /** The short name is the account's own name. */
  lemma ShortNameIsOwn(accounts: seq<Account>, id: AccountId, fuel: nat)
    requires 1 <= id as int <= |accounts|
    ensures AccountName(accounts, id, Short, fuel) == Some(accounts[id - 1].name)
  {
  }

  /**
   * A full name ends with the account's own name, preceded by "::" exactly
   * when the account has a parent.
   */
  lemma FullNameEndsWithOwn(accounts: seq<Account>, id: AccountId, fuel: nat)
    requires AccountName(accounts, id, Full, fuel).Some?
    ensures var n := AccountName(accounts, id, Full, fuel).value;
            var own := accounts[id - 1].name;
            && |own| <= |n| && n[|n| - |own|..] == own
            && (accounts[id - 1].parent.None? <==> n == own)
  {
    var acc := accounts[id - 1];
    var n := AccountName(accounts, id, Full, fuel).value;
    if acc.parent.Some? {
      var prefix := AccountName(accounts, acc.parent.value, Full, fuel - 1).value;
      assert n == prefix + PathSep + acc.name;
      assert |n| > |acc.name|;
    }
  }

  /** More fuel never changes a name that was already found: the name does not depend on the bound. */
  lemma {:induction false} FuelIrrelevant(accounts: seq<Account>, id: AccountId, kind: NameKind, fuel: nat, more: nat)
    requires fuel <= more
    requires AccountName(accounts, id, kind, fuel).Some?
    ensures AccountName(accounts, id, kind, more) == AccountName(accounts, id, kind, fuel)
    decreases fuel
  {
    var acc := accounts[id - 1];
    if kind == Full && acc.parent.Some? {
      FuelIrrelevant(accounts, acc.parent.value, kind, fuel - 1, more - 1);
    }
  }

  /**
   * The full name exists exactly when the chain of parents ends at a root
   * within `fuel` steps and every id on it is in the collection.
   */
  predicate ChainEnds(accounts: seq<Account>, id: AccountId, fuel: nat)
    decreases fuel
  {
    1 <= id as int <= |accounts|
    && match accounts[id - 1].parent
       case None => true
       case Some(p) => fuel > 0 && ChainEnds(accounts, p, fuel - 1)
  }

  lemma {:induction false} FullNameExistsIffChainEnds(accounts: seq<Account>, id: AccountId, fuel: nat)
    ensures AccountName(accounts, id, Full, fuel).Some? <==> ChainEnds(accounts, id, fuel)
    decreases fuel
  {
    if 1 <= id as int <= |accounts| && accounts[id - 1].parent.Some? && fuel > 0 {
      FullNameExistsIffChainEnds(accounts, accounts[id - 1].parent.value, fuel - 1);
    }
  }

  /** An account that is its own parent has no full name: the recursion never ends. */
  lemma {:induction false} SelfParentNeverEnds(accounts: seq<Account>, id: AccountId, fuel: nat)
    requires 1 <= id as int <= |accounts| && accounts[id - 1].parent == Some(id)
    ensures AccountName(accounts, id, Full, fuel) == None
    decreases fuel
  {
    if fuel > 0 {
      SelfParentNeverEnds(accounts, id, fuel - 1);
    }
  }

  class AccountCollection {
    var accounts: seq<Account>

    /** `Default`: no accounts. */
    constructor ()
      ensures accounts == []
    {
      accounts := [];
    }

    /**
     * `add`: stores the account last and returns its id, the new number of
     * accounts truncated to 16 bits by the `as u16` conversion.
     */
    method Add(account: Account) returns (id: AccountId)
      modifies this
      ensures accounts == old(accounts) + [account]
      ensures id as int == |accounts| % 0x1_0000
    {
      accounts := accounts + [account];
      id := (|accounts| % 0x1_0000) as AccountId;
    }

    /** `get` (and `get_mut`): position `id - 1`, which id 0 underflows. */
    function Get(id: AccountId): (r: Option<Account>)
      reads this
      requires id >= 1
      ensures r == Lookup(accounts, id as int)
    {
      Lookup(accounts, id as int)
    }

    /** `get_mut(id).unwrap().set_parent(parent)`: only that account's parent changes. */
    method SetParentOf(id: AccountId, parent: AccountId)
      requires 1 <= id as int <= |accounts|
      modifies this
      ensures accounts == old(accounts)[id - 1 := SetParent(old(accounts)[id - 1], parent)]
    {
      accounts := accounts[id - 1 := SetParent(accounts[id - 1], parent)];
    }

    /** `name`, with `fuel` bounding the ancestors followed. */
    function Name(id: AccountId, kind: NameKind, fuel: nat): Option<string>
      reads this
    {
      AccountName(accounts, id, kind, fuel)
    }
  }

  /** Below 65535 accounts, the id `add` returns is the new count, and `get` finds the added account under it. */
  lemma AddThenGet(before: seq<Account>, account: Account)
    requires |before| < 0xFFFF
    ensures var after := before + [account];
            var id := (|after| % 0x1_0000) as AccountId;
            id as int == |after| && Lookup(after, id as int) == Some(account)
            && forall k :: 1 <= k < id as int ==> Lookup(after, k) == Lookup(before, k)
  {
  }

  /** At 65535 accounts the 16-bit id wraps to 0, an id `get` cannot take. */
  lemma AddWrapsAtLimit(before: seq<Account>, account: Account)
    requires |before| == 0xFFFF
    ensures (|before + [account]| % 0x1_0000) == 0
  {
  }

  /** Adding an account leaves every name of the accounts already there unchanged. */
  lemma {:induction false} AddKeepsNames(before: seq<Account>, account: Account, id: AccountId, kind: NameKind, fuel: nat)
    requires AccountName(before, id, kind, fuel).Some?
    ensures AccountName(before + [account], id, kind, fuel) == AccountName(before, id, kind, fuel)
    decreases fuel
  {
    var acc := before[id - 1];
    assert (before + [account])[id - 1] == acc;
    if kind == Full && acc.parent.Some? {
      AddKeepsNames(before, account, acc.parent.value, kind, fuel - 1);
    }
  }

  /**
   * After `set_parent(p)` on an account, its full name is the full name of
   * `p`, "::" and its own name, provided the name of `p` does not go
   * through the account itself.
   */
  lemma {:induction false} SetParentFullName(accounts: seq<Account>, id: AccountId, parent: AccountId, fuel: nat)
    requires 1 <= id as int <= |accounts|
    requires AccountName(accounts, parent, Full, fuel).Some?
    requires id !in AncestorsAndSelf(accounts, parent, fuel)
    ensures var after := accounts[id - 1 := SetParent(accounts[id - 1], parent)];
            AccountName(after, id, Full, fuel + 1)
              == Some(AccountName(accounts, parent, Full, fuel).value + PathSep + accounts[id - 1].name)
  {
    UnrelatedNameKept(accounts, id, parent, parent, fuel);
  }

  /** The account itself and the ids of its ancestors that the full name goes through. */
  function AncestorsAndSelf(accounts: seq<Account>, id: AccountId, fuel: nat): set<AccountId>
    decreases fuel
  {
    if id == 0 || |accounts| < id as int then {id}
    else match accounts[id - 1].parent
      case None => {id}
      case Some(p) => if fuel == 0 then {id} else {id} + AncestorsAndSelf(accounts, p, fuel - 1)
  }

  /** Changing the parent of an account the name does not go through leaves that name alone. */
  lemma {:induction false} UnrelatedNameKept(accounts: seq<Account>, id: AccountId, parent: AccountId, other: AccountId, fuel: nat)
    requires 1 <= id as int <= |accounts|
    requires id !in AncestorsAndSelf(accounts, other, fuel)
    ensures AccountName(accounts[id - 1 := SetParent(accounts[id - 1], parent)], other, Full, fuel)
            == AccountName(accounts, other, Full, fuel)
    decreases fuel
  {
    if other != 0 && other as int <= |accounts| {
      var acc := accounts[other - 1];
      if acc.parent.Some? && fuel > 0 {
        UnrelatedNameKept(accounts, id, parent, acc.parent.value, fuel - 1);
      }
    }
  }
}
