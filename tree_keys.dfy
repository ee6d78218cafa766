/**
 * The keys of the account trees: an account, an institution (or none) or
 * an account kind (or none).  The keys are ordered so that institutions
 * come first, then account kinds, then accounts, each group by name, the
 * missing institution and kind after the named ones.
 *
 * The source holds references to the objects; here an object is a record
 * with an identity, so two distinct objects with the same name are
 * distinct values.
 */
module TreeKeys {
  import opened Wrappers
  import opened Text

  /** An account, institution or account kind, known by its identity. */
  datatype Named = Named(id: nat, name: string)

  datatype Key =
    | Account(account: Named)
    | Institution(institution: Option<Named>)
    | AccountKind(kind: Option<Named>)

  /** `Ord::cmp` for keys. */
  function Cmp(a: Key, b: Key): Ordering {
    match a
    case Account(ka) =>
      (match b
       case Account(ra) => CmpStr(ka.name, ra.name)
       case _ => Greater)
    case Institution(Some(ki)) =>
      (match b
       case Account(_) => Less
       case AccountKind(_) => Less
       case Institution(Some(ri)) => CmpStr(ki.name, ri.name)
       case Institution(None) => Less)
    case Institution(None) =>
      (match b
       case Account(_) => Less
       case AccountKind(_) => Less
       case Institution(Some(_)) => Greater
       case Institution(None) => Equal)
    case AccountKind(None) =>
      (match b
       case Account(_) => Less
       case Institution(_) => Greater
       case AccountKind(Some(_)) => Greater
       case AccountKind(None) => Equal)
    case AccountKind(Some(kk)) =>
      (match b
       case Account(_) => Less
       case Institution(_) => Greater
       case AccountKind(Some(vk)) => CmpStr(kk.name, vk.name)
       case AccountKind(None) => Less)
  }

  /**
   * `PartialEq::eq` for keys: the same object for accounts and named
   * institutions, the order's `Equal` for the others.
   */
  function Eq(a: Key, b: Key): bool {
    match a
    case Account(la) => (match b case Account(ra) => la == ra case _ => false)
    case Institution(Some(li)) => (match b case Institution(Some(ri)) => li == ri case _ => false)
    case _ => Cmp(a, b) == Equal
  }

  /** The position of a key's variant in the order. */
  function Rank(k: Key): (r: nat)
    ensures r <= 4
  {
    match k
    case Institution(Some(_)) => 0
    case Institution(None) => 1
    case AccountKind(Some(_)) => 2
    case AccountKind(None) => 3
    case Account(_) => 4
  }

  /** The name a key sorts by within its variant, if any. */
  function SortName(k: Key): Option<string> {
    match k
    case Account(a) => Some(a.name)
    case Institution(Some(i)) => Some(i.name)
    case AccountKind(Some(k)) => Some(k.name)
    case _ => None
  }

  /**
   * The order as a reference definition: institutions with a name, the
   * missing institution, account kinds with a name, the missing kind and
   * the accounts, in that order, then by name within each variant.
   */
  lemma CmpByRankThenName(a: Key, b: Key)
    ensures Rank(a) != Rank(b) ==> Cmp(a, b) == CmpInt(Rank(a), Rank(b))
    ensures Rank(a) == Rank(b) && SortName(a).Some? ==> SortName(b).Some? && Cmp(a, b) == CmpStr(SortName(a).value, SortName(b).value)
    ensures Rank(a) == Rank(b) && SortName(a).None? ==> Cmp(a, b) == Equal
  {
  }

  /** Comparing the other way round gives the reverse ordering. */
  lemma CmpAntisymmetric(a: Key, b: Key)
    ensures Cmp(a, b) == Reverse(Cmp(b, a))
  {
    CmpByRankThenName(a, b);
    CmpByRankThenName(b, a);
    if Rank(a) == Rank(b) && SortName(a).Some? {
      CmpStrAntisymmetric(SortName(a).value, SortName(b).value);
    }
  }

  /** The order is transitive, strictly so when one step is strict. */
  lemma CmpTransitive(a: Key, b: Key, c: Key)
    requires Cmp(a, b) != Greater && Cmp(b, c) != Greater
    ensures Cmp(a, c) != Greater
    ensures Cmp(a, b) == Less || Cmp(b, c) == Less ==> Cmp(a, c) == Less
  {
    CmpByRankThenName(a, b);
    CmpByRankThenName(b, c);
    CmpByRankThenName(a, c);
    if Rank(a) == Rank(b) == Rank(c) && SortName(a).Some? {
      CmpStrTransitive(SortName(a).value, SortName(b).value, SortName(c).value);
    }
  }

  /** Equal keys compare as `Equal`, and `eq` is reflexive and symmetric. */
  lemma EqConsistentWithCmp(a: Key, b: Key)
    ensures Eq(a, b) ==> Cmp(a, b) == Equal
    ensures Eq(a, a)
    ensures Eq(a, b) == Eq(b, a)
  {
    CmpAntisymmetric(a, b);
    CmpByRankThenName(a, a);
  }

  /** `eq` tells objects apart by identity for accounts and named institutions, and by the order otherwise. */
  lemma EqByIdentity(a: Key, b: Key)
    ensures (a.Account? || (a.Institution? && a.institution.Some?)) ==> (Eq(a, b) <==> a == b)
    ensures a.AccountKind? || (a.Institution? && a.institution.None?) ==> (Eq(a, b) <==> Cmp(a, b) == Equal)
  {
  }

  /**
   * Two distinct accounts with the same name compare as `Equal` yet are
   * not `eq`: the order alone does not tell them apart.
   */
  lemma SameNameAccounts(name: string)
    ensures var a, b := Account(Named(1, name)), Account(Named(2, name));
            Cmp(a, b) == Equal && !Eq(a, b)
  {
  }

  /** Two account kinds with the same name are `eq` even when they are distinct objects. */
  lemma SameNameKinds(name: string)
    ensures var a, b := AccountKind(Some(Named(1, name))), AccountKind(Some(Named(2, name)));
            Cmp(a, b) == Equal && Eq(a, b)
  {
  }

  /** The orderings the tests of the source expect between sample keys. */
  lemma SampleOrder()
    ensures var accA, accB := Account(Named(1, "aaa")), Account(Named(2, "bbb"));
            var instC, instD, instNone := Institution(Some(Named(3, "ccc"))), Institution(Some(Named(4, "ddd"))), Institution(None);
            var kindE, kindF, kindNone := AccountKind(Some(Named(5, "eee"))), AccountKind(Some(Named(6, "fff"))), AccountKind(None);
            && Eq(accA, accA) && Cmp(accA, accB) == Less
            && Cmp(instC, instD) == Less && Cmp(instC, instNone) == Less && Eq(instNone, instNone)
            && Cmp(kindE, kindF) == Less && Cmp(kindE, kindNone) == Less && Eq(kindNone, kindNone)
            && Cmp(instC, accA) == Less && Cmp(instNone, accA) == Less
            && Cmp(kindNone, accA) == Less && Cmp(kindE, accA) == Less
            && Cmp(kindNone, instC) == Greater && Cmp(kindE, instC) == Greater
  {
  }
}
