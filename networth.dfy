/**
 * The networth view: one row per account, with the account's value and
 * market value at each of a series of timestamps (the columns), plus a
 * total row.  In tree mode the parents of the accounts get rows of their
 * own, which with subtotals also add up the values of their descendants.
 * Rows are then filtered and sorted by full account name.
 *
 * Rows are plain values owned by the view, so `merge` is a method that
 * returns the merged row.  The repository is not modelled: the balances,
 * the full account names, the parents of an account and the conversion
 * to market value are given to the build as data and functions.  A
 * timestamp is known by its column index.
 */
module Networth {
  import opened Wrappers
  import opened MultiValues
  import opened Text
  import Utils
  import Accounts

  type AccountId = Accounts.AccountId

  /** The settings the build and the filter read (the column choices only matter for display). */
  datatype Settings = Settings(hideZero: bool, hideAllSame: bool, tree: bool, subtotals: bool)

  datatype NetworthRow = NetworthRow(
    value: seq<MultiValue>,
    marketValue: seq<MultiValue>,
    account: Option<AccountId>,
    indent: nat,
    hasChildren: bool,
    fullAccountName: string)

  predicate AllNormalized(s: seq<MultiValue>) {
    forall i :: 0 <= i < |s| ==> IsNormalized(s[i])
  }

  predicate AllZero(s: seq<MultiValue>) {
    forall i :: 0 <= i < |s| ==> IsZero(s[i])
  }

  /** A row with `size` columns of normalized values. */
  predicate WellFormed(row: NetworthRow, size: nat) {
    |row.value| == size && |row.marketValue| == size
    && AllNormalized(row.value) && AllNormalized(row.marketValue)
  }

  function Zeros(size: nat): (r: seq<MultiValue>)
    ensures |r| == size && AllZero(r) && AllNormalized(r)
  {
    seq(size, i => Zero)
  }

  /**
   * `NetworthRow::new`: zero values, the account's full name (empty for
   * the total row, which has no account) and no children.
   */
  function NewRow(size: nat, account: Option<AccountId>, fullName: AccountId -> string, indent: nat): (r: NetworthRow)
    ensures WellFormed(r, size) && AllZero(r.value) && AllZero(r.marketValue)
    ensures r.account == account && r.indent == indent && !r.hasChildren
    ensures r.fullAccountName == if account.Some? then fullName(account.value) else ""
  {
    NetworthRow(Zeros(size), Zeros(size), account,
                indent, false, if account.Some? then fullName(account.value) else "")
  }

  /** `new_with_children`: the same row, marked as having children. */
  function NewRowWithChildren(size: nat, account: Option<AccountId>, fullName: AccountId -> string, indent: nat): (r: NetworthRow)
    ensures r.hasChildren && r.(hasChildren := false) == NewRow(size, account, fullName, indent)
  {
    NewRow(size, account, fullName, indent).(hasChildren := true)
  }

  // ---------------------------------------------------------------------
  // Merging rows
  // ---------------------------------------------------------------------

  /** The first `n` columns of `a` with those of `b` added in, the others as in `a`. */
  function AddColumns(a: seq<MultiValue>, b: seq<MultiValue>, n: nat): (r: seq<MultiValue>)
    requires n <= |a| && n <= |b| && AllNormalized(a) && AllNormalized(b)
    ensures |r| == |a| && AllNormalized(r)
    ensures forall i, c :: 0 <= i < n ==> AmountOf(r[i], c) == AmountOf(a[i], c) + AmountOf(b[i], c)
    ensures forall i :: n <= i < |a| ==> r[i] == a[i]
  {
    seq(|a|, i requires 0 <= i < |a| => if i < n then Add(a[i], b[i]) else a[i])
  }

  /** What `merge` must produce: both kinds of value added column by column. */
  predicate MergeArgs(left: NetworthRow, right: NetworthRow) {
    && |left.value| <= |left.marketValue|
    && |left.value| <= |right.value| && |left.value| <= |right.marketValue|
    && AllNormalized(left.value) && AllNormalized(left.marketValue)
    && AllNormalized(right.value) && AllNormalized(right.marketValue)
  }

  function Merged(left: NetworthRow, right: NetworthRow): (r: NetworthRow)
    requires MergeArgs(left, right)
  {
    left.(value := AddColumns(left.value, right.value, |left.value|),
          marketValue := AddColumns(left.marketValue, right.marketValue, |left.value|),
          hasChildren := left.hasChildren || right.hasChildren)
  }

  /**
   * `merge`: adds the values and market values of `right` into those of
   * `left` for every column of `left`, and ORs the children flags; the
   * account, indentation and name of `left` stay.
   */
  method Merge(left: NetworthRow, right: NetworthRow) returns (r: NetworthRow)
    requires MergeArgs(left, right)
    ensures r == Merged(left, right)
    ensures |r.value| == |left.value| && |r.marketValue| == |left.marketValue|
    ensures forall i, c :: 0 <= i < |left.value| ==>
              AmountOf(r.value[i], c) == AmountOf(left.value[i], c) + AmountOf(right.value[i], c)
              && AmountOf(r.marketValue[i], c) == AmountOf(left.marketValue[i], c) + AmountOf(right.marketValue[i], c)
    ensures r.account == left.account && r.indent == left.indent && r.fullAccountName == left.fullAccountName
    ensures r.hasChildren == (left.hasChildren || right.hasChildren)
  {
    var values, marketValues := left.value, left.marketValue;
    var idx := 0;
    while idx < |left.value|
      invariant 0 <= idx <= |left.value|
      invariant values == AddColumns(left.value, right.value, idx)
      invariant marketValues == AddColumns(left.marketValue, right.marketValue, idx)
    {
      var v := AddAssign(values[idx], right.value[idx]);
      var mv := AddAssign(marketValues[idx], right.marketValue[idx]);
      AddColumnsStep(left.value, right.value, idx);
      AddColumnsStep(left.marketValue, right.marketValue, idx);
      values, marketValues := values[idx := v], marketValues[idx := mv];
      idx := idx + 1;
    }
    r := left.(value := values, marketValue := marketValues,
               hasChildren := left.hasChildren || right.hasChildren);
  }

  /** One more column added. */
  lemma AddColumnsStep(a: seq<MultiValue>, b: seq<MultiValue>, n: nat)
    requires n < |a| && n < |b| && AllNormalized(a) && AllNormalized(b)
    ensures AddColumns(a, b, n)[n := Add(AddColumns(a, b, n)[n], b[n])] == AddColumns(a, b, n + 1)
  {
    var x, y := AddColumns(a, b, n)[n := Add(AddColumns(a, b, n)[n], b[n])], AddColumns(a, b, n + 1);
    forall i | 0 <= i < |a|
      ensures x[i] == y[i]
    {
      if i < n {
        Extensionality(x[i], y[i]);
      }
    }
  }

  /** Merging rows of `size` columns keeps `size` normalized columns. */
  lemma MergedWellFormed(left: NetworthRow, right: NetworthRow, size: nat)
    requires WellFormed(left, size) && WellFormed(right, size)
    ensures MergeArgs(left, right) && WellFormed(Merged(left, right), size)
  {
  }

  /** Merging two rows into a third one gives the same values in either order. */
  lemma MergeOrderIrrelevant(base: NetworthRow, x: NetworthRow, y: NetworthRow, size: nat)
    requires WellFormed(base, size) && WellFormed(x, size) && WellFormed(y, size)
    ensures MergeArgs(base, x) && MergeArgs(base, y)
            && MergeArgs(Merged(base, x), y) && MergeArgs(Merged(base, y), x)
            && Merged(Merged(base, x), y) == Merged(Merged(base, y), x)
  {
    MergedWellFormed(base, x, size);
    MergedWellFormed(base, y, size);
    var xy, yx := Merged(Merged(base, x), y), Merged(Merged(base, y), x);
    forall i | 0 <= i < size
      ensures xy.value[i] == yx.value[i] && xy.marketValue[i] == yx.marketValue[i]
    {
      Extensionality(xy.value[i], yx.value[i]);
      Extensionality(xy.marketValue[i], yx.marketValue[i]);
    }
  }

  // ---------------------------------------------------------------------
  // Which rows are kept
  // ---------------------------------------------------------------------

  /**
   * The retention rule as written: rows with children are kept; otherwise
   * `hide_zero` drops a row whose values and market values are all zero,
   * and `hide_all_same` drops a row whose values and market values are
   * each the same in every column, which is always the case with a single
   * column.
   */
  predicate KeepRowAsWritten(settings: Settings, row: NetworthRow) {
    row.hasChildren
    || ((!settings.hideZero || !AllZero(row.value) || !AllZero(row.marketValue))
        && (!settings.hideAllSame || !Utils.IsAllSame(row.value) || !Utils.IsAllSame(row.marketValue)))
  }

  /**
   * The retention rule as documented: `hide_all_same` only applies when
   * there are at least two timestamps, so that with a single one the rows
   * are always displayed.
   */
  predicate KeepRow(settings: Settings, row: NetworthRow) {
    row.hasChildren
    || ((!settings.hideZero || !AllZero(row.value) || !AllZero(row.marketValue))
        && (!settings.hideAllSame || |row.value| < 2
            || !Utils.IsAllSame(row.value) || !Utils.IsAllSame(row.marketValue)))
  }

  /** With `hide_all_same`, the rule as written drops a childless non-zero row shown at a single timestamp. */
  lemma SingleColumnDroppedAsWritten()
    ensures var row := NetworthRow([One(Value(1.0, 1))], [One(Value(1.0, 1))], Some(1), 0, false, "Assets");
            var settings := Settings(false, true, false, false);
            !KeepRowAsWritten(settings, row) && KeepRow(settings, row)
  {
  }

  /** The documented rule keeps every row that has a single column unless it is hidden for being zero. */
  lemma SingleColumnKept(settings: Settings, row: NetworthRow)
    requires |row.value| < 2
    ensures KeepRow(settings, row) <==> row.hasChildren || !settings.hideZero || !AllZero(row.value) || !AllZero(row.marketValue)
  {
  }

  /** Both rules agree as soon as there are two columns or more. */
  lemma RulesAgreeOnSeveralColumns(settings: Settings, row: NetworthRow)
    requires |row.value| >= 2
    ensures KeepRow(settings, row) == KeepRowAsWritten(settings, row)
  {
  }

  /** Parent rows are always kept; with no hiding setting every row is. Both hold of both rules. */
  lemma ParentsAndUnfilteredKept(settings: Settings, row: NetworthRow)
    ensures row.hasChildren ==> KeepRowAsWritten(settings, row) && KeepRow(settings, row)
    ensures !settings.hideZero && !settings.hideAllSame ==> KeepRowAsWritten(settings, row) && KeepRow(settings, row)
  {
  }

  /**
   * `hide_zero` drops exactly the childless rows whose columns are all zero
   * (when `hide_all_same` is off); the documented rule drops the same rows.
   */
  lemma HideZeroDrops(settings: Settings, row: NetworthRow)
    requires settings.hideZero && !settings.hideAllSame
    ensures !KeepRowAsWritten(settings, row) <==> !row.hasChildren && AllZero(row.value) && AllZero(row.marketValue)
    ensures KeepRow(settings, row) == KeepRowAsWritten(settings, row)
  {
  }

  /**
   * `hide_all_same` drops exactly the childless rows whose value and market
   * value are each constant, i.e. equal to the first column (when
   * `hide_zero` is off), whatever the number of columns.
   */
  lemma HideAllSameDrops(settings: Settings, row: NetworthRow)
    requires !settings.hideZero && settings.hideAllSame
    ensures !KeepRowAsWritten(settings, row) <==>
              && !row.hasChildren
              && (forall i :: 0 <= i < |row.value| ==> row.value[i] == row.value[0])
              && (forall i :: 0 <= i < |row.marketValue| ==> row.marketValue[i] == row.marketValue[0])
  {
    Utils.AllSameIffAllEqualFirst(row.value);
    Utils.AllSameIffAllEqualFirst(row.marketValue);
  }

  /** `retain`: the rows that the rule as written keeps, in their order. */
  function Retain(lines: seq<NetworthRow>, settings: Settings): (r: seq<NetworthRow>)
    ensures |r| <= |lines|
    ensures forall k :: 0 <= k < |r| ==> KeepRowAsWritten(settings, r[k])
  {
    if lines == [] then []
    else
      var rest := Retain(lines[..|lines| - 1], settings);
      if KeepRowAsWritten(settings, lines[|lines| - 1]) then rest + [lines[|lines| - 1]] else rest
  }

  /** A row is retained exactly when it was a line and the rule keeps it, as often as it was there. */
  lemma {:induction false} RetainExactly(lines: seq<NetworthRow>, settings: Settings)
    ensures forall row :: multiset(Retain(lines, settings))[row] == if KeepRowAsWritten(settings, row) then multiset(lines)[row] else 0
  {
    if lines != [] {
      var init, last := lines[..|lines| - 1], lines[|lines| - 1];
      RetainExactly(init, settings);
      assert lines == init + [last];
    }
  }

  /**
   * With several timestamps the rows kept are those the documented rule
   * keeps: the gap between code and documentation is the single column.
   */
  lemma {:induction false} RetainIntendedOnSeveralColumns(lines: seq<NetworthRow>, settings: Settings)
    requires forall k :: 0 <= k < |lines| ==> |lines[k].value| >= 2
    ensures forall row :: row in Retain(lines, settings) <==> row in lines && KeepRow(settings, row)
  {
    RetainExactly(lines, settings);
    forall row | row in lines
      ensures KeepRow(settings, row) == KeepRowAsWritten(settings, row)
    {
      var k :| 0 <= k < |lines| && lines[k] == row;
      RulesAgreeOnSeveralColumns(settings, row);
    }
  }

  // ---------------------------------------------------------------------
  // Sorting rows by full account name
  // ---------------------------------------------------------------------

  predicate SortedByName(lines: seq<NetworthRow>) {
    forall i, j :: 0 <= i < j < |lines| ==> CmpStr(lines[i].fullAccountName, lines[j].fullAccountName) != Greater
  }

  /** Inserts `row` before the first line whose name is greater. */
  function InsertByName(row: NetworthRow, lines: seq<NetworthRow>): (r: seq<NetworthRow>)
    ensures multiset(r) == multiset(lines) + multiset{row}
  {
    if lines == [] then [row]
    else
      assert lines == [lines[0]] + lines[1..];
      if CmpStr(row.fullAccountName, lines[0].fullAccountName) == Greater then
      [lines[0]] + InsertByName(row, lines[1..])
    else
      [row] + lines
  }

  /** `sort_by` on the full account names. */
  function SortByName(lines: seq<NetworthRow>): (r: seq<NetworthRow>)
    ensures multiset(r) == multiset(lines)
  {
    if lines == [] then []
    else
      assert lines == [lines[0]] + lines[1..];
      InsertByName(lines[0], SortByName(lines[1..]))
  }

  lemma {:induction false} InsertByNameSorted(row: NetworthRow, lines: seq<NetworthRow>)
    requires SortedByName(lines)
    ensures SortedByName(InsertByName(row, lines))
  {
    if lines != [] {
      var r := InsertByName(row, lines);
      if CmpStr(row.fullAccountName, lines[0].fullAccountName) == Greater {
        InsertByNameSorted(row, lines[1..]);
        CmpStrAntisymmetric(row.fullAccountName, lines[0].fullAccountName);
        forall j | 0 < j < |r|
          ensures CmpStr(r[0].fullAccountName, r[j].fullAccountName) != Greater
        {
          assert r[j] in multiset(InsertByName(row, lines[1..]));
          assert r[j] == row || r[j] in lines[1..];
        }
      } else {
        forall j | 1 < j < |r|
          ensures CmpStr(r[0].fullAccountName, r[j].fullAccountName) != Greater
        {
          CmpStrTransitive(row.fullAccountName, lines[0].fullAccountName, r[j].fullAccountName);
        }
      }
    }
  }

  /** The sorted lines are in order of full name and hold the same rows. */
  lemma {:induction false} SortByNameSorted(lines: seq<NetworthRow>)
    ensures SortedByName(SortByName(lines)) && multiset(SortByName(lines)) == multiset(lines)
  {
    if lines != [] {
      SortByNameSorted(lines[1..]);
      InsertByNameSorted(lines[0], SortByName(lines[1..]));
    }
  }

  /** The lines whose full account name is `name`, in their order. */
  function Named(lines: seq<NetworthRow>, name: string): seq<NetworthRow> {
    if lines == [] then []
    else (if lines[0].fullAccountName == name then [lines[0]] else []) + Named(lines[1..], name)
  }

  /** `Named` keeps exactly the lines of that name. */
  lemma {:induction false} NamedMeaning(lines: seq<NetworthRow>, name: string)
    ensures |Named(lines, name)| <= |lines|
    ensures forall row :: row in Named(lines, name) <==> row in lines && row.fullAccountName == name
  {
    if lines != [] {
      NamedMeaning(lines[1..], name);
      assert lines == [lines[0]] + lines[1..];
    }
  }

  /** `Named` of a line in front of others. */
  lemma NamedCons(x: NetworthRow, xs: seq<NetworthRow>, name: string)
    ensures Named([x] + xs, name) == Named([x], name) + Named(xs, name)
  {
    assert ([x] + xs)[0] == x && ([x] + xs)[1..] == xs;
    assert Named([x], name) == (if x.fullAccountName == name then [x] else []) + Named([], name);
  }

  /** Two lines of different names can trade places without changing `Named`. */
  lemma SwapDifferentNames(x: NetworthRow, row: NetworthRow, rest: seq<NetworthRow>, name: string)
    requires x.fullAccountName != row.fullAccountName
    ensures Named([x], name) + (Named([row], name) + Named(rest, name)) == Named([row], name) + Named([x] + rest, name)
  {
    NamedCons(x, rest, name);
    NamedCons(x, [], name);
    NamedCons(row, [], name);
    if x.fullAccountName == name {
      assert Named([row], name) == [];
    } else {
      assert Named([x], name) == [];
    }
  }

  /** Inserting `row` moves it only past lines with a smaller, so different, name. */
  lemma {:induction false} InsertByNameStable(row: NetworthRow, lines: seq<NetworthRow>, name: string)
    ensures Named(InsertByName(row, lines), name) == Named([row], name) + Named(lines, name)
  {
    if lines == [] {
      assert InsertByName(row, lines) == [row];
    } else {
      var x, rest := lines[0], lines[1..];
      assert lines == [x] + rest;
      if CmpStr(row.fullAccountName, x.fullAccountName) == Greater {
        var inserted := InsertByName(row, rest);
        assert InsertByName(row, lines) == [x] + inserted;
        InsertByNameStable(row, rest, name);
        NamedCons(x, inserted, name);
        SwapDifferentNames(x, row, rest, name);
      } else {
        assert InsertByName(row, lines) == [row] + lines;
        NamedCons(row, lines, name);
      }
    }
  }

  /** `sort_by` is stable: lines with the same full name keep their relative order. */
  lemma {:induction false} SortByNameStable(lines: seq<NetworthRow>, name: string)
    ensures Named(SortByName(lines), name) == Named(lines, name)
  {
    if lines != [] {
      SortByNameStable(lines[1..], name);
      InsertByNameStable(lines[0], SortByName(lines[1..]), name);
    }
  }

  // ---------------------------------------------------------------------
  // Building the lines
  // ---------------------------------------------------------------------

  /** One entry of the repository's balance: an account and its value at each timestamp. */
  datatype Balance = Balance(account: AccountId, value: seq<MultiValue>)

  /**
   * What the build reads besides the balances: the number of columns, the
   * settings, the full name and the parents (root first) of an account, and
   * the conversion of a value to the market commodity at a column.
   */
  datatype Env = Env(
    size: nat,
    settings: Settings,
    fullName: AccountId -> string,
    parents: AccountId -> seq<AccountId>,
    convert: (MultiValue, nat) -> MultiValue)

  /** The conversion keeps values normalized, as the `+=` that adds its results expects. */
  ghost predicate ConvertsNormalized(convert: (MultiValue, nat) -> MultiValue) {
    forall v, i :: IsNormalized(v) ==> IsNormalized(convert(v, i))
  }

  /** A balance has one normalized value per column. */
  predicate BalanceOk(env: Env, b: Balance) {
    |b.value| == env.size && AllNormalized(b.value)
  }

  /** The lines built so far, the line of each account seen (`parent_nodes`) and the total row. */
  datatype Building = Building(lines: seq<NetworthRow>, nodes: map<AccountId, nat>, total: NetworthRow)

  /** Every recorded line is the line of its account, and every row has `size` normalized columns. */
  predicate Valid(size: nat, st: Building) {
    && (forall a :: a in st.nodes ==> st.nodes[a] < |st.lines| && st.lines[st.nodes[a]].account == Some(a))
    && (forall k :: 0 <= k < |st.lines| ==> WellFormed(st.lines[k], size))
    && WellFormed(st.total, size)
  }

  /** The state before the first balance: no lines and a zero total row without account. */
  function Start(env: Env): (r: Building)
    ensures Valid(env.size, r) && r.lines == [] && r.nodes == map[]
    ensures AllZero(r.total.value) && AllZero(r.total.marketValue) && r.total.account == None
  {
    Building([], map[], NewRow(env.size, None, env.fullName, 0))
  }

  /** The market value of each column: the converted value, or zero when the value is zero. */
  function MarketColumns(value: seq<MultiValue>, convert: (MultiValue, nat) -> MultiValue): (r: seq<MultiValue>)
    ensures |r| == |value|
    ensures ConvertsNormalized(convert) && AllNormalized(value) ==> AllNormalized(r)
  {
    seq(|value|, i requires 0 <= i < |value| => if IsZero(value[i]) then Zero else convert(value[i], i))
  }

  /** The row of an account: its balance, the market values, no indentation yet. */
  function AccountRow(env: Env, b: Balance): (r: NetworthRow)
    requires ConvertsNormalized(env.convert) && BalanceOk(env, b)
    ensures WellFormed(r, env.size) && r.value == b.value && r.account == Some(b.account)
  {
    NewRow(env.size, Some(b.account), env.fullName, 0).(value := b.value, marketValue := MarketColumns(b.value, env.convert))
  }

  /** The total row with the row's values and market values added in. */
  function AddToTotal(total: NetworthRow, row: NetworthRow, size: nat): (r: NetworthRow)
    requires WellFormed(total, size) && WellFormed(row, size)
    ensures WellFormed(r, size)
  {
    MergedWellFormed(total, row, size);
    Merged(total, row)
  }

  /** `parent_nodes.entry(p).or_insert_with(..)`: a new parent row is pushed for an account not seen yet. */
  function EnsureParent(env: Env, st: Building, p: AccountId, pidx: nat): (r: Building)
    requires Valid(env.size, st)
    ensures Valid(env.size, r) && r.nodes.Keys == st.nodes.Keys + {p} && r.total == st.total
  {
    if p in st.nodes then st
    else Building(st.lines + [NewRowWithChildren(env.size, Some(p), env.fullName, pidx)], st.nodes[p := |st.lines|], st.total)
  }

  /** The line of parent `p` gets children, and with subtotals the row's values. */
  function MarkParent(env: Env, st: Building, row: NetworthRow, p: AccountId): (r: Building)
    requires Valid(env.size, st) && p in st.nodes && WellFormed(row, env.size)
    ensures Valid(env.size, r) && r.nodes == st.nodes && r.total == st.total
    ensures r.lines[r.nodes[p]].hasChildren
  {
    var n := st.nodes[p];
    var line := st.lines[n].(hasChildren := true);
    MergedWellFormed(line, row, env.size);
    st.(lines := st.lines[n := if env.settings.subtotals then Merged(line, row) else line])
  }

  /** The parents loop of the tree mode, from parent `pidx` on. */
  function AddParents(env: Env, st: Building, row: NetworthRow, ps: seq<AccountId>, pidx: nat): (r: Building)
    requires Valid(env.size, st) && WellFormed(row, env.size)
    ensures Valid(env.size, r) && r.total == st.total && st.nodes.Keys <= r.nodes.Keys
    decreases |ps|
  {
    if ps == [] then st
    else AddParents(env, MarkParent(env, EnsureParent(env, st, ps[0], pidx), row, ps[0]), row, ps[1..], pidx + 1)
  }

  /** `parent_nodes.entry(p).or_insert_with(..)`. */
  method EnsureParentEntry(env: Env, st: Building, p: AccountId, pidx: nat) returns (r: Building)
    requires Valid(env.size, st)
    ensures r == EnsureParent(env, st, p, pidx)
  {
    r := st;
    if p !in st.nodes {
      r := Building(st.lines + [NewRowWithChildren(env.size, Some(p), env.fullName, pidx)], st.nodes[p := |st.lines|], st.total);
    }
  }

  /** `result.lines[*n].has_children = true`, then the merge with subtotals. */
  method MarkParentEntry(env: Env, st: Building, row: NetworthRow, p: AccountId) returns (r: Building)
    requires Valid(env.size, st) && p in st.nodes && WellFormed(row, env.size)
    ensures r == MarkParent(env, st, row, p)
  {
    var n := st.nodes[p];
    var line := st.lines[n].(hasChildren := true);
    if env.settings.subtotals {
      MergedWellFormed(line, row, env.size);
      line := Merge(line, row);
    }
    r := st.(lines := st.lines[n := line]);
  }

  /** The account's own entry: merged into its line if it already has one, pushed otherwise. */
  function AddOwn(env: Env, st: Building, row: NetworthRow): (r: Building)
    requires Valid(env.size, st) && WellFormed(row, env.size) && row.account.Some?
    ensures Valid(env.size, r) && r.nodes.Keys == st.nodes.Keys + {row.account.value} && r.total == st.total
  {
    var a := row.account.value;
    if a in st.nodes then
      var n := st.nodes[a];
      MergedWellFormed(st.lines[n], row, env.size);
      st.(lines := st.lines[n := Merged(st.lines[n], row)])
    else
      Building(st.lines + [row], st.nodes[a := |st.lines|], st.total)
  }

  /** The row of a balance as the build uses it: indented by its number of parents in tree mode. */
  function IndentedRow(env: Env, b: Balance): (r: NetworthRow)
    requires ConvertsNormalized(env.convert) && BalanceOk(env, b)
    ensures WellFormed(r, env.size) && r.value == b.value && r.account == Some(b.account)
  {
    var row := AccountRow(env, b);
    if env.settings.tree then row.(indent := |env.parents(b.account)|) else row
  }

  /** One balance: the total, then in tree mode the parents, then the account's own line. */
  function Step(env: Env, st: Building, b: Balance): (r: Building)
    requires Valid(env.size, st) && ConvertsNormalized(env.convert) && BalanceOk(env, b)
    ensures Valid(env.size, r) && st.nodes.Keys + {b.account} <= r.nodes.Keys
  {
    var row := IndentedRow(env, b);
    var st1 := st.(total := AddToTotal(st.total, row, env.size));
    var st2 := if env.settings.tree then AddParents(env, st1, row, env.parents(b.account), 0) else st1;
    AddOwn(env, st2, row)
  }

  predicate BalancesOk(env: Env, bs: seq<Balance>) {
    forall k :: 0 <= k < |bs| ==> BalanceOk(env, bs[k])
  }

  /** All balances, in the order the balance map is iterated. */
  function Build(env: Env, st: Building, bs: seq<Balance>): (r: Building)
    requires Valid(env.size, st) && ConvertsNormalized(env.convert) && BalancesOk(env, bs)
    ensures Valid(env.size, r) && st.nodes.Keys <= r.nodes.Keys
    ensures forall k :: 0 <= k < |bs| ==> bs[k].account in r.nodes
    decreases |bs|
  {
    if bs == [] then st
    else
      var r := Build(env, Step(env, st, bs[0]), bs[1..]);
      assert forall k :: 1 <= k < |bs| ==> bs[k] == bs[1..][k - 1];
      r
  }

  // ---------------------------------------------------------------------
  // What the build computes
  // ---------------------------------------------------------------------

  /** The amount of commodity `c` in column `i`, summed over the balances. */
  function SumValues(bs: seq<Balance>, i: nat, c: CommodityId): real
    decreases |bs|
  {
    if bs == [] then 0.0
    else (if i < |bs[0].value| then AmountOf(bs[0].value[i], c) else 0.0) + SumValues(bs[1..], i, c)
  }

  /** The amount of `c` in the market value of column `i`, summed over the balances that are not zero there. */
  function SumMarket(convert: (MultiValue, nat) -> MultiValue, bs: seq<Balance>, i: nat, c: CommodityId): real
    decreases |bs|
  {
    if bs == [] then 0.0
    else
      (if i < |bs[0].value| && !IsZero(bs[0].value[i]) then AmountOf(convert(bs[0].value[i], i), c) else 0.0)
      + SumMarket(convert, bs[1..], i, c)
  }

  /**
   * The total row holds, in each column, the sum of the balances and the
   * sum of their market values (each balance that is not zero converted
   * at that column), on top of what it held before.
   */
  lemma {:induction false} BuildTotal(env: Env, st: Building, bs: seq<Balance>, i: nat, c: CommodityId)
    requires Valid(env.size, st) && ConvertsNormalized(env.convert) && BalancesOk(env, bs) && i < env.size
    ensures AmountOf(Build(env, st, bs).total.value[i], c) == AmountOf(st.total.value[i], c) + SumValues(bs, i, c)
    ensures AmountOf(Build(env, st, bs).total.marketValue[i], c)
            == AmountOf(st.total.marketValue[i], c) + SumMarket(env.convert, bs, i, c)
    decreases |bs|
  {
    if bs != [] {
      var st1 := Step(env, st, bs[0]);
      BuildUnfold(env, st, bs);
      BuildTotal(env, st1, bs[1..], i, c);
      StepTotal(env, st, bs[0], i, c);
    }
  }

  /** One balance adds its value and market value to the total. */
  lemma StepTotal(env: Env, st: Building, b: Balance, i: nat, c: CommodityId)
    requires Valid(env.size, st) && ConvertsNormalized(env.convert) && BalanceOk(env, b) && i < env.size
    ensures AmountOf(Step(env, st, b).total.value[i], c) == AmountOf(st.total.value[i], c) + AmountOf(b.value[i], c)
    ensures AmountOf(Step(env, st, b).total.marketValue[i], c)
            == AmountOf(st.total.marketValue[i], c)
               + if IsZero(b.value[i]) then 0.0 else AmountOf(env.convert(b.value[i], i), c)
  {
    var row := IndentedRow(env, b);
    assert Step(env, st, b).total == AddToTotal(st.total, row, env.size);
    assert row.marketValue == MarketColumns(b.value, env.convert);
  }

  /** The amount of `c` in column `i` of the line of account `a`, zero when it has no line. */
  function LineAmount(st: Building, a: AccountId, i: nat, c: CommodityId): real {
    if a in st.nodes && st.nodes[a] < |st.lines| && i < |st.lines[st.nodes[a]].value|
    then AmountOf(st.lines[st.nodes[a]].value[i], c) else 0.0
  }

  /** Whether the balance of `account` goes into the line of `a`: its own, or a parent's with subtotals in tree mode. */
  predicate CountsFor(env: Env, account: AccountId, a: AccountId) {
    account == a || (env.settings.tree && env.settings.subtotals && a in env.parents(account))
  }

  /** The amount of `c` in column `i` of the balances that go into the line of `a`. */
  function SumFor(env: Env, bs: seq<Balance>, a: AccountId, i: nat, c: CommodityId): real
    decreases |bs|
  {
    if bs == [] then 0.0
    else
      (if CountsFor(env, bs[0].account, a) && i < |bs[0].value| then AmountOf(bs[0].value[i], c) else 0.0)
      + SumFor(env, bs[1..], a, i, c)
  }

  /** The parents of an account, as the repository gives them: each once, and never the account itself. */
  predicate ParentsOk(env: Env, account: AccountId) {
    var ps := env.parents(account);
    account !in ps && forall j, k :: 0 <= j < k < |ps| ==> ps[j] != ps[k]
  }

  /** A line pushed for a new parent starts at zero. */
  lemma EnsureParentAmount(env: Env, st: Building, p: AccountId, pidx: nat, a: AccountId, i: nat, c: CommodityId)
    requires Valid(env.size, st)
    ensures LineAmount(EnsureParent(env, st, p, pidx), a, i, c) == LineAmount(st, a, i, c)
  {
    if p !in st.nodes && a == p && i < env.size {
      assert IsZero(EnsureParent(env, st, p, pidx).lines[|st.lines|].value[i]);
    }
  }

  /** Only the line of the parent changes, by the row's value with subtotals. */
  lemma MarkParentAmount(env: Env, st: Building, row: NetworthRow, p: AccountId, a: AccountId, i: nat, c: CommodityId)
    requires Valid(env.size, st) && p in st.nodes && WellFormed(row, env.size) && i < env.size
    ensures LineAmount(MarkParent(env, st, row, p), a, i, c)
            == LineAmount(st, a, i, c) + if a == p && env.settings.subtotals then AmountOf(row.value[i], c) else 0.0
  {
    if a != p && a in st.nodes {
      assert st.nodes[a] != st.nodes[p] by {
        assert st.lines[st.nodes[a]].account == Some(a);
      }
    }
  }

  /** The parents loop adds the row's value to the line of each parent, with subtotals. */
  lemma {:induction false} AddParentsAmount(env: Env, st: Building, row: NetworthRow, ps: seq<AccountId>, pidx: nat,
                                            a: AccountId, i: nat, c: CommodityId)
    requires Valid(env.size, st) && WellFormed(row, env.size) && i < env.size
    requires forall j, k :: 0 <= j < k < |ps| ==> ps[j] != ps[k]
    ensures LineAmount(AddParents(env, st, row, ps, pidx), a, i, c)
            == LineAmount(st, a, i, c) + if a in ps && env.settings.subtotals then AmountOf(row.value[i], c) else 0.0
    decreases |ps|
  {
    if ps != [] {
      var st0 := EnsureParent(env, st, ps[0], pidx);
      var st1 := MarkParent(env, st0, row, ps[0]);
      EnsureParentAmount(env, st, ps[0], pidx, a, i, c);
      MarkParentAmount(env, st0, row, ps[0], a, i, c);
      DistinctTail(ps);
      AddParentsAmount(env, st1, row, ps[1..], pidx + 1, a, i, c);
    }
  }

  /** The rest of a sequence without repetition has none either, and does not hold its first element. */
  lemma DistinctTail(ps: seq<AccountId>)
    requires ps != [] && forall j, k :: 0 <= j < k < |ps| ==> ps[j] != ps[k]
    ensures forall j, k :: 0 <= j < k < |ps[1..]| ==> ps[1..][j] != ps[1..][k]
    ensures forall a :: a in ps <==> a == ps[0] || a in ps[1..]
    ensures ps[0] !in ps[1..]
  {
    assert forall j :: 0 <= j < |ps[1..]| ==> ps[1..][j] == ps[j + 1];
    assert ps == [ps[0]] + ps[1..];
  }

  /** The own entry adds the row's value to the line of its account only. */
  lemma AddOwnAmount(env: Env, st: Building, row: NetworthRow, a: AccountId, i: nat, c: CommodityId)
    requires Valid(env.size, st) && WellFormed(row, env.size) && row.account.Some? && i < env.size
    ensures LineAmount(AddOwn(env, st, row), a, i, c)
            == LineAmount(st, a, i, c) + if a == row.account.value then AmountOf(row.value[i], c) else 0.0
  {
    var own := row.account.value;
    if a != own && a in st.nodes && own in st.nodes {
      assert st.nodes[a] != st.nodes[own] by {
        assert st.lines[st.nodes[a]].account == Some(a);
      }
    }
  }

  /** One balance goes into the line of each account it counts for. */
  lemma StepAmount(env: Env, st: Building, b: Balance, a: AccountId, i: nat, c: CommodityId)
    requires Valid(env.size, st) && ConvertsNormalized(env.convert) && BalanceOk(env, b) && i < env.size
    requires ParentsOk(env, b.account)
    ensures LineAmount(Step(env, st, b), a, i, c)
            == LineAmount(st, a, i, c) + if CountsFor(env, b.account, a) then AmountOf(b.value[i], c) else 0.0
  {
    var row := IndentedRow(env, b);
    var st1 := st.(total := AddToTotal(st.total, row, env.size));
    assert LineAmount(st1, a, i, c) == LineAmount(st, a, i, c);
    if env.settings.tree {
      var st2 := AddParents(env, st1, row, env.parents(b.account), 0);
      AddParentsAmount(env, st1, row, env.parents(b.account), 0, a, i, c);
      AddOwnAmount(env, st2, row, a, i, c);
    } else {
      AddOwnAmount(env, st1, row, a, i, c);
    }
  }

  /**
   * The line of every account holds its own balance and, with subtotals in
   * tree mode, the balances of all the accounts it is a parent of.
   */
  lemma {:induction false} BuildAmount(env: Env, st: Building, bs: seq<Balance>, a: AccountId, i: nat, c: CommodityId)
    requires Valid(env.size, st) && ConvertsNormalized(env.convert) && BalancesOk(env, bs) && i < env.size
    requires forall k :: 0 <= k < |bs| ==> ParentsOk(env, bs[k].account)
    ensures LineAmount(Build(env, st, bs), a, i, c) == LineAmount(st, a, i, c) + SumFor(env, bs, a, i, c)
    decreases |bs|
  {
    if bs != [] {
      BuildUnfold(env, st, bs);
      assert forall k :: 0 <= k < |bs[1..]| ==> ParentsOk(env, bs[1..][k].account) by {
        assert forall k :: 0 <= k < |bs[1..]| ==> bs[1..][k] == bs[k + 1];
      }
      var st1 := Step(env, st, bs[0]);
      StepAmount(env, st, bs[0], a, i, c);
      BuildAmount(env, st1, bs[1..], a, i, c);
    }
  }

  /** Outside tree mode, the balance of an account without a line pushes its row and records it. */
  lemma FlatStep(env: Env, st: Building, b: Balance)
    requires Valid(env.size, st) && ConvertsNormalized(env.convert) && BalanceOk(env, b) && !env.settings.tree
    requires b.account !in st.nodes
    ensures Step(env, st, b).lines == st.lines + [AccountRow(env, b)]
    ensures Step(env, st, b).nodes == st.nodes[b.account := |st.lines|]
  {
  }

  /** The rows of the balances, one each, in their order. */
  function AccountRows(env: Env, bs: seq<Balance>): (r: seq<NetworthRow>)
    requires ConvertsNormalized(env.convert) && BalancesOk(env, bs)
    ensures |r| == |bs| && forall k :: 0 <= k < |bs| ==> r[k] == AccountRow(env, bs[k])
    decreases |bs|
  {
    if bs == [] then []
    else
      assert forall k :: 1 <= k < |bs| ==> bs[1..][k - 1] == bs[k];
      [AccountRow(env, bs[0])] + AccountRows(env, bs[1..])
  }

  lemma MoveOne<T>(a: seq<T>, x: T, b: seq<T>)
    ensures (a + [x]) + b == a + ([x] + b)
  {
  }

  /**
   * Outside tree mode, each balance of a distinct account gets a line of
   * its own holding its values, appended in the order of the balances.
   */
  lemma {:induction false} FlatBuild(env: Env, st: Building, bs: seq<Balance>)
    requires Valid(env.size, st) && ConvertsNormalized(env.convert) && BalancesOk(env, bs) && !env.settings.tree
    requires forall j, k :: 0 <= j < k < |bs| ==> bs[j].account != bs[k].account
    requires forall k :: 0 <= k < |bs| ==> bs[k].account !in st.nodes
    ensures Build(env, st, bs).lines == st.lines + AccountRows(env, bs)
    decreases |bs|
  {
    if bs != [] {
      var st1 := Step(env, st, bs[0]);
      FlatStep(env, st, bs[0]);
      assert forall k :: 1 <= k < |bs| ==> bs[1..][k - 1] == bs[k];
      FlatBuild(env, st1, bs[1..]);
      assert Build(env, st, bs) == Build(env, st1, bs[1..]);
      assert AccountRows(env, bs) == [AccountRow(env, bs[0])] + AccountRows(env, bs[1..]);
      MoveOne(st.lines, AccountRow(env, bs[0]), AccountRows(env, bs[1..]));
    }
  }

  // ---------------------------------------------------------------------
  // The build, step by step
  // ---------------------------------------------------------------------

  /** Adding a zero column changes nothing. */
  lemma AddColumnsZeroStep(a: seq<MultiValue>, b: seq<MultiValue>, n: nat)
    requires n < |a| && n < |b| && AllNormalized(a) && AllNormalized(b) && IsZero(b[n])
    ensures AddColumns(a, b, n + 1) == AddColumns(a, b, n)
  {
    var x, y := AddColumns(a, b, n + 1), AddColumns(a, b, n);
    forall i | 0 <= i < |a|
      ensures x[i] == y[i]
    {
      if i <= n {
        Extensionality(x[i], y[i]);
      }
    }
  }

  /** The market values of the first `n` columns, zero for the others. */
  function MarketUpTo(value: seq<MultiValue>, convert: (MultiValue, nat) -> MultiValue, n: nat): (r: seq<MultiValue>)
    ensures |r| == |value|
    ensures n >= |value| ==> r == MarketColumns(value, convert)
  {
    seq(|value|, i requires 0 <= i < |value| => if i < n && !IsZero(value[i]) then convert(value[i], i) else Zero)
  }

  lemma MarketUpToStep(value: seq<MultiValue>, convert: (MultiValue, nat) -> MultiValue, n: nat)
    requires n < |value|
    ensures MarketUpTo(value, convert, n + 1)
            == if IsZero(value[n]) then MarketUpTo(value, convert, n)
               else MarketUpTo(value, convert, n)[n := convert(value[n], n)]
  {
  }

  /**
   * The row of a balance and the total it is added to: for each column
   * whose value is not zero, the converted value becomes the row's market
   * value, and both are added to the total.
   */
  method ValueRow(env: Env, total: NetworthRow, b: Balance) returns (row: NetworthRow, newTotal: NetworthRow)
    requires ConvertsNormalized(env.convert) && BalanceOk(env, b) && WellFormed(total, env.size)
    ensures row == AccountRow(env, b)
    ensures newTotal == AddToTotal(total, row, env.size)
  {
    var market := Zeros(env.size);
    assert market == MarketUpTo(b.value, env.convert, 0);
    var values, markets := total.value, total.marketValue;
    ghost var converted := MarketColumns(b.value, env.convert);
    var idx := 0;
    while idx < |b.value|
      invariant 0 <= idx <= |b.value|
      invariant market == MarketUpTo(b.value, env.convert, idx)
      invariant values == AddColumns(total.value, b.value, idx)
      invariant markets == AddColumns(total.marketValue, converted, idx)
    {
      var v := b.value[idx];
      if !IsZero(v) {
        var mv := env.convert(v, idx);
        var t := AddAssign(values[idx], v);
        var tm := AddAssign(markets[idx], mv);
        AddColumnsStep(total.value, b.value, idx);
        AddColumnsStep(total.marketValue, converted, idx);
        values, markets := values[idx := t], markets[idx := tm];
        MarketUpToStep(b.value, env.convert, idx);
        market := market[idx := mv];
      } else {
        MarketUpToStep(b.value, env.convert, idx);
        AddColumnsZeroStep(total.value, b.value, idx);
        AddColumnsZeroStep(total.marketValue, converted, idx);
      }
      idx := idx + 1;
    }
    assert market == converted;
    row := NewRow(env.size, Some(b.account), env.fullName, 0).(value := b.value, marketValue := market);
    newTotal := total.(value := values, marketValue := markets);
  }

  /** The parents loop: each parent's line is found or pushed, marked as having children and, with subtotals, merged with the row. */
  method AddParentsLoop(env: Env, st: Building, row: NetworthRow, ps: seq<AccountId>) returns (r: Building)
    requires Valid(env.size, st) && WellFormed(row, env.size)
    ensures r == AddParents(env, st, row, ps, 0)
  {
    r := st;
    var pidx := 0;
    while pidx < |ps|
      invariant 0 <= pidx <= |ps| && Valid(env.size, r)
      invariant AddParents(env, r, row, ps[pidx..], pidx) == AddParents(env, st, row, ps, 0)
    {
      ghost var before := r;
      r := EnsureParentEntry(env, r, ps[pidx], pidx);
      r := MarkParentEntry(env, r, row, ps[pidx]);
      assert AddParents(env, before, row, ps[pidx..], pidx) == AddParents(env, r, row, ps[pidx..][1..], pidx + 1);
      assert ps[pidx..][1..] == ps[pidx + 1..];
      pidx := pidx + 1;
    }
  }

  /** The account's own entry: merged into the line already recorded for it, or pushed and recorded. */
  method AddOwnEntry(env: Env, st: Building, row: NetworthRow) returns (r: Building)
    requires Valid(env.size, st) && WellFormed(row, env.size) && row.account.Some?
    ensures r == AddOwn(env, st, row)
  {
    var a := row.account.value;
    if a in st.nodes {
      var n := st.nodes[a];
      MergedWellFormed(st.lines[n], row, env.size);
      var merged := Merge(st.lines[n], row);
      r := st.(lines := st.lines[n := merged]);
    } else {
      r := Building(st.lines + [row], st.nodes[a := |st.lines|], st.total);
    }
  }

  /** One balance of the loop over `repo.balance`. */
  method AddBalance(env: Env, st: Building, b: Balance) returns (r: Building)
    requires Valid(env.size, st) && ConvertsNormalized(env.convert) && BalanceOk(env, b)
    ensures r == Step(env, st, b)
  {
    var row, newTotal := ValueRow(env, st.total, b);
    r := st.(total := newTotal);
    if env.settings.tree {
      row := row.(indent := |env.parents(b.account)|);
      r := AddParentsLoop(env, r, row, env.parents(b.account));
    }
    r := AddOwnEntry(env, r, row);
  }

  /** The build goes on from the state after the first balance. */
  lemma BuildUnfold(env: Env, st: Building, bs: seq<Balance>)
    requires Valid(env.size, st) && ConvertsNormalized(env.convert) && BalancesOk(env, bs) && bs != []
    ensures BalanceOk(env, bs[0]) && BalancesOk(env, bs[1..])
    ensures Build(env, st, bs) == Build(env, Step(env, st, bs[0]), bs[1..])
  {
    assert forall k :: 1 <= k < |bs| ==> bs[1..][k - 1] == bs[k];
  }

  /** The loop over the balances, before the rows are filtered and sorted. */
  method BuildLines(env: Env, balances: seq<Balance>) returns (st: Building)
    requires ConvertsNormalized(env.convert) && BalancesOk(env, balances)
    ensures st == Build(env, Start(env), balances)
  {
    st := Building([], map[], NewRow(env.size, None, env.fullName, 0));
    var rest := balances;
    while rest != []
      invariant Valid(env.size, st) && BalancesOk(env, rest)
      invariant Build(env, st, rest) == Build(env, Start(env), balances)
      decreases |rest|
    {
      BuildUnfold(env, st, rest);
      st := AddBalance(env, st, rest[0]);
      rest := rest[1..];
    }
  }

  /** A view of the value of the accounts at each timestamp. */
  class NetworthView {
    var lines: seq<NetworthRow>
    var total: NetworthRow
    var settings: Settings

    /**
     * `Networth::new`: builds the lines from the balances, then keeps the
     * rows that the retention rule as written keeps (a single-timestamp
     * `hide_all_same` drops every childless row) and sorts them by full
     * account name.
     */
    constructor (env: Env, balances: seq<Balance>)
      requires ConvertsNormalized(env.convert) && BalancesOk(env, balances)
      ensures settings == env.settings
      ensures total == Build(env, Start(env), balances).total
      ensures lines == SortByName(Retain(Build(env, Start(env), balances).lines, env.settings))
    {
      var st := BuildLines(env, balances);
      lines := SortByName(Retain(st.lines, env.settings));
      total := st.total;
      settings := env.settings;
    }
  }
}
