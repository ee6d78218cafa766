/**
 * Text tables for the terminal: columns with a width policy, rows of cells,
 * header and separator rows, a footer, and the rendering of the whole table
 * as lines whose cells are truncated and padded to the computed widths.
 *
 * Strings are sequences of characters, so a length is the char count the
 * code measures.  The column's content callback is a total function from
 * the row type to a string.
 */
module Tables {
  import opened Wrappers

  datatype Width = Fixed(w: nat) | Auto | Expand
  datatype Align = Left | Center | Right
  /** `TruncLeft` removes left-most characters, `TruncRight` right-most ones. */
  datatype Truncate = TruncLeft | TruncRight
  datatype ColumnFooter = Show | Hide

  datatype Column<-R> = Column(
    align: Align,
    truncate: Truncate,
    width: Width,
    footer: ColumnFooter,
    title: Option<string>,
    content: R -> string,
    computedWidth: nat)

  /** `Column::new`: left-aligned, truncated on the right, automatic width, shown in the footer. */
  function NewColumn<R>(content: R -> string): (c: Column<R>)
    ensures c.align == Left && c.truncate == TruncRight && c.width == Auto && c.footer == Show
    ensures c.title.None? && c.content == content && c.computedWidth == 0
  {
    Column(Left, TruncRight, Auto, Show, None, content, 0)
  }

  datatype RowData = Separator | Cells(cells: seq<string>) | Headers

  /** The horizontal rule character and the default column separator. */
  const Rule: char := '\U{2500}'
  const DefaultColsep: string := "\U{2502}"
  /** The width left to each expandable column when even the fixed ones do not fit. */
  const ExpWidth: nat := 3

  // ---------------------------------------------------------------------
  // Truncation and padding
  // ---------------------------------------------------------------------

  /** `trunc_keep_first`: the first `maxWidth` characters. */
  function TruncKeepFirst(s: string, maxWidth: nat): (r: string)
    ensures |r| == if |s| <= maxWidth then |s| else maxWidth
  {
    if maxWidth < |s| then s[..maxWidth] else s
  }

  /** `trunc_keep_last`: the last `maxWidth` characters; `maxWidth - 1` underflows at 0. */
  function TruncKeepLast(s: string, maxWidth: nat): (r: string)
    requires maxWidth >= 1
    ensures |r| == if |s| <= maxWidth then |s| else maxWidth
  {
    if maxWidth - 1 < |s| then s[|s| - maxWidth..] else s
  }

  /** When `truncate` cannot panic: removing from the left needs a width of at least one. */
  predicate TruncateDefined(val: string, t: Truncate, width: nat) {
    |val| > width && t == TruncLeft ==> width >= 1
  }

  /** `truncate`: unchanged when it fits, otherwise cut to exactly `width` characters. */
  function TruncateText(val: string, t: Truncate, width: nat): (r: string)
    requires TruncateDefined(val, t, width)
    ensures |r| == if |val| <= width then |val| else width
  {
    if |val| <= width then val
    else
      match t
      case TruncRight => TruncKeepFirst(val, width)
      case TruncLeft => TruncKeepLast(val, width)
  }

  /** What truncation keeps: everything that fits, else the first or the last `width` characters. */
  lemma TruncateKeeps(val: string, t: Truncate, width: nat)
    requires TruncateDefined(val, t, width)
    ensures |val| <= width ==> TruncateText(val, t, width) == val
    ensures |val| > width && t == TruncRight ==> TruncateText(val, t, width) == val[..width]
    ensures |val| > width && t == TruncLeft ==> TruncateText(val, t, width) == val[|val| - width..]
  {
  }

  function Repeat(c: char, n: nat): (r: string)
    ensures |r| == n
  {
    if n == 0 then [] else Repeat(c, n - 1) + [c]
  }

  lemma {:induction false} RepeatOnly(c: char, n: nat)
    ensures forall k :: 0 <= k < n ==> Repeat(c, n)[k] == c
  {
    if n > 0 {
      RepeatOnly(c, n - 1);
    }
  }

  /** `push_sep`: a rule of `width` characters. */
  function RuleOf(width: nat): (r: string)
    ensures |r| == width
  {
    Repeat(Rule, width)
  }

  /**
   * `push_align`: `value` padded with spaces to `width` characters, the
   * padding after, before, or split with the smaller half before.
   */
  function Pad(value: string, width: nat, align: Align): (r: string)
    ensures |r| == if |value| < width then width else |value|
  {
    var pad := if |value| < width then width - |value| else 0;
    match align
    case Left => value + Repeat(' ', pad)
    case Right => Repeat(' ', pad) + value
    case Center => Repeat(' ', pad / 2) + value + Repeat(' ', pad - pad / 2)
  }

  /** The value sits in the padding: at the start, at the end, or after half the padding. */
  lemma PadPlacesValue(value: string, width: nat, align: Align)
    ensures var pad := if |value| < width then width - |value| else 0;
            var r := Pad(value, width, align);
            var at := match align case Left => 0 case Right => pad case Center => pad / 2;
            && r[at..at + |value|] == value
            && (forall k :: 0 <= k < at ==> r[k] == ' ')
            && (forall k :: at + |value| <= k < |r| ==> r[k] == ' ')
  {
    var pad := if |value| < width then width - |value| else 0;
    RepeatOnly(' ', pad);
    RepeatOnly(' ', pad / 2);
    RepeatOnly(' ', pad - pad / 2);
  }

  // ---------------------------------------------------------------------
  // Column widths
  // ---------------------------------------------------------------------

  /** What one row asks of column `j`: its title on a header row, its cell on a cell row. */
  function RowWidth<R>(c: Column<R>, j: nat, row: RowData): nat {
    match row
    case Separator => 0
    case Headers => if c.title.Some? then |c.title.value| else 0
    case Cells(cs) => if j < |cs| then |cs[j]| else 0
  }

  function Max(a: nat, b: nat): nat {
    if a < b then b else a
  }

  /** The ideal width of an automatic or expandable column: the widest of its rows. */
  function IdealWidth<R>(c: Column<R>, j: nat, rows: seq<RowData>): nat {
    if rows == [] then 0
    else Max(IdealWidth(c, j, rows[..|rows| - 1]), RowWidth(c, j, rows[|rows| - 1]))
  }

  /** The ideal width is the widest row: no row is wider, and some row is that wide unless it is 0. */
  lemma {:induction false} IdealWidthIsWidest<R>(c: Column<R>, j: nat, rows: seq<RowData>)
    ensures forall i :: 0 <= i < |rows| ==> RowWidth(c, j, rows[i]) <= IdealWidth(c, j, rows)
    ensures IdealWidth(c, j, rows) == 0 || exists i :: 0 <= i < |rows| && RowWidth(c, j, rows[i]) == IdealWidth(c, j, rows)
  {
    if rows != [] {
      var init := rows[..|rows| - 1];
      IdealWidthIsWidest(c, j, init);
      assert forall i :: 0 <= i < |init| ==> rows[i] == init[i];
      if IdealWidth(c, j, init) != 0 && IdealWidth(c, j, rows) == IdealWidth(c, j, init) {
        var k :| 0 <= k < |init| && RowWidth(c, j, init[k]) == IdealWidth(c, j, init);
        assert rows[k] == init[k];
      }
    }
  }

  /** The width a column wants: the fixed one, or the ideal one. */
  function Wanted<R>(c: Column<R>, j: nat, rows: seq<RowData>): nat {
    match c.width
    case Fixed(w) => w
    case _ => IdealWidth(c, j, rows)
  }

  /** The wanted widths of the first `n` columns, only expandable ones or only the others. */
  function WantedSum<R>(cols: seq<Column<R>>, rows: seq<RowData>, n: nat, expand: bool): nat
    requires n <= |cols|
  {
    if n == 0 then 0
    else WantedSum(cols, rows, n - 1, expand) + (if cols[n - 1].width.Expand? == expand then Wanted(cols[n - 1], n - 1, rows) else 0)
  }

  function ExpandCount<R>(cols: seq<Column<R>>, n: nat): nat
    requires n <= |cols|
  {
    if n == 0 then 0 else ExpandCount(cols, n - 1) + (if cols[n - 1].width.Expand? then 1 else 0)
  }

  /** When the shrinking of `compute_widths` cannot underflow `max_width - expandable_count * 3`. */
  predicate ShrinkDefined<R>(cols: seq<Column<R>>, rows: seq<RowData>, maxWidth: nat) {
    WantedSum(cols, rows, |cols|, false) > maxWidth ==> maxWidth >= ExpandCount(cols, |cols|) * ExpWidth
  }

  /** `a` scaled by `k / d` and rounded down, as the cast of a non-negative float to an integer does. */
  function Scale(a: nat, k: nat, d: nat): nat
    requires d > 0
  {
    a * k / d
  }

  /**
   * The width `compute_widths` gives column `j`: what it wants when
   * everything fits; when even the fixed and automatic columns do not fit,
   * 3 for expandable ones and the rest scaled by
   * `(maxWidth - 3 * expandable) / fixed`; otherwise the expandable ones
   * scaled by `(maxWidth - fixed) / expandable`.  The scaling is exact and
   * rounds down.
   */
  function FinalWidth<R>(cols: seq<Column<R>>, rows: seq<RowData>, j: nat, maxWidth: nat): nat
    requires j < |cols|
  {
    var wanted := Wanted(cols[j], j, rows);
    var fixed := WantedSum(cols, rows, |cols|, false);
    var expandable := WantedSum(cols, rows, |cols|, true);
    var count := ExpandCount(cols, |cols|);
    if expandable + fixed <= maxWidth then wanted
    else if fixed > maxWidth then
      if cols[j].width.Expand? then ExpWidth
      else if maxWidth >= count * ExpWidth then Scale(wanted, maxWidth - count * ExpWidth, fixed)
      else 0
    else if cols[j].width.Expand? then Scale(wanted, maxWidth - fixed, expandable)
    else wanted
  }

  function FinalSum<R>(cols: seq<Column<R>>, rows: seq<RowData>, n: nat, maxWidth: nat): nat
    requires n <= |cols|
  {
    if n == 0 then 0 else FinalSum(cols, rows, n - 1, maxWidth) + FinalWidth(cols, rows, n - 1, maxWidth)
  }

  /** The selected wanted widths, each scaled by `k / d` and rounded down. */
  function ScaledSum<R>(cols: seq<Column<R>>, rows: seq<RowData>, n: nat, expand: bool, k: nat, d: nat): nat
    requires n <= |cols| && d > 0
  {
    if n == 0 then 0
    else ScaledSum(cols, rows, n - 1, expand, k, d) + (if cols[n - 1].width.Expand? == expand then Scale(Wanted(cols[n - 1], n - 1, rows), k, d) else 0)
  }

  lemma Distribute(d: nat, x: nat, y: nat)
    ensures d * (x + y) == d * x + d * y
  {
  }

  lemma CancelFactor(d: nat, s: nat, t: nat)
    requires d > 0 && d * s <= d * t
    ensures s <= t
  {
  }

  lemma FloorScale(a: nat, k: nat, d: nat)
    requires d > 0
    ensures d * Scale(a, k, d) <= a * k
  {
  }

  /** Rounding down each scaled width never adds up to more than the scaled total. */
  lemma {:induction false} ScaledSumBound<R>(cols: seq<Column<R>>, rows: seq<RowData>, n: nat, expand: bool, k: nat, d: nat)
    requires n <= |cols| && d > 0
    ensures d * ScaledSum(cols, rows, n, expand, k, d) <= k * WantedSum(cols, rows, n, expand)
  {
    if n > 0 {
      ScaledSumBound(cols, rows, n - 1, expand, k, d);
      if cols[n - 1].width.Expand? == expand {
        var a := Wanted(cols[n - 1], n - 1, rows);
        FloorScale(a, k, d);
        Distribute(d, ScaledSum(cols, rows, n - 1, expand, k, d), Scale(a, k, d));
        Distribute(k, WantedSum(cols, rows, n - 1, expand), a);
        assert k * a == a * k;
      }
    }
  }

  lemma {:induction false} SumsWhenFitting<R>(cols: seq<Column<R>>, rows: seq<RowData>, n: nat, maxWidth: nat)
    requires n <= |cols|
    requires WantedSum(cols, rows, |cols|, true) + WantedSum(cols, rows, |cols|, false) <= maxWidth
    ensures FinalSum(cols, rows, n, maxWidth) == WantedSum(cols, rows, n, true) + WantedSum(cols, rows, n, false)
  {
    if n > 0 {
      SumsWhenFitting(cols, rows, n - 1, maxWidth);
    }
  }

  lemma {:induction false} SumsWhenFixedTooWide<R>(cols: seq<Column<R>>, rows: seq<RowData>, n: nat, maxWidth: nat)
    requires n <= |cols|
    requires WantedSum(cols, rows, |cols|, false) > maxWidth >= ExpandCount(cols, |cols|) * ExpWidth
    ensures FinalSum(cols, rows, n, maxWidth)
            == ExpandCount(cols, n) * ExpWidth
               + ScaledSum(cols, rows, n, false, maxWidth - ExpandCount(cols, |cols|) * ExpWidth, WantedSum(cols, rows, |cols|, false))
  {
    if n > 0 {
      SumsWhenFixedTooWide(cols, rows, n - 1, maxWidth);
    }
  }

  lemma {:induction false} SumsWhenExpanding<R>(cols: seq<Column<R>>, rows: seq<RowData>, n: nat, maxWidth: nat)
    requires n <= |cols|
    requires WantedSum(cols, rows, |cols|, false) <= maxWidth < WantedSum(cols, rows, |cols|, true) + WantedSum(cols, rows, |cols|, false)
    ensures FinalSum(cols, rows, n, maxWidth)
            == WantedSum(cols, rows, n, false)
               + ScaledSum(cols, rows, n, true, maxWidth - WantedSum(cols, rows, |cols|, false), WantedSum(cols, rows, |cols|, true))
  {
    if n > 0 {
      SumsWhenExpanding(cols, rows, n - 1, maxWidth);
    }
  }

  lemma ShrunkFixedFit<R>(cols: seq<Column<R>>, rows: seq<RowData>, maxWidth: nat)
    requires WantedSum(cols, rows, |cols|, false) > maxWidth >= ExpandCount(cols, |cols|) * ExpWidth
    ensures FinalSum(cols, rows, |cols|, maxWidth) <= maxWidth
  {
    var n := |cols|;
    var fixed := WantedSum(cols, rows, n, false);
    var k := maxWidth - ExpandCount(cols, n) * ExpWidth;
    SumsWhenFixedTooWide(cols, rows, n, maxWidth);
    ScaledSumBound(cols, rows, n, false, k, fixed);
    CancelFactor(fixed, ScaledSum(cols, rows, n, false, k, fixed), k);
  }

  lemma ShrunkExpandableFit<R>(cols: seq<Column<R>>, rows: seq<RowData>, maxWidth: nat)
    requires WantedSum(cols, rows, |cols|, false) <= maxWidth < WantedSum(cols, rows, |cols|, true) + WantedSum(cols, rows, |cols|, false)
    ensures FinalSum(cols, rows, |cols|, maxWidth) <= maxWidth
  {
    var n := |cols|;
    var fixed := WantedSum(cols, rows, n, false);
    var expandable := WantedSum(cols, rows, n, true);
    SumsWhenExpanding(cols, rows, n, maxWidth);
    ScaledSumBound(cols, rows, n, true, maxWidth - fixed, expandable);
    CancelFactor(expandable, ScaledSum(cols, rows, n, true, maxWidth - fixed, expandable), maxWidth - fixed);
  }

  /**
   * The computed widths add up to at most `maxWidth`: exactly what the
   * columns want when that fits, and after shrinking otherwise.
   */
  lemma WidthsFit<R>(cols: seq<Column<R>>, rows: seq<RowData>, maxWidth: nat)
    requires ShrinkDefined(cols, rows, maxWidth)
    ensures FinalSum(cols, rows, |cols|, maxWidth) <= maxWidth
    ensures WantedSum(cols, rows, |cols|, true) + WantedSum(cols, rows, |cols|, false) <= maxWidth ==>
            forall j :: 0 <= j < |cols| ==> FinalWidth(cols, rows, j, maxWidth) == Wanted(cols[j], j, rows)
  {
    var n := |cols|;
    var fixed := WantedSum(cols, rows, n, false);
    var expandable := WantedSum(cols, rows, n, true);
    if expandable + fixed <= maxWidth {
      SumsWhenFitting(cols, rows, n, maxWidth);
    } else if fixed > maxWidth {
      ShrunkFixedFit(cols, rows, maxWidth);
    } else {
      ShrunkExpandableFit(cols, rows, maxWidth);
    }
  }

  // ---------------------------------------------------------------------
  // Rendering
  // ---------------------------------------------------------------------

  /** A value cut to `width` characters as `t` says, then padded to exactly `width`. */
  function Fit(value: string, t: Truncate, width: nat, align: Align): (r: string)
    requires TruncateDefined(value, t, width)
    ensures |r| == width
  {
    Pad(TruncateText(value, t, width), width, align)
  }

  /** The text of one cell: a rule, the centred title, or the cell aligned as the column says. */
  function CellText<R>(c: Column<R>, j: nat, row: RowData): (r: string)
    requires TruncateDefined(RowText(c, j, row), c.truncate, c.computedWidth)
    ensures |r| == c.computedWidth
  {
    if row.Separator? then RuleOf(c.computedWidth)
    else Fit(RowText(c, j, row), c.truncate, c.computedWidth, if row.Headers? then Center else c.align)
  }

  /** The text a row holds for column `j`; an absent title is the empty string. */
  function RowText<R>(c: Column<R>, j: nat, row: RowData): string {
    match row
    case Separator => ""
    case Headers => if c.title.Some? then c.title.value else ""
    case Cells(cs) => if j < |cs| then cs[j] else ""
  }

  /** Every cell of a row can be truncated without a panic. */
  predicate RowDefined<R>(cols: seq<Column<R>>, row: RowData) {
    forall j :: 0 <= j < |cols| ==> TruncateDefined(RowText(cols[j], j, row), cols[j].truncate, cols[j].computedWidth)
  }

  predicate RowsDefined<R>(cols: seq<Column<R>>, rows: seq<RowData>) {
    forall i :: 0 <= i < |rows| ==> RowDefined(cols, rows[i])
  }

  /** The texts of a row's cells, one per column. */
  function RowCells<R>(cols: seq<Column<R>>, row: RowData): (r: seq<string>)
    requires RowDefined(cols, row)
    ensures |r| == |cols|
  {
    seq(|cols|, j requires 0 <= j < |cols| => CellText(cols[j], j, row))
  }

  /** The first `n` cells, each followed by `colsep`, or by the end of line after the last one. */
  function Joined(cells: seq<string>, colsep: string, n: nat): string
    requires n <= |cells|
  {
    if n == 0 then []
    else Joined(cells, colsep, n - 1) + cells[n - 1] + (if n - 1 < |cells| - 1 then colsep else "\n")
  }

  /** One rendered row; a table has at least one column, as `to_string` underflows otherwise. */
  function Line<R>(cols: seq<Column<R>>, colsep: string, row: RowData): string
    requires |cols| >= 1 && RowDefined(cols, row)
  {
    Joined(RowCells(cols, row), colsep, |cols|)
  }

  /** One line per row. */
  function Lines<R>(cols: seq<Column<R>>, colsep: string, rows: seq<RowData>): (r: seq<string>)
    requires |cols| >= 1 && RowsDefined(cols, rows)
    ensures |r| == |rows|
  {
    seq(|rows|, i requires 0 <= i < |rows| => Line(cols, colsep, rows[i]))
  }

  /** The first `m` lines, one after the other. */
  function Concat(lines: seq<string>, m: nat): string
    requires m <= |lines|
  {
    if m == 0 then [] else Concat(lines, m - 1) + lines[m - 1]
  }

  /** The title block: a rule, the centred title and a rule, each of the full width. */
  function TitleBlock(title: Option<string>, maxWidth: nat): string {
    match title
    case None => ""
    case Some(t) => RuleOf(maxWidth) + "\n" + Pad(t, maxWidth, Center) + "\n" + RuleOf(maxWidth) + "\n"
  }

  function WidthTotal<R>(cols: seq<Column<R>>, n: nat): nat
    requires n <= |cols|
  {
    if n == 0 then 0 else WidthTotal(cols, n - 1) + cols[n - 1].computedWidth
  }

  function TextsTotal(texts: seq<string>, n: nat): nat
    requires n <= |texts|
  {
    if n == 0 then 0 else TextsTotal(texts, n - 1) + |texts[n - 1]|
  }

  /** Joining adds one separator between each two texts, and the end of line after the last. */
  lemma {:induction false} JoinedLength(cells: seq<string>, colsep: string, n: nat)
    requires 1 <= n <= |cells|
    ensures |Joined(cells, colsep, n)| == TextsTotal(cells, n) + SepTotal(|colsep|, n - 1) + (if n < |cells| then |colsep| else 1)
  {
    if n > 1 {
      JoinedLength(cells, colsep, n - 1);
    }
  }

  /** Every cell of a row is exactly as wide as its column. */
  lemma {:induction false} RowCellsTotal<R>(cols: seq<Column<R>>, row: RowData, n: nat)
    requires n <= |cols| && RowDefined(cols, row)
    ensures TextsTotal(RowCells(cols, row), n) == WidthTotal(cols, n)
  {
    if n > 0 {
      RowCellsTotal(cols, row, n - 1);
      assert RowCells(cols, row)[n - 1] == CellText(cols[n - 1], n - 1, row);
    }
  }

  /** `m` separators of `width` characters each. */
  function SepTotal(width: nat, m: nat): nat {
    if m == 0 then 0 else SepTotal(width, m - 1) + width
  }

  lemma {:induction false} SepTotalIsProduct(width: nat, m: nat)
    ensures SepTotal(width, m) == m * width
  {
    if m > 0 {
      SepTotalIsProduct(width, m - 1);
      assert m * width == (m - 1) * width + width;
    }
  }

  /** The columns with the widths `compute_widths` gives them. */
  function Widened<R>(cols: seq<Column<R>>, rows: seq<RowData>, maxWidth: nat): (r: seq<Column<R>>)
    ensures |r| == |cols|
    ensures forall j :: 0 <= j < |cols| ==> r[j] == cols[j].(computedWidth := FinalWidth(cols, rows, j, maxWidth))
  {
    seq(|cols|, j requires 0 <= j < |cols| => cols[j].(computedWidth := FinalWidth(cols, rows, j, maxWidth)))
  }

  /** The width left to the cells once the separators between columns are taken out. */
  function TotalWidth<R>(cols: seq<Column<R>>, colsep: string, maxWidth: nat): nat
    requires |cols| >= 1 && maxWidth >= SepTotal(|colsep|, |cols| - 1)
  {
    maxWidth - SepTotal(|colsep|, |cols| - 1)
  }

  /**
   * When `to_string` cannot panic: there is a column, the separators fit
   * in `maxWidth`, the widths can be shrunk, and no cell has to be
   * truncated from the left to a width of zero.
   */
  predicate RenderDefined<R>(cols: seq<Column<R>>, rows: seq<RowData>, colsep: string, maxWidth: nat) {
    && |cols| >= 1
    && maxWidth >= SepTotal(|colsep|, |cols| - 1)
    && ShrinkDefined(cols, rows, TotalWidth(cols, colsep, maxWidth))
    && RowsDefined(Widened(cols, rows, TotalWidth(cols, colsep, maxWidth)), rows)
  }

  lemma {:induction false} WidenedTotal<R>(cols: seq<Column<R>>, rows: seq<RowData>, maxWidth: nat, n: nat)
    requires n <= |cols|
    ensures WidthTotal(Widened(cols, rows, maxWidth), n) == FinalSum(cols, rows, n, maxWidth)
  {
    if n > 0 {
      WidenedTotal(cols, rows, maxWidth, n - 1);
    }
  }

  /**
   * Every rendered row is a line of the same length, the computed widths
   * plus the separators, and that length is at most `maxWidth` (the title
   * block aside, which is not truncated).
   */
  lemma LinesFit<R>(cols: seq<Column<R>>, rows: seq<RowData>, colsep: string, maxWidth: nat, i: nat)
    requires RenderDefined(cols, rows, colsep, maxWidth) && i < |rows|
    ensures var tw := TotalWidth(cols, colsep, maxWidth);
            var line := Line(Widened(cols, rows, tw), colsep, rows[i]);
            && |line| == FinalSum(cols, rows, |cols|, tw) + SepTotal(|colsep|, |cols| - 1) + 1
            && |line| <= maxWidth + 1
  {
    var tw := TotalWidth(cols, colsep, maxWidth);
    var w := Widened(cols, rows, tw);
    WidthsFit(cols, rows, tw);
    WidenedTotal(cols, rows, tw, |cols|);
    assert RowDefined(w, rows[i]);
    LineWithin(w, colsep, rows[i]);
  }

  /** Every line has the same length: the column widths, a separator between each two columns, the end of line. */
  lemma LineWithin<R>(cols: seq<Column<R>>, colsep: string, row: RowData)
    requires |cols| >= 1 && RowDefined(cols, row)
    ensures |Line(cols, colsep, row)| == WidthTotal(cols, |cols|) + SepTotal(|colsep|, |cols| - 1) + 1
  {
    JoinedLength(RowCells(cols, row), colsep, |cols|);
    RowCellsTotal(cols, row, |cols|);
  }

  /** The cells of one row: the content of each column, in order. */
  function CellsOf<R>(cols: seq<Column<R>>, row: R): (r: seq<string>)
    ensures |r| == |cols|
    ensures forall j :: 0 <= j < |cols| ==> r[j] == cols[j].content(row)
  {
    seq(|cols|, j requires 0 <= j < |cols| => cols[j].content(row))
  }

  /** The footer's cells: hidden columns are empty. */
  function FooterCells<R>(cols: seq<Column<R>>, total: R): (r: seq<string>)
    ensures |r| == |cols|
    ensures forall j :: 0 <= j < |cols| ==> r[j] == if cols[j].footer == Hide then "" else cols[j].content(total)
  {
    seq(|cols|, j requires 0 <= j < |cols| => if cols[j].footer == Hide then "" else cols[j].content(total))
  }

  /** One row: each cell, the separator between columns, the end of line. */
  method RenderLine<R>(columns: seq<Column<R>>, colsep: string, row: RowData) returns (line: string)
    requires |columns| >= 1 && RowDefined(columns, row)
    ensures line == Line(columns, colsep, row)
  {
    ghost var cells := RowCells(columns, row);
    line := [];
    var colidx := 0;
    while colidx < |columns|
      invariant 0 <= colidx <= |columns|
      invariant line == Joined(cells, colsep, colidx)
    {
      var cell := RenderCell(columns, colidx, row);
      var sep := if colidx < |columns| - 1 then colsep else "\n";
      line := line + cell + sep;
      colidx := colidx + 1;
    }
  }

  /** One cell: a rule on a separator row, else the text truncated and aligned in the column. */
  method RenderCell<R>(columns: seq<Column<R>>, colidx: nat, row: RowData) returns (cell: string)
    requires colidx < |columns| && RowDefined(columns, row)
    ensures cell == RowCells(columns, row)[colidx]
    ensures |cell| == columns[colidx].computedWidth
  {
    cell := CellText(columns[colidx], colidx, row);
  }

  /** One line per row, with the widths already computed. */
  method RenderRows<R>(columns: seq<Column<R>>, colsep: string, rows: seq<RowData>) returns (s: string)
    requires |columns| >= 1 && RowsDefined(columns, rows)
    ensures s == Concat(Lines(columns, colsep, rows), |rows|)
  {
    ghost var lines := Lines(columns, colsep, rows);
    s := [];
    var i := 0;
    while i < |rows|
      invariant 0 <= i <= |rows|
      invariant s == Concat(lines, i)
    {
      var line := RenderLine(columns, colsep, rows[i]);
      assert line == lines[i];
      s := s + line;
      i := i + 1;
    }
  }

  class Table<R> {
    var columns: seq<Column<R>>
    var rows: seq<RowData>
    var title: Option<string>
    var colsep: string

    /** Every cell row has one cell per column. */
    ghost predicate Valid()
      reads this
    {
      forall i :: 0 <= i < |rows| && rows[i].Cells? ==> |rows[i].cells| == |columns|
    }

    /** `Table::new`: no rows, no title, a vertical bar between columns. */
    constructor (columns: seq<Column<R>>)
      ensures Valid()
      ensures this.columns == columns && rows == [] && title == None && colsep == DefaultColsep
    {
      this.columns := columns;
      rows := [];
      title := None;
      colsep := DefaultColsep;
    }

    method WithColsep(colsep: string)
      modifies this
      ensures this.colsep == colsep
      ensures columns == old(columns) && rows == old(rows) && title == old(title)
    {
      this.colsep := colsep;
    }

    method WithTitle(title: string)
      modifies this
      ensures this.title == Some(title)
      ensures columns == old(columns) && rows == old(rows) && colsep == old(colsep)
    {
      this.title := Some(title);
    }

    /** `with_col_headers`: a header row and a separator row. */
    method WithColHeaders()
      requires Valid()
      modifies this
      ensures Valid()
      ensures rows == old(rows) + [Headers, Separator]
      ensures columns == old(columns) && title == old(title) && colsep == old(colsep)
    {
      rows := rows + [Headers, Separator];
    }

    /** `add_rows`: one cell row per input, one cell per column. */
    method AddRows(input: seq<R>)
      requires Valid()
      modifies this
      ensures Valid()
      ensures |rows| == |old(rows)| + |input| && rows[..|old(rows)|] == old(rows)
      ensures forall i :: 0 <= i < |input| ==> rows[|old(rows)| + i] == Cells(CellsOf(columns, input[i]))
      ensures columns == old(columns) && title == old(title) && colsep == old(colsep)
    {
      var i := 0;
      while i < |input|
        invariant 0 <= i <= |input| && Valid()
        invariant columns == old(columns) && title == old(title) && colsep == old(colsep)
        invariant |rows| == |old(rows)| + i && rows[..|old(rows)|] == old(rows)
        invariant forall k :: 0 <= k < i ==> rows[|old(rows)| + k] == Cells(CellsOf(columns, input[k]))
      {
        rows := rows + [Cells(CellsOf(columns, input[i]))];
        i := i + 1;
      }
    }

    /** `add_footer`: a separator, then the footer cells. */
    method AddFooter(total: R)
      requires Valid()
      modifies this
      ensures Valid()
      ensures rows == old(rows) + [Separator, Cells(FooterCells(columns, total))]
      ensures columns == old(columns) && title == old(title) && colsep == old(colsep)
    {
      rows := rows + [Separator, Cells(FooterCells(columns, total))];
    }

    /** The ideal-width loop over the rows for one column. */
    method MeasureColumn(col: Column<R>, colidx: nat) returns (w: nat)
      ensures w == IdealWidth(col, colidx, rows)
    {
      w := 0;
      var i := 0;
      while i < |rows|
        invariant 0 <= i <= |rows|
        invariant w == IdealWidth(col, colidx, rows[..i])
      {
        assert rows[..i + 1][..i] == rows[..i];
        match rows[i] {
          case Separator =>
          case Headers =>
            if col.title.Some? {
              w := Max(w, |col.title.value|);
            }
          case Cells(cs) =>
            if colidx < |cs| {
              w := Max(w, |cs[colidx]|);
            }
        }
        i := i + 1;
      }
      assert rows[..i] == rows;
    }

    /**
     * `compute_widths`: each column's computed width becomes its
     * `FinalWidth`; nothing else changes.
     */
    method ComputeWidths(maxWidth: nat)
      requires ShrinkDefined(columns, rows, maxWidth)
      modifies this
      ensures |columns| == |old(columns)|
      ensures columns == Widened(old(columns), rows, maxWidth)
      ensures rows == old(rows) && title == old(title) && colsep == old(colsep)
    {
      ghost var cols0 := columns;
      var expandableCount, expandableWidth, fixedWidth := MeasureWidths();
      if expandableWidth + fixedWidth > maxWidth {
        if fixedWidth > maxWidth {
          ShrinkAll(maxWidth, cols0, expandableCount, fixedWidth);
        } else {
          ShrinkExpandable(maxWidth, cols0, fixedWidth, expandableWidth);
        }
      }
    }

    /**
     * The first loop of `compute_widths`: every column gets the width it
     * wants, and the wanted widths are added up.
     */
    method MeasureWidths() returns (expandableCount: nat, expandableWidth: nat, fixedWidth: nat)
      modifies this
      ensures |columns| == |old(columns)|
      ensures forall j :: 0 <= j < |columns| ==> columns[j] == old(columns)[j].(computedWidth := Wanted(old(columns)[j], j, rows))
      ensures fixedWidth == WantedSum(old(columns), rows, |columns|, false)
      ensures expandableWidth == WantedSum(old(columns), rows, |columns|, true)
      ensures expandableCount == ExpandCount(old(columns), |columns|)
      ensures rows == old(rows) && title == old(title) && colsep == old(colsep)
    {
      ghost var cols0 := columns;
      expandableCount, expandableWidth, fixedWidth := 0, 0, 0;
      var colidx := 0;
      while colidx < |columns|
        invariant 0 <= colidx <= |columns| == |cols0|
        invariant rows == old(rows) && title == old(title) && colsep == old(colsep)
        invariant forall j :: 0 <= j < |columns| ==>
          columns[j] == cols0[j].(computedWidth := if j < colidx then Wanted(cols0[j], j, rows) else cols0[j].computedWidth)
        invariant fixedWidth == WantedSum(cols0, rows, colidx, false)
        invariant expandableWidth == WantedSum(cols0, rows, colidx, true)
        invariant expandableCount == ExpandCount(cols0, colidx)
      {
        var col := columns[colidx];
        match col.width {
          case Fixed(w) =>
            fixedWidth := fixedWidth + w;
            columns := columns[colidx := col.(computedWidth := w)];
          case Auto =>
            var w := MeasureColumn(col, colidx);
            columns := columns[colidx := col.(computedWidth := w)];
            fixedWidth := fixedWidth + w;
          case Expand =>
            var w := MeasureColumn(col, colidx);
            columns := columns[colidx := col.(computedWidth := w)];
            expandableWidth := expandableWidth + w;
            expandableCount := expandableCount + 1;
        }
        colidx := colidx + 1;
      }
    }

    /** The branch where even the fixed and automatic columns do not fit. */
    method ShrinkAll(maxWidth: nat, ghost cols0: seq<Column<R>>, expandableCount: nat, fixedWidth: nat)
      requires |columns| == |cols0|
      requires forall j :: 0 <= j < |columns| ==> columns[j] == cols0[j].(computedWidth := Wanted(cols0[j], j, rows))
      requires fixedWidth == WantedSum(cols0, rows, |cols0|, false) > maxWidth
      requires expandableCount == ExpandCount(cols0, |cols0|) && maxWidth >= expandableCount * ExpWidth
      modifies this
      ensures |columns| == |cols0|
      ensures forall j :: 0 <= j < |columns| ==> columns[j] == cols0[j].(computedWidth := FinalWidth(cols0, rows, j, maxWidth))
      ensures rows == old(rows) && title == old(title) && colsep == old(colsep)
    {
      var i := 0;
      while i < |columns|
        invariant 0 <= i <= |columns| == |cols0|
        invariant rows == old(rows) && title == old(title) && colsep == old(colsep)
        invariant forall j :: 0 <= j < |columns| ==>
          columns[j] == cols0[j].(computedWidth := if j < i then FinalWidth(cols0, rows, j, maxWidth) else Wanted(cols0[j], j, rows))
      {
        var col := columns[i];
        if col.width.Expand? {
          columns := columns[i := col.(computedWidth := ExpWidth)];
        } else {
          columns := columns[i := col.(computedWidth := Scale(col.computedWidth, maxWidth - expandableCount * ExpWidth, fixedWidth))];
        }
        i := i + 1;
      }
    }

    /** The branch where only the expandable columns are shrunk. */
    method ShrinkExpandable(maxWidth: nat, ghost cols0: seq<Column<R>>, fixedWidth: nat, expandableWidth: nat)
      requires |columns| == |cols0|
      requires forall j :: 0 <= j < |columns| ==> columns[j] == cols0[j].(computedWidth := Wanted(cols0[j], j, rows))
      requires fixedWidth == WantedSum(cols0, rows, |cols0|, false) <= maxWidth
      requires expandableWidth == WantedSum(cols0, rows, |cols0|, true) && expandableWidth + fixedWidth > maxWidth
      modifies this
      ensures |columns| == |cols0|
      ensures forall j :: 0 <= j < |columns| ==> columns[j] == cols0[j].(computedWidth := FinalWidth(cols0, rows, j, maxWidth))
      ensures rows == old(rows) && title == old(title) && colsep == old(colsep)
    {
      var i := 0;
      while i < |columns|
        invariant 0 <= i <= |columns| == |cols0|
        invariant rows == old(rows) && title == old(title) && colsep == old(colsep)
        invariant forall j :: 0 <= j < |columns| ==>
          columns[j] == cols0[j].(computedWidth := if j < i then FinalWidth(cols0, rows, j, maxWidth) else Wanted(cols0[j], j, rows))
      {
        var col := columns[i];
        if col.width.Expand? {
          columns := columns[i := col.(computedWidth := Scale(col.computedWidth, maxWidth - fixedWidth, expandableWidth))];
        }
        i := i + 1;
      }
    }
    /** The title, centred between two rules of the full width. */
    method RenderTitle(maxWidth: nat) returns (s: string)
      ensures s == TitleBlock(title, maxWidth)
    {
      s := "";
      match title {
        case None =>
        case Some(t) =>
          s := s + RuleOf(maxWidth) + "\n";
          s := s + Pad(t, maxWidth, Center) + "\n";
          s := s + RuleOf(maxWidth) + "\n";
      }
    }

    /**
     * `to_string`: computes the widths for what the separators leave of
     * `maxWidth`, then renders the title block and one line per row.
     */
    method ToString(maxWidth: nat) returns (s: string)
      requires Valid() && RenderDefined(columns, rows, colsep, maxWidth)
      modifies this
      ensures Valid()
      ensures columns == Widened(old(columns), rows, TotalWidth(old(columns), old(colsep), maxWidth))
      ensures rows == old(rows) && title == old(title) && colsep == old(colsep)
      ensures RowsDefined(columns, rows)
      ensures s == TitleBlock(title, maxWidth) + Concat(Lines(columns, colsep, rows), |rows|)
    {
      ghost var cols0 := columns;
      ghost var tw := TotalWidth(columns, colsep, maxWidth);
      SepTotalIsProduct(|colsep|, |columns| - 1);
      var totalWidth := maxWidth - (|columns| - 1) * |colsep|;
      assert totalWidth == tw;
      ComputeWidths(totalWidth);
      assert columns == Widened(cols0, rows, tw);
      s := RenderTitle(maxWidth);
      var body := RenderRows(columns, colsep, rows);
      s := s + body;
    }
  }
}
