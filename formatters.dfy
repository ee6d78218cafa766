/**
 * Rendering an amount of a commodity as text: thousands separators, a
 * fraction zero-padded to the commodity's display precision, three styles
 * for negative amounts, the symbol before or after the number, and optional
 * quoting of the symbol.
 *
 * Rounding the amount to the display precision and printing it in decimal
 * are done by the decimal library; here they are an input, `absText`, the
 * decimal text of the rounded absolute amount (digits, then optionally '.'
 * and more digits).  The amount itself only decides zero and sign.
 */
module Formatters {
  import opened Wrappers
  import opened Text
  import Utils
  import Commodities

  type Commodity = Commodities.Commodity

  /** How to show the commodity. */
  datatype SymbolQuote =
    | UnquotedSymbol
    | UnquotedName
    | QuotedNameIfSpecial
    | QuotedNameAlways
    | QuotedSymbolIfSpecial
    | QuotedSymbolAlways

  /** How to show negative amounts: `USD -123`, `USD (123)` or `-USD 123`. */
  datatype Negative = MinusSign | Parenthesis | SeparateSign

  datatype Separators = NoSeparators | Every3Digit(sep: char)

  /** What to show for a zero amount. */
  datatype ZeroStyle = Empty | Replace(text: string)

  datatype Formatter = Formatter(
    quoteSymbol: SymbolQuote,
    hideSymbolIf: Option<Commodities.CommodityId>,
    negative: Negative,
    separators: Separators,
    comma: char,
    zero: ZeroStyle,
    negate: bool)

  /** `Formatter::default`. */
  function Default(): (r: Formatter)
    ensures r.quoteSymbol == UnquotedSymbol && r.hideSymbolIf.None? && r.negative == MinusSign
    ensures r.separators == Every3Digit(',') && r.comma == '.' && r.zero == Empty && !r.negate
  {
    Formatter(UnquotedSymbol, None, MinusSign, Every3Digit(','), '.', Empty, false)
  }

  // ---------------------------------------------------------------------
  // Digit grouping
  // ---------------------------------------------------------------------

  /**
   * The first `i` characters of `s` as the grouping loop emits them: a
   * separator goes before position `k > 0` when `n - k` is a multiple of 3,
   * `n` being the length of the integer part.
   */
  function GroupedPrefix(s: string, n: nat, i: nat, sep: char): string
    requires i <= |s|
  {
    if i == 0 then []
    else GroupedPrefix(s, n, i - 1, sep) + (if i - 1 > 0 && (n - (i - 1)) % 3 == 0 then [sep] else []) + [s[i - 1]]
  }

  /** The whole of `s`, grouped by the loop. */
  function Grouped(s: string, sep: char): string {
    GroupedPrefix(s, |s|, |s|, sep)
  }

  /** Reference definition: a separator before each group of three characters counted from the right. */
  function ThousandsGrouped(s: string, sep: char): string {
    if |s| <= 3 then s else ThousandsGrouped(s[..|s| - 3], sep) + [sep] + s[|s| - 3..]
  }

  /** The loop's prefix only depends on the characters read and on `n` modulo 3. */
  lemma {:induction false} GroupedPrefixCongruent(s: string, n: nat, t: string, m: nat, i: nat, sep: char)
    requires i <= |s| && i <= |t| && s[..i] == t[..i] && n % 3 == m % 3
    ensures GroupedPrefix(s, n, i, sep) == GroupedPrefix(t, m, i, sep)
  {
    if i > 0 {
      assert s[..i - 1] == t[..i - 1] by {
        assert s[..i - 1] == s[..i][..i - 1] && t[..i - 1] == t[..i][..i - 1];
      }
      GroupedPrefixCongruent(s, n, t, m, i - 1, sep);
      assert s[i - 1] == s[..i][i - 1] == t[..i][i - 1] == t[i - 1];
      ModThreeShift(n, m, i - 1);
    }
  }

  lemma ModThreeShift(n: int, m: int, k: int)
    requires n % 3 == m % 3
    ensures (n - k) % 3 == (m - k) % 3
  {
    assert n - k == (m - k) + (n - m) && (n - m) % 3 == 0;
  }

  /** Within the first three characters from the right no separator is emitted. */
  lemma {:induction false} GroupedPrefixShort(s: string, n: nat, i: nat, sep: char)
    requires i <= |s| && i <= n <= 3
    ensures GroupedPrefix(s, n, i, sep) == s[..i]
  {
    if i > 0 {
      GroupedPrefixShort(s, n, i - 1, sep);
      assert s[..i] == s[..i - 1] + [s[i - 1]];
    }
  }

  /** The grouping loop computes the reference grouping. */
  lemma {:induction false} GroupedIsThousands(s: string, sep: char)
    ensures Grouped(s, sep) == ThousandsGrouped(s, sep)
    decreases |s|
  {
    var n := |s|;
    if n <= 3 {
      GroupedPrefixShort(s, n, n, sep);
    } else {
      var head := s[..n - 3];
      assert GroupedPrefix(s, n, n, sep) == GroupedPrefix(s, n, n - 3, sep) + [sep] + s[n - 3..] by {
        assert (n - (n - 1)) % 3 != 0 && (n - (n - 2)) % 3 != 0 && (n - (n - 3)) % 3 == 0;
        assert GroupedPrefix(s, n, n - 2, sep) == GroupedPrefix(s, n, n - 3, sep) + [sep] + [s[n - 3]];
        assert GroupedPrefix(s, n, n - 1, sep) == GroupedPrefix(s, n, n - 2, sep) + [s[n - 2]];
        assert GroupedPrefix(s, n, n, sep) == GroupedPrefix(s, n, n - 1, sep) + [s[n - 1]];
        assert s[n - 3..] == [s[n - 3], s[n - 2], s[n - 1]];
      }
      assert s[..n - 3] == head[..n - 3];
      GroupedPrefixCongruent(s, n, head, n - 3, n - 3, sep);
      GroupedIsThousands(head, sep);
    }
  }

  /** `s` without any occurrence of `c`. */
  function Remove(s: string, c: char): string {
    if s == [] then [] else (if s[0] == c then [] else [s[0]]) + Remove(s[1..], c)
  }

  lemma {:induction false} RemoveAppend(a: string, b: string, c: char)
    ensures Remove(a + b, c) == Remove(a, c) + Remove(b, c)
  {
    if a == [] {
      assert a + b == b;
    } else {
      assert (a + b)[1..] == a[1..] + b;
      RemoveAppend(a[1..], b, c);
    }
  }

  lemma {:induction false} RemoveAbsent(s: string, c: char)
    requires c !in s
    ensures Remove(s, c) == s
  {
    if s != [] {
      RemoveAbsent(s[1..], c);
    }
  }

  lemma RemoveCons(x: char, t: string, c: char)
    ensures Remove([x] + t, c) == (if x == c then [] else [x]) + Remove(t, c)
  {
    assert ([x] + t)[1..] == t;
  }

  /** Removing `sep` from `g`, a separator and a tail free of it, keeps the tail. */
  lemma RemoveAfterSeparator(g: string, sep: char, tail: string)
    requires sep !in tail
    ensures Remove(g + ([sep] + tail), sep) == Remove(g, sep) + tail
  {
    RemoveAppend(g, [sep] + tail, sep);
    RemoveCons(sep, tail, sep);
    RemoveAbsent(tail, sep);
  }

  lemma SplitAbsent(s: string, k: nat, c: char)
    requires k <= |s| && c !in s
    ensures c !in s[..k] && c !in s[k..]
  {
    assert forall x :: x in s[..k] ==> x in s;
    assert forall x :: x in s[k..] ==> x in s;
  }

  /** Dropping the separators from the grouped text gives the digits back. */
  lemma {:induction false} UngroupGrouped(s: string, sep: char)
    requires sep !in s
    ensures Remove(ThousandsGrouped(s, sep), sep) == s
    decreases |s|
  {
    if |s| > 3 {
      var head, tail := s[..|s| - 3], s[|s| - 3..];
      SplitAbsent(s, |s| - 3, sep);
      UngroupGrouped(head, sep);
      var grouped := ThousandsGrouped(head, sep);
      assert ThousandsGrouped(s, sep) == grouped + [sep] + tail;
      Utils.AppendAssoc(grouped, [sep], tail);
      RemoveAfterSeparator(grouped, sep, tail);
      assert s == head + tail;
    } else {
      RemoveAbsent(s, sep);
    }
  }

  // ---------------------------------------------------------------------
  // The number
  // ---------------------------------------------------------------------

  /** The position of the first '.', or the length when there is none. */
  function DotIndex(s: string): (d: nat)
    ensures d <= |s|
  {
    if s == [] then 0 else if s[0] == '.' then 0 else 1 + DotIndex(s[1..])
  }

  /** The characters after the '.', none when there is no '.'. */
  function FractionOf(s: string): string {
    var d := DotIndex(s);
    if d < |s| then s[d + 1..] else []
  }

  /** `DotIndex` is the first '.', or the length when there is none. */
  lemma {:induction false} DotIndexMeaning(s: string)
    ensures var d := DotIndex(s);
            && (forall k :: 0 <= k < d ==> s[k] != '.')
            && (d < |s| ==> s[d] == '.')
  {
    if s != [] && s[0] != '.' {
      DotIndexMeaning(s[1..]);
    }
  }

  /** And it is the only position with those two properties. */
  lemma {:induction false} DotIndexAt(s: string, d: nat)
    requires d <= |s| && (forall k :: 0 <= k < d ==> s[k] != '.') && (d < |s| ==> s[d] == '.')
    ensures DotIndex(s) == d
  {
    if s != [] && s[0] != '.' {
      DotIndexAt(s[1..], d - 1);
    }
  }

  function Zeros(n: nat): (r: string)
    ensures |r| == n && forall k :: 0 <= k < n ==> r[k] == '0'
  {
    if n == 0 then [] else Zeros(n - 1) + ['0']
  }

  /** The fraction part: the comma, the digits, zeros up to `precision` digits; nothing at precision 0. */
  function FractionText(s: string, precision: nat, comma: char): string {
    if precision == 0 then []
    else
      var frac := FractionOf(s);
      [comma] + frac + Zeros(if |frac| < precision then precision - |frac| else 0)
  }

  /** The text of a number: as is without separators, otherwise its integer digits grouped and its fraction padded. */
  function GroupedText(f: Formatter, val: string, precision: nat): string {
    match f.separators
    case NoSeparators => val
    case Every3Digit(sep) => ThousandsGrouped(IntegerDigits(val), sep) + FractionText(val, precision, f.comma)
  }

  /** The text of the number as written: with `negate`, the '-' is grouped as if it were a digit. */
  function AbsNumTextAsWritten(f: Formatter, absText: string, precision: nat): string {
    if f.negate then GroupedText(f, "-" + absText, precision) else GroupedText(f, absText, precision)
  }

  /** The text of the number with the sign kept out of the digit groups. */
  function AbsNumText(f: Formatter, absText: string, precision: nat): string {
    if f.negate then "-" + GroupedText(f, absText, precision) else GroupedText(f, absText, precision)
  }

  /** The grouping loop of `push_abs_num`: emits `s` with a separator before each group of three from the right. */
  method PushGrouped(into: string, s: string, sep: char) returns (r: string)
    ensures r == into + Grouped(s, sep)
  {
    r := into;
    var idx := 0;
    while idx < |s|
      invariant 0 <= idx <= |s|
      invariant r == into + GroupedPrefix(s, |s|, idx, sep)
    {
      if idx > 0 && (|s| - idx) % 3 == 0 {
        r := r + [sep];
      }
      r := r + [s[idx]];
      idx := idx + 1;
    }
  }

  /** The fraction loops of `push_abs_num`: the comma, the digits after '.', and zeros while fewer than `precision`. */
  method PushFraction(into: string, val: string, precision: nat, comma: char) returns (r: string)
    ensures r == into + FractionText(val, precision, comma)
  {
    r := into;
    if precision > 0 {
      var frac := FractionOf(val);
      r := PushDigits(into + [comma], frac);
      var n := if |frac| < precision then precision - |frac| else 0;
      r := PushZeros(r, |frac| + 1, precision);
      FractionConcat(into, comma, frac, n);
    }
  }

  /** The loop copying the digits after '.'. */
  method PushDigits(into: string, frac: string) returns (r: string)
    ensures r == into + frac
  {
    r := into;
    var count := 0;
    while count < |frac|
      invariant count <= |frac|
      invariant r == into + frac[..count]
    {
      FractionStep(into, frac, count);
      r := r + [frac[count]];
      count := count + 1;
    }
    assert frac[..count] == frac;
  }

  /** The loop `for _ in start..=precision`: one '0' per step. */
  method PushZeros(into: string, start: nat, precision: nat) returns (r: string)
    requires start >= 1
    ensures r == into + Zeros(if start <= precision then precision + 1 - start else 0)
  {
    r := into;
    var k := start;
    while k <= precision
      invariant start <= k <= (if start <= precision then precision + 1 else start)
      invariant r == into + Zeros(k - start)
    {
      ZerosStep(into, k - start);
      r := r + ['0'];
      k := k + 1;
    }
  }

  lemma FractionConcat(into: string, comma: char, frac: string, n: nat)
    ensures into + [comma] + frac + Zeros(n) == into + ([comma] + frac + Zeros(n))
  {
  }

  lemma FractionStep(prefix: string, frac: string, count: nat)
    requires count < |frac|
    ensures prefix + frac[..count] + [frac[count]] == prefix + frac[..count + 1]
  {
    assert frac[..count + 1] == frac[..count] + [frac[count]];
  }

  lemma ZerosStep(prefix: string, n: nat)
    ensures prefix + Zeros(n) + ['0'] == prefix + Zeros(n + 1)
  {
  }

  /** The `Every3Digit` branch of `push_abs_num`: the grouped integer digits, then the fraction. */
  method PushGroupedNumber(into: string, val: string, precision: nat, sep: char, comma: char) returns (r: string)
    ensures r == into + (ThousandsGrouped(IntegerDigits(val), sep) + FractionText(val, precision, comma))
  {
    var decimal := DotIndex(val);
    ghost var digits := ThousandsGrouped(IntegerDigits(val), sep);
    ghost var frac := FractionText(val, precision, comma);
    r := PushGrouped(into, val[..decimal], sep);
    GroupedIsThousands(val[..decimal], sep);
    assert r == into + digits;
    r := PushFraction(r, val, precision, comma);
    Utils.AppendAssoc(into, digits, frac);
  }

  /** `push_abs_num` as written. */
  method PushAbsNumAsWritten(f: Formatter, into: string, absText: string, precision: nat) returns (r: string)
    ensures r == into + AbsNumTextAsWritten(f, absText, precision)
  {
    var val := if f.negate then "-" + absText else absText;
    match f.separators {
      case NoSeparators =>
        r := into + val;
      case Every3Digit(sep) =>
        r := PushGroupedNumber(into, val, precision, sep, f.comma);
    }
  }

  /** `push_abs_num` with the '-' of `negate` emitted before the grouped digits. */
  method PushAbsNum(f: Formatter, into: string, absText: string, precision: nat) returns (r: string)
    ensures r == into + AbsNumText(f, absText, precision)
  {
    ghost var sign := if f.negate then "-" else "";
    r := if f.negate then into + "-" else into;
    assert r == into + sign;
    match f.separators {
      case NoSeparators =>
        r := r + absText;
        assert r == into + (sign + absText);
      case Every3Digit(sep) =>
        ghost var rest := ThousandsGrouped(IntegerDigits(absText), sep) + FractionText(absText, precision, f.comma);
        r := PushGroupedNumber(r, absText, precision, sep, f.comma);
        Utils.AppendAssoc(into, sign, rest);
        assert sign + rest == AbsNumText(f, absText, precision);
    }
  }

  /**
   * `round_dp_with_strategy(precision, MidpointTowardZero)` on the absolute
   * amount, counted in units of the last kept digit: the nearest integer to
   * `x * 10^precision`, and the lower one at a tie.
   */
  function RoundedUnits(x: real, precision: nat): (r: int)
    requires x >= 0.0
    ensures r >= 0
    ensures (r as real) - 0.5 < x * (Pow10(precision) as real) <= (r as real) + 0.5
  {
    var y := x * (Pow10(precision) as real);
    var fl := y.Floor;
    if y - (fl as real) > 0.5 then fl + 1 else fl
  }

  /** The rounding cases of the unit tests: 0.234 and 0.235 give 0.23, 0.245 gives 0.24. */
  lemma RoundingExamples()
    ensures RoundedUnits(0.234, 2) == 23
    ensures RoundedUnits(0.235, 2) == 23
    ensures RoundedUnits(0.245, 2) == 24
    ensures RoundedUnits(1.0, 2) == 100
  {
    assert Pow10(2) == 100;
  }

  /** A '.' in the text: the digits before it and the fraction after it, as `to_string` prints a decimal. */
  predicate DecimalText(s: string) {
    && (forall k :: 0 <= k < |s| ==> IsDigit(s[k]) || s[k] == '.')
    && 0 < DotIndex(s)
    && forall k :: DotIndex(s) < k < |s| ==> s[k] != '.'
  }

  /** The digits before the '.'. */
  function IntegerDigits(s: string): string {
    s[..DotIndex(s)]
  }

  /**
   * With separators, the number is the sign, the integer digits grouped by
   * threes from the right, and the fraction; the grouping starts with the
   * first digit and removing the separators gives the digits back.
   */
  lemma AbsNumTextShape(f: Formatter, absText: string, precision: nat)
    requires f.separators.Every3Digit? && !IsDigit(f.separators.sep) && DecimalText(absText)
    ensures var grouped := ThousandsGrouped(IntegerDigits(absText), f.separators.sep);
            && AbsNumText(f, absText, precision)
               == (if f.negate then "-" else "") + grouped + FractionText(absText, precision, f.comma)
            && Remove(grouped, f.separators.sep) == IntegerDigits(absText)
            && grouped != [] && grouped[0] == absText[0]
  {
    var digits := IntegerDigits(absText);
    var sep := f.separators.sep;
    DotIndexMeaning(absText);
    assert sep !in digits by {
      forall k | 0 <= k < |digits| ensures digits[k] != sep {
        assert digits[k] == absText[k];
      }
    }
    UngroupGrouped(digits, sep);
    ThousandsFirst(digits, sep);
    var sign, grouped, frac := if f.negate then "-" else "", ThousandsGrouped(digits, sep), FractionText(absText, precision, f.comma);
    assert AbsNumText(f, absText, precision) == sign + (grouped + frac);
    Utils.AppendAssoc(sign, grouped, frac);
  }

  /** At a positive precision the fraction is the comma and at least `precision` digits: the given ones, then zeros. */
  lemma FractionPadded(s: string, precision: nat, comma: char)
    requires precision > 0
    ensures var frac := FractionOf(s);
            var t := FractionText(s, precision, comma);
            && |t| == 1 + (if |frac| < precision then precision else |frac|)
            && t[0] == comma
            && (forall k :: 0 <= k < |frac| ==> t[1 + k] == frac[k])
            && (forall k :: |frac| < k < |t| ==> t[k] == '0')
  {
    var frac := FractionOf(s);
    var z := Zeros(if |frac| < precision then precision - |frac| else 0);
    var t := FractionText(s, precision, comma);
    assert t == [comma] + frac + z;
    forall k | 0 <= k < |frac| ensures t[1 + k] == frac[k] {
      assert t[1 + k] == ([comma] + frac)[1 + k];
    }
    forall k | |frac| < k < |t| ensures t[k] == '0' {
      assert t[k] == z[k - 1 - |frac|];
    }
  }

  lemma {:induction false} ThousandsFirst(s: string, sep: char)
    requires s != []
    ensures ThousandsGrouped(s, sep) != [] && ThousandsGrouped(s, sep)[0] == s[0]
    decreases |s|
  {
    if |s| > 3 {
      ThousandsFirst(s[..|s| - 3], sep);
    }
  }

  /** Without `negate` the two versions agree; `NegatedAsWritten` says where they differ with it. */
  lemma AsWrittenAgreesOtherwise(f: Formatter, absText: string, precision: nat)
    requires !f.negate
    ensures AbsNumTextAsWritten(f, absText, precision) == AbsNumText(f, absText, precision)
  {
  }

  /** Grouping a sign followed by digits adds a separator after the sign exactly when the digits fill whole groups. */
  lemma {:induction false} GroupedAfterSign(d: string, sep: char)
    requires d != []
    ensures ThousandsGrouped("-" + d, sep) == "-" + (if |d| % 3 == 0 then [sep] else []) + ThousandsGrouped(d, sep)
    decreases |d|
  {
    if |d| <= 3 {
      GroupedAfterSignShort(d, sep);
    } else {
      var init, tail := d[..|d| - 3], d[|d| - 3..];
      GroupedAfterSign(init, sep);
      GroupedAfterSignStep(d, sep, if |init| % 3 == 0 then [sep] else []);
    }
  }

  lemma GroupedAfterSignShort(d: string, sep: char)
    requires 1 <= |d| <= 3
    ensures ThousandsGrouped("-" + d, sep) == "-" + (if |d| % 3 == 0 then [sep] else []) + ThousandsGrouped(d, sep)
  {
    var s := "-" + d;
    if |d| == 3 {
      assert s[..1] == "-" && s[1..] == d;
    }
  }

  lemma GroupedAfterSignStep(d: string, sep: char, extra: string)
    requires |d| > 3
    requires ThousandsGrouped("-" + d[..|d| - 3], sep) == "-" + extra + ThousandsGrouped(d[..|d| - 3], sep)
    ensures ThousandsGrouped("-" + d, sep) == "-" + extra + ThousandsGrouped(d, sep)
  {
    var s := "-" + d;
    var init, tail := d[..|d| - 3], d[|d| - 3..];
    assert ThousandsGrouped(s, sep) == ThousandsGrouped("-" + init, sep) + [sep] + tail by {
      assert s[..|s| - 3] == "-" + init;
      assert s[|s| - 3..] == tail;
    }
    assert ThousandsGrouped(d, sep) == ThousandsGrouped(init, sep) + [sep] + tail;
  }



  /** A leading '-' moves the '.' one place and leaves the fraction alone. */
  lemma SignedParts(absText: string, precision: nat, comma: char)
    ensures IntegerDigits("-" + absText) == "-" + IntegerDigits(absText)
    ensures FractionText("-" + absText, precision, comma) == FractionText(absText, precision, comma)
  {
    var s := "-" + absText;
    assert s[1..] == absText;
    assert DotIndex(s) == 1 + DotIndex(absText);
    var d := DotIndex(absText);
    assert s[..1 + d] == "-" + absText[..d];
    if d < |absText| {
      assert s[d + 2..] == absText[d + 1..];
    }
  }

  lemma NegatedGrouped(absText: string, precision: nat, sep: char, comma: char)
    requires 0 < DotIndex(absText)
    ensures var digits := IntegerDigits(absText);
            ThousandsGrouped(IntegerDigits("-" + absText), sep) + FractionText("-" + absText, precision, comma)
            == "-" + (if |digits| % 3 == 0 then [sep] else []) + (ThousandsGrouped(digits, sep) + FractionText(absText, precision, comma))
  {
    var digits := IntegerDigits(absText);
    var extra := if |digits| % 3 == 0 then [sep] else [];
    assert IntegerDigits("-" + absText) == "-" + digits
        && FractionText("-" + absText, precision, comma) == FractionText(absText, precision, comma) by {
      SignedParts(absText, precision, comma);
    }
    assert ThousandsGrouped("-" + digits, sep) == "-" + extra + ThousandsGrouped(digits, sep) by {
      GroupedAfterSign(digits, sep);
    }
    Utils.AppendAssoc("-" + extra, ThousandsGrouped(digits, sep), FractionText(absText, precision, comma));
  }

  /**
   * With `negate` and separators, both versions are the sign followed by
   * the grouped digits and the fraction; the version as written also puts
   * a separator right after the sign when the number of integer digits is
   * a multiple of 3, and only then. Without separators they agree.
   */
  lemma NegatedAsWritten(f: Formatter, absText: string, precision: nat)
    requires f.negate && DecimalText(absText)
    ensures f.separators.NoSeparators? ==> AbsNumTextAsWritten(f, absText, precision) == AbsNumText(f, absText, precision)
    ensures f.separators.Every3Digit? ==>
              var sep := f.separators.sep;
              var digits := IntegerDigits(absText);
              var body := ThousandsGrouped(digits, sep) + FractionText(absText, precision, f.comma);
              && AbsNumText(f, absText, precision) == "-" + body
              && AbsNumTextAsWritten(f, absText, precision) == "-" + (if |digits| % 3 == 0 then [sep] else []) + body
  {
    if f.separators.Every3Digit? {
      NegatedGrouped(absText, precision, f.separators.sep, f.comma);
    }
  }

  lemma GroupedSignedExample()
    ensures ThousandsGrouped("-123456", ',') == "-,123,456"
    ensures ThousandsGrouped("123456", ',') == "123,456"
  {
    assert "-123456"[..4] == "-123" && "-123456"[4..] == "456";
    assert "-123"[..1] == "-" && "-123"[1..] == "123";
    assert ThousandsGrouped("-123", ',') == "-,123";
    assert "123456"[..3] == "123" && "123456"[3..] == "456";
  }

  /** With `negate`, 123456 comes out as "-,123,456": a separator right after the sign. */
  lemma NegatedSeparatorAfterSign()
    ensures AbsNumTextAsWritten(Default().(negate := true), "123456", 0) == "-,123,456"
  {
    var val := "-" + "123456";
    assert val == "-123456";
    assert DotIndex(val) == 7 by {
      DotIndexAt("-123456", 7);
    }
    assert val[..7] == "-123456";
    GroupedSignedExample();
  }

  /** The corrected text of the same amount keeps the sign out of the groups. */
  lemma NegatedSignBeforeGroups()
    ensures AbsNumText(Default().(negate := true), "123456", 0) == "-123,456"
  {
    assert DotIndex("123456") == 6 by {
      DotIndexAt("123456", 6);
    }
    assert "123456"[..6] == "123456";
    GroupedSignedExample();
    assert FractionText("123456", 0, '.') == [];
    assert "-" + "123,456" + [] == "-123,456";
  }

  // ---------------------------------------------------------------------
  // The commodity and the whole amount
  // ---------------------------------------------------------------------

  /** `char::is_alphanumeric`, for the ASCII range. */
  predicate AllAlphanumeric(s: string) {
    forall k :: 0 <= k < |s| ==> IsAsciiAlphanumeric(s[k])
  }

  function Quoted(s: string): string {
    ['"'] + s + ['"']
  }

  /** The text `push_commodity` emits. */
  function CommodityText(q: SymbolQuote, comm: Commodity): string {
    match q
    case UnquotedSymbol => comm.symbol
    case UnquotedName => comm.name
    case QuotedSymbolIfSpecial => if AllAlphanumeric(comm.symbol) then comm.symbol else Quoted(comm.symbol)
    case QuotedSymbolAlways => Quoted(comm.symbol)
    case QuotedNameIfSpecial => if AllAlphanumeric(comm.name) then comm.name else Quoted(comm.name)
    case QuotedNameAlways => Quoted(comm.name)
  }

  /** The `*IfSpecial` modes quote exactly when some character is not alphanumeric; the `*Always` modes always quote. */
  lemma QuotingMeaning(q: SymbolQuote, comm: Commodity)
    ensures var shown := if q in {UnquotedName, QuotedNameIfSpecial, QuotedNameAlways} then comm.name else comm.symbol;
            var quote := q in {QuotedNameAlways, QuotedSymbolAlways} ||
                         (q in {QuotedNameIfSpecial, QuotedSymbolIfSpecial} &&
                          exists k :: 0 <= k < |shown| && !IsAsciiAlphanumeric(shown[k]));
            CommodityText(q, comm) == if quote then Quoted(shown) else shown
  {
  }

  /** `push_commodity`. */
  method PushCommodity(f: Formatter, into: string, comm: Commodity) returns (r: string)
    ensures r == into + CommodityText(f.quoteSymbol, comm)
  {
    match f.quoteSymbol {
      case UnquotedSymbol => r := into + comm.symbol;
      case UnquotedName => r := into + comm.name;
      case QuotedSymbolIfSpecial =>
        if AllAlphanumeric(comm.symbol) {
          r := into + comm.symbol;
        } else {
          r := into + ['"'] + comm.symbol + ['"'];
        }
      case QuotedSymbolAlways => r := into + ['"'] + comm.symbol + ['"'];
      case QuotedNameIfSpecial =>
        if AllAlphanumeric(comm.name) {
          r := into + comm.name;
        } else {
          r := into + ['"'] + comm.name + ['"'];
        }
      case QuotedNameAlways => r := into + ['"'] + comm.name + ['"'];
    }
  }

  function ZeroText(z: ZeroStyle): string {
    match z
    case Empty => ""
    case Replace(t) => t
  }

  /** `push_zero`: the replacement text, nothing for `Empty`. */
  method PushZero(f: Formatter, into: string) returns (r: string)
    ensures r == into + ZeroText(f.zero)
    ensures f.zero.Empty? ==> r == into
  {
    match f.zero {
      case Empty => r := into;
      case Replace(t) => r := into + t;
    }
  }

  /** The layout with the symbol before the number. */
  function SymbolBeforeText(negative: bool, style: Negative, sym: string, num: string): string {
    if negative then
      match style
      case SeparateSign => "-" + sym + " " + num
      case MinusSign => sym + " -" + num
      case Parenthesis => sym + " (" + num + ")"
    else sym + " " + num
  }

  /** The layout with the symbol after the number. */
  function SymbolAfterText(negative: bool, style: Negative, sym: string, num: string): string {
    if negative then
      match style
      case Parenthesis => "(" + num + ") " + sym
      case _ => "-" + num + " " + sym
    else num + " " + sym
  }

  /** The text `push` emits for an amount. */
  function DisplayText(f: Formatter, value: real, absText: string, comm: Commodity): string {
    var num := AbsNumTextAsWritten(f, absText, comm.displayPrecision);
    var sym := CommodityText(f.quoteSymbol, comm);
    if value == 0.0 then ZeroText(f.zero)
    else if f.hideSymbolIf == Some(comm.id) then num
    else if !comm.symbolAfter then SymbolBeforeText(value < 0.0, f.negative, sym, num)
    else SymbolAfterText(value < 0.0, f.negative, sym, num)
  }

  /** The branches of `push` for a commodity shown before the number. */
  method PushSymbolBefore(f: Formatter, into: string, negative: bool, absText: string, comm: Commodity) returns (r: string)
    ensures r == into + SymbolBeforeText(negative, f.negative,
                                         CommodityText(f.quoteSymbol, comm), AbsNumTextAsWritten(f, absText, comm.displayPrecision))
  {
    ghost var sym := CommodityText(f.quoteSymbol, comm);
    ghost var num := AbsNumTextAsWritten(f, absText, comm.displayPrecision);
    if negative {
      match f.negative {
        case SeparateSign =>
          r := PushCommodity(f, into + "-", comm);
          r := PushAbsNumAsWritten(f, r + " ", absText, comm.displayPrecision);
          assert r == into + ("-" + sym + " " + num);
        case MinusSign =>
          r := PushCommodity(f, into, comm);
          r := PushAbsNumAsWritten(f, r + " -", absText, comm.displayPrecision);
          assert r == into + (sym + " -" + num);
        case Parenthesis =>
          r := PushCommodity(f, into, comm);
          r := PushAbsNumAsWritten(f, r + " (", absText, comm.displayPrecision);
          r := r + ")";
          assert r == into + (sym + " (" + num + ")");
      }
    } else {
      r := PushCommodity(f, into, comm);
      r := PushAbsNumAsWritten(f, r + " ", absText, comm.displayPrecision);
      assert r == into + (sym + " " + num);
    }
  }

  /** The branches of `push` for a commodity shown after the number. */
  method PushSymbolAfter(f: Formatter, into: string, negative: bool, absText: string, comm: Commodity) returns (r: string)
    ensures r == into + SymbolAfterText(negative, f.negative,
                                        CommodityText(f.quoteSymbol, comm), AbsNumTextAsWritten(f, absText, comm.displayPrecision))
  {
    ghost var sym := CommodityText(f.quoteSymbol, comm);
    ghost var num := AbsNumTextAsWritten(f, absText, comm.displayPrecision);
    if negative {
      if f.negative == Parenthesis {
        r := PushAbsNumAsWritten(f, into + "(", absText, comm.displayPrecision);
        r := r + ")";
        r := PushCommodity(f, r + " ", comm);
        assert r == into + ("(" + num + ") " + sym);
      } else {
        r := PushAbsNumAsWritten(f, into + "-", absText, comm.displayPrecision);
        r := PushCommodity(f, r + " ", comm);
        assert r == into + ("-" + num + " " + sym);
      }
    } else {
      r := PushAbsNumAsWritten(f, into, absText, comm.displayPrecision);
      r := PushCommodity(f, r + " ", comm);
      assert r == into + (num + " " + sym);
    }
  }

  /** `push`: a zero amount, a hidden symbol, or the number and symbol in the configured layout. */
  method Push(f: Formatter, into: string, value: real, absText: string, comm: Commodity) returns (r: string)
    ensures r == into + DisplayText(f, value, absText, comm)
  {
    if value == 0.0 {
      r := PushZero(f, into);
      return;
    }
    var precision := comm.displayPrecision;
    if f.hideSymbolIf.Some? && f.hideSymbolIf.value == comm.id {
      r := PushAbsNumAsWritten(f, into, absText, precision);
      return;
    }
    if !comm.symbolAfter {
      r := PushSymbolBefore(f, into, value < 0.0, absText, comm);
    } else {
      r := PushSymbolAfter(f, into, value < 0.0, absText, comm);
    }
  }

  /** `display`: `push` into an empty string. */
  method Display(f: Formatter, value: real, absText: string, comm: Commodity) returns (r: string)
    ensures r == DisplayText(f, value, absText, comm)
  {
    r := Push(f, "", value, absText, comm);
  }

  /** `display_symbol`. */
  method DisplaySymbol(f: Formatter, comm: Commodity) returns (r: string)
    ensures r == CommodityText(f.quoteSymbol, comm)
  {
    r := PushCommodity(f, "", comm);
  }

  /** A zero amount shows only the zero text, so nothing at all with `Empty`. */
  lemma ZeroShowsReplacement(f: Formatter, absText: string, comm: Commodity)
    ensures DisplayText(f, 0.0, absText, comm) == ZeroText(f.zero)
    ensures f.zero.Empty? ==> DisplayText(f, 0.0, absText, comm) == ""
  {
  }

  /** A hidden commodity shows only the number, whatever the sign and layout. */
  lemma HiddenSymbolShowsNumber(f: Formatter, value: real, absText: string, comm: Commodity)
    requires value != 0.0 && f.hideSymbolIf == Some(comm.id)
    ensures DisplayText(f, value, absText, comm) == AbsNumTextAsWritten(f, absText, comm.displayPrecision)
  {
  }

  /**
   * The negative layouts: with the symbol before, `EUR -x`, `EUR (x)` or
   * `-EUR x`; with it after, `-x EUR` for both sign styles or `(x) EUR`.
   */
  lemma NegativeLayouts(f: Formatter, value: real, absText: string, comm: Commodity)
    requires value < 0.0 && f.hideSymbolIf != Some(comm.id)
    ensures var num := AbsNumTextAsWritten(f, absText, comm.displayPrecision);
            var sym := CommodityText(f.quoteSymbol, comm);
            var shown := DisplayText(f, value, absText, comm);
            && (!comm.symbolAfter && f.negative == MinusSign ==> shown == sym + " -" + num)
            && (!comm.symbolAfter && f.negative == Parenthesis ==> shown == sym + " (" + num + ")")
            && (!comm.symbolAfter && f.negative == SeparateSign ==> shown == "-" + sym + " " + num)
            && (comm.symbolAfter && f.negative != Parenthesis ==> shown == "-" + num + " " + sym)
            && (comm.symbolAfter && f.negative == Parenthesis ==> shown == "(" + num + ") " + sym)
  {
  }

  // ---------------------------------------------------------------------
  // The worked examples of the unit tests
  // ---------------------------------------------------------------------

  function Eur(precision: nat, after: bool): Commodity {
    Commodities.Commodity(1, "EUR", "EUR", after, true, None, precision)
  }

  /** Without `negate`, the number as written is the grouped digits followed by the fraction. */
  lemma UnsignedAsWritten(f: Formatter, absText: string, precision: nat, grouped: string, fraction: string)
    requires !f.negate && f.separators.Every3Digit?
    requires ThousandsGrouped(IntegerDigits(absText), f.separators.sep) == grouped
    requires FractionText(absText, precision, f.comma) == fraction
    ensures AbsNumTextAsWritten(f, absText, precision) == grouped + fraction
  {
  }

  /** The number of "234,567.00 EUR": no leading separator, and the fraction padded to two digits. */
  lemma PaddedExample()
    ensures AbsNumTextAsWritten(Default(), "234567", 2) == "234,567.00"
  {
    PaddedDigits();
    PaddedFraction();
  }

  lemma PaddedDigits()
    ensures IntegerDigits("234567") == "234567" && ThousandsGrouped("234567", ',') == "234,567"
  {
    assert DotIndex("234567") == 6 by {
      DotIndexAt("234567", 6);
    }
    assert "234567"[..6] == "234567";
    assert "234567"[..3] == "234" && "234567"[3..] == "567";
  }

  lemma PaddedFraction()
    ensures FractionText("234567", 2, '.') == ".00"
  {
    assert DotIndex("234567") == 6 by {
      DotIndexAt("234567", 6);
    }
    assert FractionOf("234567") == [];
    assert Zeros(2) == "00";
  }

  /** 1234567 grouped by threes, whatever the separator. */
  lemma GroupedMillion(sep: char)
    ensures ThousandsGrouped("1234567", sep) == ['1', sep, '2', '3', '4', sep, '5', '6', '7']
  {
    assert "1234567"[..4] == "1234" && "1234567"[4..] == "567";
    assert "1234"[..1] == "1" && "1234"[1..] == "234";
    assert ThousandsGrouped("1234", sep) == ['1', sep, '2', '3', '4'];
  }

  /** The number of "1,234,567.24 EUR". */
  lemma MillionExample()
    ensures AbsNumTextAsWritten(Default(), "1234567.24", 2) == "1,234,567.24"
  {
    assert AbsNumTextAsWritten(Default(), "1234567.24", 2) == "1,234,567" + ".24" by {
      MillionDigits();
      GroupedMillion(',');
      FractionTwoExample('.');
      UnsignedAsWritten(Default(), "1234567.24", 2, "1,234,567", ".24");
    }
    JoinedMillions();
  }

  /** The number of "1 234 567,24 EUR": a space as separator and ',' as decimal comma. */
  lemma SpaceSeparatorExample()
    ensures AbsNumTextAsWritten(Default().(comma := ',', separators := Every3Digit(' ')), "1234567.24", 2) == "1 234 567,24"
  {
    assert AbsNumTextAsWritten(Default().(comma := ',', separators := Every3Digit(' ')), "1234567.24", 2) == "1 234 567" + ",24" by {
      MillionDigits();
      GroupedMillion(' ');
      FractionTwoExample(',');
      UnsignedAsWritten(Default().(comma := ',', separators := Every3Digit(' ')), "1234567.24", 2, "1 234 567", ",24");
    }
    JoinedMillions();
  }

  lemma FractionTwoExample(comma: char)
    ensures FractionText("1234567.24", 2, comma) == [comma, '2', '4']
  {
    DotIndexAt("1234567.24", 7);
    assert FractionOf("1234567.24") == "24";
    assert Zeros(0) == [];
  }

  lemma FractionFourExample()
    ensures FractionText("1234567.238", 4, '.') == ".2380"
  {
    assert DotIndex("1234567.238") == 7 by {
      DotIndexAt("1234567.238", 7);
    }
    assert FractionOf("1234567.238") == "238";
    assert Zeros(1) == "0";
  }

  /** The number of "EUR 1,234,567.2380": a fraction of three digits padded to the precision of four. */
  lemma PrecisionFourExample()
    ensures AbsNumTextAsWritten(Default(), "1234567.238", 4) == "1,234,567.2380"
  {
    assert AbsNumTextAsWritten(Default(), "1234567.238", 4) == "1,234,567" + ".2380" by {
      MillionDigits();
      GroupedMillion(',');
      FractionFourExample();
      UnsignedAsWritten(Default(), "1234567.238", 4, "1,234,567", ".2380");
    }
    JoinedMillions();
  }

  /** The texts of the million examples, put together. */
  lemma JoinedMillions()
    ensures "1,234,567" + ".24" == "1,234,567.24"
    ensures "1 234 567" + ",24" == "1 234 567,24"
    ensures "1,234,567" + ".2380" == "1,234,567.2380"
  {
  }

  lemma MillionDigits()
    ensures IntegerDigits("1234567.238") == "1234567"
    ensures IntegerDigits("1234567.24") == "1234567"
  {
    MillionDigitsOf("1234567.238");
    MillionDigitsOf("1234567.24");
  }

  lemma MillionDigitsOf(s: string)
    requires |s| > 7 && s[..8] == "1234567."
    ensures IntegerDigits(s) == "1234567"
  {
    assert s[..7] == s[..8][..7];
    DotIndexAt(s, 7);
  }

  /** "1234567.24 EUR" and "EUR (1234567.24)" without separators. */
  lemma NoSeparatorExamples()
    ensures DisplayText(Default().(separators := NoSeparators), 1234567.238, "1234567.24", Eur(2, true)) == "1234567.24 EUR"
    ensures DisplayText(Default().(separators := NoSeparators, negative := Parenthesis), -1234567.238, "1234567.24", Eur(2, false))
            == "EUR (1234567.24)"
  {
  }

  /** "1,234,567.24 \"MY SYMB\"": a symbol with a space is quoted. */
  lemma QuotedSymbolExample()
    ensures CommodityText(QuotedSymbolIfSpecial, Commodities.Commodity(5, "MY SYMB", "MY SYMB", true, true, None, 2))
            == "\"MY SYMB\""
    ensures CommodityText(QuotedSymbolIfSpecial, Eur(2, true)) == "EUR"
  {
    assert !IsAsciiAlphanumeric("MY SYMB"[2]);
  }

  /** The whole of "-,123,456 EUR": with `negate`, a positive amount shown after a separator right behind the sign. */
  lemma NegatedDisplayExample()
    ensures DisplayText(Default().(negate := true), 123456.0, "123456", Eur(0, true)) == "-,123,456 EUR"
  {
    NegatedSeparatorAfterSign();
  }
}
