/**
 * The pure helpers of the KMyMoney importer: prices stored as the text
 * "num/den" and truncated to the currency's price precision, and the
 * choice of an account kind from the hints in an account's description.
 */
module KmyMoney {
  import opened Wrappers
  import opened Text
  import opened AccountKinds

  // ---------------------------------------------------------------------
  // Integers as text
  // ---------------------------------------------------------------------

  const I64Min: int := -0x8000_0000_0000_0000
  const I64Max: int := 0x7FFF_FFFF_FFFF_FFFF

  predicate AllDigits(s: string) {
    forall k :: 0 <= k < |s| ==> IsDigit(s[k])
  }

  /** The value of a string of decimal digits, most significant first. */
  function DigitsValue(s: string): (n: nat)
    requires AllDigits(s)
  {
    if s == [] then 0
    else DigitsValue(s[..|s| - 1]) * 10 + (s[|s| - 1] as int - '0' as int)
  }

  /**
   * `str::parse::<i64>`: an optional '+' or '-' followed by at least one
   * decimal digit and nothing else, within the range of `i64`.
   */
  function ParseI64(s: string): (r: Option<int>)
    ensures r.Some? ==> I64Min <= r.value <= I64Max
  {
    var negative := |s| > 0 && s[0] == '-';
    var digits := if |s| > 0 && (s[0] == '-' || s[0] == '+') then s[1..] else s;
    if digits == [] || !AllDigits(digits) then None
    else
      var d: int := DigitsValue(digits);
      var v := if negative then -d else d;
      if I64Min <= v <= I64Max then Some(v) else None
  }

  /** The decimal digits of a natural number, without leading zeros. */
  function Digits(n: nat): (s: string)
    ensures AllDigits(s) && s != []
  {
    if n < 10 then [('0' as int + n) as char]
    else Digits(n / 10) + [('0' as int + n % 10) as char]
  }

  lemma {:induction false} DigitsValueOfDigits(n: nat)
    ensures DigitsValue(Digits(n)) == n
  {
    if n >= 10 {
      DigitsValueOfDigits(n / 10);
      var s := Digits(n);
      assert s[..|s| - 1] == Digits(n / 10);
    }
  }

  /** An integer as Rust prints it. */
  function ShowInt(n: int): string {
    if n < 0 then "-" + Digits(-n) else Digits(n)
  }

  /** Parsing reads back every `i64` as it is printed. */
  lemma ParseShowInt(n: int)
    requires I64Min <= n <= I64Max
    ensures ParseI64(ShowInt(n)) == Some(n)
  {
    var s := ShowInt(n);
    if n < 0 {
      var ds := Digits(-n);
      DigitsValueOfDigits(-n);
      assert s == "-" + ds && s[0] == '-' && s[1..] == ds;
    } else {
      var ds := Digits(n);
      DigitsValueOfDigits(n);
      assert s == ds && IsDigit(s[0]);
    }
  }

  // ---------------------------------------------------------------------
  // Prices
  // ---------------------------------------------------------------------

  function Abs(x: int): nat {
    if x < 0 then -x else x
  }

  /** Integer division truncating toward zero, as Rust's `/` on integers. */
  function TruncDiv(a: int, b: int): int
    requires b != 0
  {
    var q := Abs(a) / Abs(b);
    if (a < 0) == (b < 0) then q else -q
  }

  /**
   * Truncating `a / b` toward zero: the magnitude is the largest whole
   * number of `|b|` that fits in `|a|`, with the sign of the exact
   * quotient.
   */
  lemma TruncDivMeaning(a: int, b: int)
    requires b != 0
    ensures var q := TruncDiv(a, b);
            && Abs(q) * Abs(b) <= Abs(a) < (Abs(q) + 1) * Abs(b)
            && (q == 0 || ((q > 0) <==> ((a > 0) == (b > 0))))
  {
    var q := TruncDiv(a, b);
    TruncDivMagnitude(a, b);
    DivBounds(Abs(a), Abs(b));
  }

  lemma TruncDivMagnitude(a: int, b: int)
    requires b != 0
    ensures Abs(TruncDiv(a, b)) == Abs(a) / Abs(b)
    ensures TruncDiv(a, b) == 0 || ((TruncDiv(a, b) > 0) <==> ((a > 0) == (b > 0)))
  {
    var x, y := Abs(a), Abs(b);
    var q0: int := x / y;
    DivNonNegative(x, y);
    var q := TruncDiv(a, b);
    if a == 0 {
      assert q0 == 0 && q == 0;
    } else if (a < 0) == (b < 0) {
      assert q == q0 && Abs(q) == q0;
      assert (a > 0) == (b > 0);
    } else {
      assert q == -q0 && Abs(q) == q0;
      assert (a > 0) != (b > 0);
    }
  }

  lemma DivNonNegative(x: nat, y: nat)
    requires y > 0
    ensures x / y >= 0 && (x == 0 ==> x / y == 0)
  {
  }

  /** Euclidean division of naturals brackets the dividend between two multiples of the divisor. */
  lemma DivBounds(x: nat, y: nat)
    requires y > 0
    ensures (x / y) * y <= x < (x / y + 1) * y
  {
    var q, m := x / y, x % y;
    assert x == q * y + m && 0 <= m < y;
    assert (q + 1) * y == q * y + y;
  }

  lemma MulSign(x: int, y: nat)
    requires y >= 1
    ensures x > 0 ==> x * y > 0
    ensures x < 0 ==> x * y < 0
  {
  }

  lemma AbsMul(a: int, p: nat)
    ensures Abs(a * p) == Abs(a) * p
  {
    if a < 0 {
      assert a * p == -(Abs(a) * p);
    }
  }

  /**
   * The price `num / den` truncated toward zero to `precision` decimals,
   * as its number of units of `10^-precision`.
   */
  function TruncatedUnits(num: int, den: int, precision: nat): int
    requires den != 0
  {
    TruncDiv(num * Pow10(precision), den)
  }

  /**
   * When `parse_price` returns rather than panics: the text is empty, or
   * it splits into exactly two parts around '/' and the division it reaches,
   * if any, has a non-zero denominator.
   */
  predicate ParsePriceDefined(text: string) {
    text == []
    || var parts := Split(text, '/');
       && |parts| == 2
       && (ParseI64(parts[0]).None? || ParseI64(parts[0]) == Some(0)
           || ParseI64(parts[1]).None? || ParseI64(parts[1]) != Some(0))
  }

  /**
   * `parse_price`: no price for an empty text; zero for a zero numerator
   * (the denominator is not read); otherwise the quotient truncated toward
   * zero to `precision` decimals.  A part that is not an `i64` is an error.
   */
  function ParsePrice(text: string, precision: nat): (r: Result<Option<real>>)
    requires precision < 256
    requires ParsePriceDefined(text)
    ensures text == [] ==> r == Ok(None)
    ensures r.Ok? && text != [] ==> r.value.Some?
  {
    if text == [] then Ok(None)
    else
      var parts := Split(text, '/');
      match ParseI64(parts[0])
      case None => Err("cannot parse integer")
      case Some(num) =>
        if num == 0 then Ok(Some(0.0))
        else
          match ParseI64(parts[1])
          case None => Err("cannot parse integer")
          case Some(den) =>
            Ok(Some(TruncatedUnits(num, den, precision) as real / Pow10(precision) as real))
  }

  /**
   * A parsed price is the exact quotient truncated toward zero: a whole
   * number of `10^-precision` units, of the sign of the quotient, and less
   * than one unit away from it.
   */
  lemma ParsePriceTruncates(num: int, den: int, precision: nat)
    requires I64Min <= num <= I64Max && I64Min <= den <= I64Max && num != 0 && den != 0
    requires precision < 256
    ensures var text := ShowInt(num) + "/" + ShowInt(den);
            && ParsePriceDefined(text)
            && var q := TruncatedUnits(num, den, precision);
               && ParsePrice(text, precision) == Ok(Some(q as real / Pow10(precision) as real))
               && Abs(q) * Abs(den) <= Abs(num) * Pow10(precision) < (Abs(q) + 1) * Abs(den)
               && (q == 0 || ((q > 0) <==> ((num > 0) == (den > 0))))
  {
    var text := ShowInt(num) + "/" + ShowInt(den);
    SplitShown(num, den);
    ParseShowInt(num);
    ParseShowInt(den);
    var a := num * Pow10(precision);
    TruncDivMeaning(a, den);
    AbsMul(num, Pow10(precision));
    MulSign(num, Pow10(precision));
  }

  /** A printed integer holds no '/'. */
  lemma SplitShown(num: int, den: int)
    ensures Split(ShowInt(num) + "/" + ShowInt(den), '/') == [ShowInt(num), ShowInt(den)]
  {
    SplitAround(ShowInt(num), ShowInt(den), '/');
  }

  /** Splitting `a + [sep] + b` where neither part holds `sep` gives the two parts. */
  lemma {:induction false} SplitAround(a: string, b: string, sep: char)
    requires sep !in a && sep !in b
    ensures Split(a + [sep] + b, sep) == [a, b]
  {
    if a == [] {
      assert [sep] + b == a + [sep] + b;
      SplitNone(b, sep);
      assert ([sep] + b)[1..] == b;
    } else {
      SplitAround(a[1..], b, sep);
      assert (a + [sep] + b)[1..] == a[1..] + [sep] + b;
      assert [a[0]] + a[1..] == a;
    }
  }

  /** A string without the separator is a single piece. */
  lemma {:induction false} SplitNone(s: string, sep: char)
    requires sep !in s
    ensures Split(s, sep) == [s]
  {
    if s != [] {
      SplitNone(s[1..], sep);
      assert [s[0]] + s[1..] == s;
    }
  }

  /** A zero numerator gives a zero price whatever follows the '/'. */
  lemma ZeroNumerator(den: string, precision: nat)
    requires precision < 256 && '/' !in den
    ensures ParsePriceDefined("0/" + den)
    ensures ParsePrice("0/" + den, precision) == Ok(Some(0.0))
  {
    SplitAround("0", den, '/');
    assert "0/" + den == "0" + ['/'] + den;
  }

  /** A numerator that is not a number is an error, not a panic. */
  lemma BadNumerator(den: string, precision: nat)
    requires precision < 256 && '/' !in den
    ensures ParsePriceDefined("x/" + den)
    ensures ParsePrice("x/" + den, precision).Err?
  {
    SplitAround("x", den, '/');
    assert "x/" + den == "x" + ['/'] + den;
  }

  /** "13687/35" (391.0571...) at precision 2 is 391.05. */
  lemma PriceExample()
    ensures ParsePriceDefined("13687/35")
    ensures ParsePrice("13687/35", 2) == Ok(Some(391.05))
  {
    ShownExample();
    ParsePriceTruncates(13687, 35, 2);
    assert Pow10(2) == 100;
    assert TruncatedUnits(13687, 35, 2) == 39105;
    assert 39105 as real / 100 as real == 391.05;
  }

  lemma ShownExample()
    ensures ShowInt(13687) + "/" + ShowInt(35) == "13687/35"
  {
    assert Digits(1) == "1";
    assert Digits(13) == "13";
    assert Digits(136) == "136";
    assert Digits(1368) == "1368";
    assert Digits(13687) == "13687";
    assert Digits(3) == "3";
    assert Digits(35) == "35";
  }

  // ---------------------------------------------------------------------
  // Account kinds
  // ---------------------------------------------------------------------

  const HintPrefix := "alere:"

  /** The first line that starts with "alere:", if any. */
  function FirstHint(lines: seq<string>): (r: Option<string>)
    ensures r.Some? ==> exists k :: 0 <= k < |lines| && lines[k] == r.value && StartsWith(lines[k], HintPrefix)
                                   && forall j :: 0 <= j < k ==> !StartsWith(lines[j], HintPrefix)
    ensures r.None? <==> forall k :: 0 <= k < |lines| ==> !StartsWith(lines[k], HintPrefix)
  {
    if lines == [] then None
    else if StartsWith(lines[0], HintPrefix) then Some(lines[0])
    else
      var r := FirstHint(lines[1..]);
      assert r.Some? ==> exists k :: 0 <= k < |lines| && lines[k] == r.value && StartsWith(lines[k], HintPrefix)
                                   && forall j :: 0 <= j < k ==> !StartsWith(lines[j], HintPrefix) by {
        if r.Some? {
          var k :| 0 <= k < |lines[1..]| && lines[1..][k] == r.value && StartsWith(lines[1..][k], HintPrefix)
                   && forall j :: 0 <= j < k ==> !StartsWith(lines[1..][j], HintPrefix);
          assert lines[k + 1] == r.value && StartsWith(lines[k + 1], HintPrefix);
          forall j | 0 <= j < k + 1 ensures !StartsWith(lines[j], HintPrefix) {
            if j > 0 { assert lines[j] == lines[1..][j - 1]; }
          }
        }
      }
      r
  }

  /** A hint line always has a field after "alere", so the source's `nth(1).unwrap()` never fails. */
  lemma HintHasSecondField(line: string)
    requires StartsWith(line, HintPrefix)
    ensures |Split(line, ':')| >= 2
    ensures Split(line, ':')[0] == "alere"
  {
    SplitPrefix("alere", line[6..], ':');
    assert line == "alere" + [':'] + line[6..];
  }

  /** Splitting `a + [sep] + b`, with no `sep` in `a`, gives `a` then the pieces of `b`. */
  lemma {:induction false} SplitPrefix(a: string, b: string, sep: char)
    requires sep !in a
    ensures Split(a + [sep] + b, sep) == [a] + Split(b, sep)
  {
    if a == [] {
      assert [sep] + b == a + [sep] + b;
      assert ([sep] + b)[1..] == b;
    } else {
      SplitPrefix(a[1..], b, sep);
      assert (a + [sep] + b)[1..] == a[1..] + [sep] + b;
      assert [a[0]] + a[1..] == a;
    }
  }

  /**
   * The account kind name `guess_account_kind` looks up: the second
   * ':'-separated field of the first "alere:" line of the description,
   * or else the account type, trimmed and lower-cased.
   */
  function KindName(description: Option<string>, accountType: string): (r: string)
    ensures var lines := Split(if description.Some? then description.value else "", '\n');
            && (FirstHint(lines).None? ==> r == AsciiLower(Trim(accountType)))
            && (FirstHint(lines).Some? ==>
                  |Split(FirstHint(lines).value, ':')| >= 2
                  && r == AsciiLower(Trim(Split(FirstHint(lines).value, ':')[1])))
  {
    var text := if description.Some? then description.value else "";
    match FirstHint(Split(text, '\n'))
    case None => AsciiLower(Trim(accountType))
    case Some(line) =>
      HintHasSecondField(line);
      AsciiLower(Trim(Split(line, ':')[1]))
  }

  /**
   * `lookup_kind`: the importer's own kinds first, then the repository's
   * (`repoKind`, outside this model), otherwise an error naming the kind.
   */
  function LookupKind(importerKinds: map<string, AccountKind>, repoKind: string -> Option<AccountKind>, name: string): (r: Result<AccountKind>)
    ensures r.Ok? <==> name in importerKinds || repoKind(name).Some?
    ensures name in importerKinds ==> r == Ok(importerKinds[name])
    ensures name !in importerKinds && repoKind(name).Some? ==> r == Ok(repoKind(name).value)
    ensures r.Err? ==> r.error == "Could not get account_kind '" + name + "'"
  {
    if name in importerKinds then Ok(importerKinds[name])
    else if repoKind(name).Some? then Ok(repoKind(name).value)
    else Err("Could not get account_kind '" + name + "'")
  }

  /** `guess_account_kind`. */
  function GuessAccountKind(importerKinds: map<string, AccountKind>, repoKind: string -> Option<AccountKind>,
                            description: Option<string>, accountType: string): (r: Result<AccountKind>)
    ensures var name := KindName(description, accountType);
            && (r.Ok? <==> name in importerKinds || repoKind(name).Some?)
            && (name in importerKinds ==> r == Ok(importerKinds[name]))
            && (name !in importerKinds && repoKind(name).Some? ==> r == Ok(repoKind(name).value))
            && (r.Err? ==> r.error == "Could not get account_kind '" + name + "'")
  {
    LookupKind(importerKinds, repoKind, KindName(description, accountType))
  }

  /** Without a description, the account type is the kind name. */
  lemma NoDescriptionUsesType(accountType: string)
    ensures KindName(None, accountType) == AsciiLower(Trim(accountType))
  {
    assert Split("", '\n') == [""];
  }

  /** A hint on the first line wins over the account type, whatever follows it. */
  lemma HintWins(hint: string, rest: string, accountType: string)
    requires ':' !in hint && '\n' !in hint
    ensures KindName(Some("alere:" + hint + "\n" + rest), accountType) == AsciiLower(Trim(hint))
  {
    var line := "alere:" + hint;
    assert "alere:" + hint + "\n" + rest == line + ['\n'] + rest;
    assert '\n' !in line;
    SplitPrefix(line, rest, '\n');
    assert StartsWith(line, HintPrefix);
    assert line == "alere" + [':'] + hint;
    SplitAround("alere", hint, ':');
  }
}
