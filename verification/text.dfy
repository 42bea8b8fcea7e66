/** The text helpers of `YahooOptions._parse_strike_table` (mp.py): lower-casing
    of header cells, removal of thousands separators, and the two cell parsers
    `fmt_int` and `fmt_price`. The formatter `Grouped` is the inverse the
    integer parser is checked against. */
module Text {
  import opened Wrappers
  import opened Errors

  /** Python's `str.lower()`, restricted to the ASCII letters. */
  function LowerChar(c: char): char {
    if 'A' <= c <= 'Z' then (c as int + 32) as char else c
  }

  function Lower(s: string): (r: string)
    ensures |r| == |s|
    ensures forall i :: 0 <= i < |r| ==> !('A' <= r[i] <= 'Z')
    ensures forall i :: 0 <= i < |s| && 'A' <= s[i] <= 'Z' ==> r[i] as int == s[i] as int + 32
    ensures forall i :: 0 <= i < |s| && !('A' <= s[i] <= 'Z') ==> r[i] == s[i]
  {
    seq(|s|, i requires 0 <= i < |s| => LowerChar(s[i]))
  }

  /** Lower-casing a header a second time changes nothing. */
  lemma LowerIdempotent(s: string)
    ensures Lower(Lower(s)) == Lower(s)
  {
    var t := Lower(s);
    assert forall i :: 0 <= i < |t| ==> LowerChar(t[i]) == t[i];
  }

  /** `s.replace(",", "")`. */
  function StripCommas(s: string): (r: string)
    ensures ',' !in r
    ensures |r| <= |s|
  {
    if |s| == 0 then ""
    else (if s[0] == ',' then "" else [s[0]]) + StripCommas(s[1..])
  }

  lemma {:induction false} StripCommasAppend(a: string, b: string)
    ensures StripCommas(a + b) == StripCommas(a) + StripCommas(b)
  {
    if |a| == 0 {
      assert a + b == b;
    } else {
      var ab := a + b;
      assert ab[0] == a[0];
      assert ab[1..] == a[1..] + b;
      StripCommasAppend(a[1..], b);
      var h := if a[0] == ',' then "" else [a[0]];
      calc {
        StripCommas(ab);
        h + StripCommas(a[1..] + b);
        h + (StripCommas(a[1..]) + StripCommas(b));
        (h + StripCommas(a[1..])) + StripCommas(b);
        StripCommas(a) + StripCommas(b);
      }
    }
  }

  /** Text without a comma is left as it is; in particular stripping twice
      is the same as stripping once. */
  lemma {:induction false} StripCommasNoComma(s: string)
    requires ',' !in s
    ensures StripCommas(s) == s
  {
    if |s| > 0 {
      assert ',' !in s[1..];
      StripCommasNoComma(s[1..]);
    }
  }

  // ---------------------------------------------------------------------
  // Decimal digits

  predicate IsDigit(c: char) {
    '0' <= c <= '9'
  }

  predicate AllDigits(s: string) {
    forall i :: 0 <= i < |s| ==> IsDigit(s[i])
  }

  function DigitChar(d: nat): (c: char)
    requires d < 10
    ensures IsDigit(c)
  {
    ('0' as int + d) as char
  }

  function DigitValue(c: char): nat
    requires IsDigit(c)
  {
    c as int - '0' as int
  }

  /** The number a string of decimal digits denotes, most significant first. */
  function DigitsValue(s: string): nat
    requires AllDigits(s)
  {
    if |s| == 0 then 0
    else 10 * DigitsValue(s[..|s| - 1]) + DigitValue(s[|s| - 1])
  }

  /** `str(n)` for a natural number: the plain decimal digits, no separators. */
  function Decimal(n: nat): (r: string)
    ensures |r| > 0 && AllDigits(r) && ',' !in r
    ensures DigitsValue(r) == n
  {
    if n < 10 then [DigitChar(n)]
    else
      var init := Decimal(n / 10);
      var r := init + [DigitChar(n % 10)];
      assert r[..|r| - 1] == init;
      r
  }

  // ---------------------------------------------------------------------
  // int(...) and fmt_int

  /** The texts Python's `int()` accepts in this model: an optional sign
      followed by at least one decimal digit. */
  predicate WellFormedInt(s: string) {
    if |s| > 0 && (s[0] == '-' || s[0] == '+') then |s| > 1 && AllDigits(s[1..])
    else |s| > 0 && AllDigits(s)
  }

  /** Python's `int(s)`: raises on anything that is not a signed decimal. */
  function ParseInt(s: string): (r: Result<int, Error>)
    ensures r.Success? <==> WellFormedInt(s)
    ensures r.Failure? ==> r.error == BadInteger(s)
  {
    if |s| > 0 && (s[0] == '-' || s[0] == '+') then
      var body := s[1..];
      if |body| > 0 && AllDigits(body) then
        var v: int := DigitsValue(body);
        Success(if s[0] == '-' then -v else v)
      else Failure(BadInteger(s))
    else if |s| > 0 && AllDigits(s) then Success(DigitsValue(s))
    else Failure(BadInteger(s))
  }

  /** `fmt_int` (mp.py:21-22): strip thousands separators, then `int()`. */
  function FmtInt(s: string): (r: Result<int, Error>)
    ensures r.Success? <==> WellFormedInt(StripCommas(s))
  {
    ParseInt(StripCommas(s))
  }

  /** `fmt_price` (mp.py:15-19): strip thousands separators and hand the rest
      to the decimal parser `parse` (Python's `float()`); whatever `parse`
      rejects reads as 0.0, so the rule never fails. */
  function FmtPrice(parse: string -> Option<real>, s: string): (r: real)
    ensures parse(StripCommas(s)).None? ==> r == 0.0
    ensures parse(StripCommas(s)).Some? ==> r == parse(StripCommas(s)).value
  {
    match parse(StripCommas(s))
    case Some(x) => x
    case None => 0.0
  }

  /** Thousands separators never matter to `fmt_price`: a text and its
      comma-free form read as the same price. */
  lemma FmtPriceIgnoresCommas(parse: string -> Option<real>, s: string)
    ensures FmtPrice(parse, s) == FmtPrice(parse, StripCommas(s))
  {
    StripCommasNoComma(StripCommas(s));
  }

  // ---------------------------------------------------------------------
  // Comma-grouped formatting, the inverse of fmt_int

  /** Three digits with leading zeros, `'{:03d}'.format(k)`. */
  function Pad3(k: nat): (r: string)
    requires k < 1000
    ensures |r| == 3 && AllDigits(r) && ',' !in r
    ensures DigitsValue(r) == k
  {
    ThreeDigits(k);
    Digits3(k / 100, k / 10 % 10, k % 10)
  }

  /** The digits of a number below 1000, hundreds first. */
  lemma ThreeDigits(k: nat)
    requires k < 1000
    ensures k / 100 < 10 && k / 10 % 10 < 10 && k % 10 < 10
    ensures k == 100 * (k / 100) + 10 * (k / 10 % 10) + k % 10
  {
  }

  function Digits3(a: nat, b: nat, c: nat): (r: string)
    requires a < 10 && b < 10 && c < 10
    ensures |r| == 3 && AllDigits(r) && ',' !in r
    ensures DigitsValue(r) == 100 * a + 10 * b + c
  {
    var r := [DigitChar(a), DigitChar(b), DigitChar(c)];
    assert r[..2] == [r[0], r[1]] && r[..1] == [r[0]] && r[..1][..0] == [];
    assert DigitsValue(r[..1]) == a;
    assert DigitsValue(r[..2]) == 10 * a + b;
    r
  }

  /** `'{:,}'.format(n)` for a natural number: digits in groups of three. */
  function GroupDigits(n: nat): string
  {
    if n < 1000 then Decimal(n)
    else GroupDigits(n / 1000) + "," + Pad3(n % 1000)
  }

  /** `'{:,}'.format(n)`. */
  function Grouped(n: int): string
  {
    if n < 0 then "-" + GroupDigits(-n) else GroupDigits(n)
  }

  /** The last three decimal digits of n, taken one at a time, are the
      digits of `n % 1000`, and what is left is `n / 1000`. */
  lemma LastThreeDigits(n: nat)
    ensures n / 10 / 10 / 10 == n / 1000
    ensures n / 10 / 10 % 10 == n % 1000 / 100
    ensures n / 10 % 10 == n % 1000 / 10 % 10
    ensures n % 10 == n % 1000 % 10
  {
  }

  /** Splitting off the last three digits of a number of four or more digits. */
  lemma DecimalSplit3(n: nat)
    requires n >= 1000
    ensures Decimal(n) == Decimal(n / 1000) + Pad3(n % 1000)
  {
    LastThreeDigits(n);
    var k := n % 1000;
    var d0 := Decimal(n / 1000);
    var d1 := Decimal(n / 10 / 10);
    var d2 := Decimal(n / 10);
    assert d1 == d0 + [DigitChar(k / 100)];
    assert d2 == d1 + [DigitChar(k / 10 % 10)];
    assert Decimal(n) == d2 + [DigitChar(k % 10)];
    assert Pad3(k) == [DigitChar(k / 100), DigitChar(k / 10 % 10), DigitChar(k % 10)];
  }

  /** Removing the separators from a grouped number leaves exactly its plain
      decimal form. */
  lemma {:induction false} GroupDigitsStripped(n: nat)
    ensures StripCommas(GroupDigits(n)) == Decimal(n)
  {
    if n >= 1000 {
      var head := GroupDigits(n / 1000);
      var tail := Pad3(n % 1000);
      GroupDigitsStripped(n / 1000);
      StripCommasAppend(head + ",", tail);
      StripCommasAppend(head, ",");
      StripCommasNoComma(tail);
      assert StripCommas(",") == "";
      DecimalSplit3(n);
    } else {
      StripCommasNoComma(Decimal(n));
    }
  }

  /** `int()` reads a plain decimal back, with or without a leading minus. */
  lemma ParseDecimal(n: nat)
    ensures ParseInt(Decimal(n)) == Success(n)
    ensures ParseInt("-" + Decimal(n)) == Success(-(n as int))
  {
    var d := Decimal(n);
    assert IsDigit(d[0]);
    assert ("-" + d)[0] == '-' && ("-" + d)[1..] == d;
  }

  /** The integer rule round-trips comma-grouped integers: `fmt_int` reads back
      exactly the number `'{:,}'` wrote, for every sign. */
  lemma GroupedRoundTrip(n: int)
    ensures FmtInt(Grouped(n)) == Success(n)
  {
    if n < 0 {
      GroupDigitsStripped(-n);
      StripCommasAppend("-", GroupDigits(-n));
      assert StripCommas("-") == "-";
      ParseDecimal(-n);
    } else {
      GroupDigitsStripped(n);
      ParseDecimal(n);
    }
  }

  /** The price rule reads a comma-grouped whole number as that number, for
      any decimal parser that reads the plain digits correctly. */
  lemma GroupedPrice(parse: string -> Option<real>, n: nat)
    requires parse(Decimal(n)) == Some(n as real)
    ensures FmtPrice(parse, GroupDigits(n)) == n as real
  {
    GroupDigitsStripped(n);
  }
}
