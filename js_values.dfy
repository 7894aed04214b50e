/** JavaScript values the application's state logic relies on: `null`-able
    values, numbers (with NaN) and the `Number(string)` conversion. */
module JsValues {

  /** A value that may be `null` or `undefined`. */
  datatype Option<+T> = None | Some(value: T)

  /** A JavaScript number, kept exact: either a real value or NaN.
      Floating-point rounding and infinities are not modelled. */
  datatype JsNum = Num(v: real) | NaN

  /** JavaScript `+` on two numbers: NaN absorbs everything. */
  function Add(a: JsNum, b: JsNum): JsNum
  {
    if a.Num? && b.Num? then Num(a.v + b.v) else NaN
  }

  /** JavaScript `/` by a positive count. */
  function DivBy(a: JsNum, n: nat): JsNum
    requires n > 0
  {
    if a.Num? then Num(a.v / n as real) else NaN
  }

  predicate IsDigit(c: char)
  {
    '0' <= c <= '9'
  }

  predicate AllDigits(s: string)
  {
    forall i :: 0 <= i < |s| ==> IsDigit(s[i])
  }

  function DigitValue(c: char): (d: nat)
    requires IsDigit(c)
    ensures d < 10
  {
    c as int - '0' as int
  }

  function DigitChar(d: nat): (c: char)
    requires d < 10
    ensures IsDigit(c) && DigitValue(c) == d
  {
    ('0' as int + d) as char
  }

  /** The value of a string of decimal digits, read most significant first. */
  function DecimalValue(s: string): nat
    requires AllDigits(s)
  {
    if s == [] then 0 else DecimalValue(s[..|s| - 1]) * 10 + DigitValue(s[|s| - 1])
  }

  function Pow10(k: nat): (p: nat)
    ensures p > 0
  {
    if k == 0 then 1 else 10 * Pow10(k - 1)
  }

  /** The decimal numeral of a natural number, without leading zeros. */
  function DecimalString(n: nat): (s: string)
    ensures s != [] && AllDigits(s)
    ensures DecimalValue(s) == n
  {
    if n < 10 then [DigitChar(n)]
    else
      var prefix := DecimalString(n / 10);
      var s := prefix + [DigitChar(n % 10)];
      assert s[..|s| - 1] == prefix;
      s
  }

  /** The part of `s` before the first occurrence of `sep` (all of `s` when
      `sep` does not occur): the first element of `s.split(sep)`. */
  function Before(s: string, sep: char): (r: string)
    ensures r <= s
    ensures sep !in r
    ensures |r| < |s| ==> s[|r|] == sep
  {
    if s == [] || s[0] == sep then [] else [s[0]] + Before(s[1..], sep)
  }

  /** `Number(s)` for a string `s`: the empty string is 0, a decimal numeral
      `ddd`, `ddd.ddd`, `ddd.` or `.ddd` is its exact value, and every other
      string is NaN. */
  function ToNumber(s: string): JsNum
  {
    if s == [] then Num(0.0)
    else
      var whole := Before(s, '.');
      if |whole| == |s| then
        if AllDigits(s) then Num(DecimalValue(s) as real) else NaN
      else
        var frac := s[|whole| + 1..];
        if AllDigits(whole) && AllDigits(frac) && (whole != [] || frac != []) then
          Num(DecimalValue(whole) as real + DecimalValue(frac) as real / Pow10(|frac|) as real)
        else NaN
  }

  /** Splitting at a separator that does not occur keeps the whole string. */
  lemma {:induction false} BeforeAbsent(s: string, sep: char)
    requires sep !in s
    ensures Before(s, sep) == s
  {
    if s != [] {
      assert s[0] in s;
      assert sep !in s[1..] by {
        forall i | 0 <= i < |s[1..]| ensures s[1..][i] != sep {
          assert s[1..][i] == s[i + 1];
        }
      }
      BeforeAbsent(s[1..], sep);
      assert s == [s[0]] + s[1..];
    }
  }

  /** The part before the first separator is exactly the text up to it. */
  lemma {:induction false} BeforeFirstSeparator(p: string, sep: char, q: string)
    requires sep !in p
    ensures Before(p + [sep] + q, sep) == p
  {
    if p != [] {
      assert p[0] in p;
      assert sep !in p[1..] by {
        forall i | 0 <= i < |p[1..]| ensures p[1..][i] != sep {
          assert p[1..][i] == p[i + 1];
        }
      }
      BeforeFirstSeparator(p[1..], sep, q);
      assert (p + [sep] + q)[1..] == p[1..] + [sep] + q;
      assert p == [p[0]] + p[1..];
    }
  }

  /** `Number` reads back every decimal numeral of a natural number exactly. */
  lemma ToNumberOfDecimalString(n: nat)
    ensures ToNumber(DecimalString(n)) == Num(n as real)
  {
    var s := DecimalString(n);
    assert '.' !in s by {
      forall i | 0 <= i < |s| ensures s[i] != '.' {
        assert IsDigit(s[i]);
      }
    }
    BeforeAbsent(s, '.');
  }

  /** `Number` of a string that is no numeral at all, such as the directory
      service's placeholder "N/A", is NaN. */
  lemma ToNumberOfPlaceholder()
    ensures ToNumber("N/A") == NaN
  {
    assert !IsDigit("N/A"[0]);
    assert Before("N/A", '.') == "N/A";
  }
}
