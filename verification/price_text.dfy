/**
 * The price path of the listing script: the price element's text loses every
 * character that is not a digit or a dot, and what is left is read by
 * `parseFloat`.
 */
module PriceText {
  import opened Wrappers
  import opened Chars

  predicate IsPriceChar(c: char) {
    IsDigit(c) || c == '.'
  }

  /** Text made only of digits and dots, as the cleaning step leaves it. */
  predicate IsCleaned(s: string) {
    forall i :: 0 <= i < |s| ==> IsPriceChar(s[i])
  }

  /** `replace(/[^\d\.]/g, '')`: drop every character but digits and dots. */
  function Clean(s: string): (r: string)
    ensures IsCleaned(r)
    ensures |r| <= |s|
  {
    if s == [] then []
    else (if IsPriceChar(s[0]) then [s[0]] else []) + Clean(s[1..])
  }

  /** Cleaning works character by character: it distributes over concatenation. */
  lemma {:induction false} CleanAppend(a: string, b: string)
    ensures Clean(a + b) == Clean(a) + Clean(b)
    decreases |a|
  {
    if a == [] {
      assert a + b == b;
    } else {
      assert (a + b)[0] == a[0];
      assert (a + b)[1..] == a[1..] + b;
      CleanAppend(a[1..], b);
      var h := if IsPriceChar(a[0]) then [a[0]] else [];
      assert Clean(a + b) == h + (Clean(a[1..]) + Clean(b));
      assert Clean(a) == h + Clean(a[1..]);
    }
  }

  /** A character that is kept stays, in its place: cleaned text is left as it is. */
  lemma {:induction false} CleanKeepsCleaned(s: string)
    requires IsCleaned(s)
    ensures Clean(s) == s
    decreases |s|
  {
    if s != [] {
      CleanKeepsCleaned(s[1..]);
      assert s == [s[0]] + s[1..];
    }
  }

  /** Every digit and dot survives as often as it occurs; every other character is gone. */
  lemma {:induction false} CleanCounts(s: string, c: char)
    ensures multiset(Clean(s))[c] == if IsPriceChar(c) then multiset(s)[c] else 0
    decreases |s|
  {
    if s != [] {
      CleanCounts(s[1..], c);
      assert s == [s[0]] + s[1..];
      assert multiset(s) == multiset([s[0]]) + multiset(s[1..]);
    }
  }

  /** Cleaning twice is cleaning once. */
  lemma CleanIdempotent(s: string)
    ensures Clean(Clean(s)) == Clean(s)
  {
    CleanKeepsCleaned(Clean(s));
  }

  // ---------------------------------------------------------------------
  // parseFloat on cleaned text

  type NonNeg = r: real | 0.0 <= r

  /**
   * A JavaScript number as `parseFloat` yields it from digits and dots: `NaN`
   * or the exact decimal value of the literal read, never negative (no sign
   * survives cleaning) and never written with an exponent (no `e` survives
   * cleaning). The value is an exact real: the rounding to the nearest
   * double, the overflow of very long literals to `Infinity` and the
   * underflow of very small ones to 0 are not modelled.
   */
  datatype Num = NaN | Finite(value: NonNeg)

  function Pow10(n: nat): (p: nat)
    ensures p >= 1
  {
    if n == 0 then 1 else 10 * Pow10(n - 1)
  }

  /** The natural number a string of decimal digits denotes. */
  function DigitsValue(t: string): (n: nat)
    requires AllDigits(t)
    ensures n < Pow10(|t|)
    decreases |t|
  {
    if t == [] then 0
    else
      var n' := DigitsValue(t[..|t| - 1]);
      var d := DigitValue(t[|t| - 1]);
      assert n' * 10 + d <= (Pow10(|t| - 1) - 1) * 10 + 9;
      n' * 10 + d
  }

  /** The value of `whole.frac`; the fraction never reaches the next whole number. */
  function DecimalValue(whole: string, frac: string): (v: real)
    requires AllDigits(whole) && AllDigits(frac)
    ensures DigitsValue(whole) as real <= v < DigitsValue(whole) as real + 1.0
  {
    var f, p := DigitsValue(frac) as real, Pow10(|frac|) as real;
    FractionBelowOne(f, p);
    DigitsValue(whole) as real + f / p
  }

  lemma FractionBelowOne(f: real, p: real)
    requires 0.0 <= f < p
    ensures 0.0 <= f / p < 1.0
  {
    var q := f / p;
    assert q * p == f;
    if q >= 1.0 {
      assert false;
    }
  }

  /** The text has a dot at `k` and digits everywhere else. */
  ghost predicate DottedAt(t: string, k: nat)
    requires k < |t|
  {
    |t| >= 2 && t[k] == '.' && AllDigits(t[..k]) && AllDigits(t[k + 1..])
  }

  /**
   * The unsigned decimal literal of `parseFloat`'s grammar without an
   * exponent part: `12`, `12.`, `12.5` or `.5` (but not `.` alone).
   */
  ghost predicate IsDecimalLiteral(t: string) {
    || (|t| > 0 && AllDigits(t))
    || (exists k :: 0 <= k < |t| && DottedAt(t, k))
  }

  /** The value such a literal denotes. */
  ghost function LiteralValue(t: string): real
    requires IsDecimalLiteral(t)
  {
    if AllDigits(t) then DigitsValue(t) as real
    else
      var k :| 0 <= k < |t| && DottedAt(t, k);
      DecimalValue(t[..k], t[k + 1..])
  }

  /** `s[..n]` is a literal and no longer prefix of `s` is one. */
  ghost predicate LongestLiteralPrefix(s: string, n: nat) {
    && n <= |s|
    && IsDecimalLiteral(s[..n])
    && forall m :: n < m <= |s| ==> !IsDecimalLiteral(s[..m])
  }

  /** No prefix of `s`, the empty one included, is a decimal literal. */
  ghost predicate NoLiteralPrefix(s: string) {
    forall n :: 0 <= n <= |s| ==> !IsDecimalLiteral(s[..n])
  }

  /** `v` is the value of the longest prefix of `s` that is a decimal literal. */
  ghost predicate ValueOfLongestLiteral(s: string, v: real) {
    exists n: nat :: LongestLiteralPrefix(s, n) && v == LiteralValue(s[..n])
  }

  /** `parseFloat` on text made of digits and dots. */
  function ParseFloat(s: string): (r: Num)
    requires IsCleaned(s)
    ensures r == NaN <==> s == [] || (s[0] == '.' && (|s| == 1 || s[1] == '.'))
    ensures s != [] && AllDigits(s) ==> r == Finite(DigitsValue(s) as real)
  {
    var d := DigitRun(s, 0);
    if d == |s| then
      if d == 0 then NaN else Finite(DigitsValue(s) as real)
    else
      // s[d] is a dot, the only other character cleaned text holds
      var e := DigitRun(s, d + 1);
      if d == 0 && e == 1 then NaN else Finite(DecimalValue(s[..d], s[d + 1..e]))
  }

  lemma DotIsUnique(t: string, k: nat, j: nat)
    requires k < |t| && DottedAt(t, k)
    requires j < |t| && t[j] == '.'
    ensures j == k
  {
  }

  lemma TwoDotsNoLiteral(t: string, i: nat, j: nat)
    requires i < j < |t| && t[i] == '.' && t[j] == '.'
    ensures !IsDecimalLiteral(t)
  {
    if exists k :: 0 <= k < |t| && DottedAt(t, k) {
      var k :| 0 <= k < |t| && DottedAt(t, k);
      DotIsUnique(t, k, i);
      DotIsUnique(t, k, j);
    }
  }

  /**
   * `parseFloat` reads the longest prefix that is a decimal literal and
   * yields its value; it yields `NaN` exactly when no prefix is one.
   */
  lemma ParseFloatLongestPrefix(s: string)
    requires IsCleaned(s)
    ensures ParseFloat(s) == NaN <==> NoLiteralPrefix(s)
    ensures ParseFloat(s).Finite? ==> ValueOfLongestLiteral(s, ParseFloat(s).value)
  {
    var d := DigitRun(s, 0);
    if d == |s| {
      if d > 0 {
        assert s[..|s|] == s;
        assert LongestLiteralPrefix(s, |s|);
      } else {
        forall n | 0 <= n <= |s| ensures !IsDecimalLiteral(s[..n]) {
          assert s[..n] == [];
        }
      }
    } else {
      assert s[d] == '.';
      var e := DigitRun(s, d + 1);
      if d == 0 && e == 1 {
        forall n | 0 <= n <= |s| ensures !IsDecimalLiteral(s[..n]) {
          var t := s[..n];
          if n >= 2 {
            assert t[1] == s[1] == '.';
            TwoDotsNoLiteral(t, 0, 1);
          } else if n == 1 {
            assert t[0] == '.';
            assert !AllDigits(t);
          }
        }
      } else {
        var t := s[..e];
        assert t[..d] == s[..d];
        assert t[d + 1..] == s[d + 1..e];
        assert DottedAt(t, d);
        assert !AllDigits(t) by { assert t[d] == '.'; }
        assert LiteralValue(t) == DecimalValue(s[..d], s[d + 1..e]) by {
          var k :| 0 <= k < |t| && DottedAt(t, k) && LiteralValue(t) == DecimalValue(t[..k], t[k + 1..]);
          DotIsUnique(t, k, d);
        }
        forall m | e < m <= |s| ensures !IsDecimalLiteral(s[..m]) {
          assert s[e] == '.';
          TwoDotsNoLiteral(s[..m], d, e);
        }
        assert LongestLiteralPrefix(s, e);
      }
    }
  }

  /** A whole literal is read to its end. */
  lemma ParseFloatLiteral(t: string)
    requires IsCleaned(t) && IsDecimalLiteral(t)
    ensures ParseFloat(t) == Finite(LiteralValue(t))
  {
    ParseFloatLongestPrefix(t);
    assert t[..|t|] == t;
    var n: nat :| LongestLiteralPrefix(t, n) && ParseFloat(t).value == LiteralValue(t[..n]);
    assert n == |t|;
  }

  /**
   * `extractPrice`: the price element's text, or null when the listing has
   * no price element; the text is cleaned and read with `parseFloat`.
   */
  function ExtractPrice(priceText: Option<string>): (r: Option<Num>)
    ensures r.None? <==> priceText.None?
    ensures r.Some? ==> (r.value == NaN <==> NoLiteralPrefix(Clean(priceText.value)))
    ensures r.Some? && r.value.Finite? ==> ValueOfLongestLiteral(Clean(priceText.value), r.value.value)
  {
    match priceText
    case None => None
    case Some(t) =>
      var c := Clean(t);
      ParseFloatLongestPrefix(c);
      Some(ParseFloat(c))
  }

  lemma CleanPriceExample()
    ensures Clean("$3.60") == "3.60"
  {
  }

  lemma ParsePriceExample()
    ensures ParseFloat("3.60") == Finite(3.6)
  {
    var s := "3.60";
    assert DigitRun(s, 0) == 1 && DigitRun(s, 2) == 4;
    assert s[..1] == "3" && s[2..4] == "60";
    assert DigitsValue("3") == 3 && DigitsValue("60") == 60;
    assert DecimalValue("3", "60") == 3.0 + 60.0 / 100.0;
  }

  /** `$3.60` reads as 3.6. */
  lemma ExamplePrice()
    ensures ExtractPrice(Some("$3.60")) == Some(Finite(3.6))
  {
    CleanPriceExample();
    ParsePriceExample();
  }
}
