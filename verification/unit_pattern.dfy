/**
 * The unit pattern `/(\d+(?:\.\d+)?)\s*(ct|g|kg|ml|l|oz|lb|count|pound)/i`
 * of the listing script, matched the way `String.prototype.match` runs an
 * unanchored, non-global expression: the first start position that admits a
 * match wins, and at that position the alternatives are tried in order.
 */
module UnitPattern {
  import opened Wrappers
  import opened Chars

  /** The alternatives of the unit group, in the order the pattern tries them. */
  const Aliases: seq<string> := ["ct", "g", "kg", "ml", "l", "oz", "lb", "count", "pound"]

  const L: nat := 4
  const Lb: nat := 6

  /** Every alternative is a non-empty word of lower-case ASCII letters. */
  lemma AliasesAreLowerWords()
    ensures forall k :: 0 <= k < |Aliases| ==> |Aliases[k]| > 0
    ensures forall k, i :: 0 <= k < |Aliases| && 0 <= i < |Aliases[k]| ==> IsAsciiLower(Aliases[k][i])
  {
  }

  /** Alternative `k` matches the text at `q`, under the `i` flag. */
  predicate AliasAt(s: string, q: nat, k: nat)
    requires k < |Aliases|
  {
    q + |Aliases[k]| <= |s| && forall i :: 0 <= i < |Aliases[k]| ==> Fold(s[q + i]) == Aliases[k][i]
  }

  /** The first alternative, from the `k`-th on, that matches at `q`. */
  function FirstAlias(s: string, q: nat, k: nat): (r: Option<nat>)
    requires k <= |Aliases|
    ensures r.Some? ==> k <= r.value < |Aliases| && AliasAt(s, q, r.value)
    ensures forall j :: k <= j < |Aliases| && (r.None? || j < r.value) ==> !AliasAt(s, q, j)
    decreases |Aliases| - k
  {
    if k == |Aliases| then None
    else if AliasAt(s, q, k) then Some(k)
    else FirstAlias(s, q, k + 1)
  }

  /** End of the number `\d+(?:\.\d+)?` taken greedily from `p`. */
  function NumberEnd(s: string, p: nat): (e: nat)
    requires p <= |s|
    ensures p <= e <= |s|
    ensures p < |s| && IsDigit(s[p]) ==> p < e
    ensures forall i :: p <= i < e ==> IsDigit(s[i]) || s[i] == '.'
    ensures e == |s| || !IsDigit(s[e])
  {
    var d := DigitRun(s, p);
    if d + 1 < |s| && s[d] == '.' && IsDigit(s[d + 1]) then DigitRun(s, d + 1) else d
  }

  /**
   * A match: the number (group 1) is `s[start..numberEnd]`, white space runs
   * up to `unitStart`, and alternative `alias` (group 2) starts there.
   */
  datatype Match = Match(start: nat, numberEnd: nat, unitStart: nat, alias: nat)

  // ---------------------------------------------------------------------
  // What the pattern means, independently of how it is searched

  /** `t` has a dot at `d` with digits on both sides and nowhere else. */
  ghost predicate FractionAt(t: string, d: nat)
    requires d < |t|
  {
    t[d] == '.' && AllDigits(t[..d]) && AllDigits(t[d + 1..])
  }

  /** `\d+(?:\.\d+)?` matches all of `t`. */
  ghost predicate IsPatternNumber(t: string) {
    || (|t| > 0 && AllDigits(t))
    || (exists d :: 0 < d < |t| - 1 && FractionAt(t, d))
  }

  /**
   * The pattern matches starting at `p`, with the number in `s[p..e]`, white
   * space in `s[e..q]` and alternative `k` from `q`.
   */
  ghost predicate MatchAt(s: string, p: nat, e: nat, q: nat, k: nat) {
    && p < e <= q <= |s| && k < |Aliases|
    && IsPatternNumber(s[p..e]) && AllSpace(s[e..q]) && AliasAt(s, q, k)
  }

  ghost predicate NoMatchAt(s: string, p: nat) {
    forall e: nat, q: nat, k: nat :: !MatchAt(s, p, e, q, k)
  }

  /** `m` is a match at its start, and no earlier alternative fits there. */
  ghost predicate FirstAlternativeMatch(s: string, m: Match) {
    && MatchAt(s, m.start, m.numberEnd, m.unitStart, m.alias)
    && forall j :: 0 <= j < m.alias ==> !AliasAt(s, m.unitStart, j)
  }

  /**
   * The result `match` gives: the leftmost start position that admits a
   * match, with the first alternative that fits; or no match at any position.
   */
  ghost predicate IsLeftmostFirstMatch(s: string, r: Option<Match>) {
    match r
    case None => forall p :: 0 <= p <= |s| ==> NoMatchAt(s, p)
    case Some(m) => FirstAlternativeMatch(s, m) && forall p :: 0 <= p < m.start ==> NoMatchAt(s, p)
  }

  // ---------------------------------------------------------------------
  // The search

  /** An alternative starts with a letter, so never on a digit, a dot or white space. */
  lemma AliasStartsWithLetter(s: string, q: nat, k: nat)
    requires k < |Aliases| && AliasAt(s, q, k)
    ensures q < |s| && !IsDigit(s[q]) && !IsSpace(s[q]) && s[q] != '.'
  {
    AliasesAreLowerWords();
    assert Fold(s[q + 0]) == Aliases[k][0];
  }

  lemma DigitRunEnds(s: string, i: nat, j: nat)
    requires i <= j <= |s|
    requires forall k :: i <= k < j ==> IsDigit(s[k])
    requires j == |s| || !IsDigit(s[j])
    ensures DigitRun(s, i) == j
    decreases j - i
  {
    if i < j {
      DigitRunEnds(s, i + 1, j);
    }
  }

  lemma SpaceRunEnds(s: string, i: nat, j: nat)
    requires i <= j <= |s|
    requires forall k :: i <= k < j ==> IsSpace(s[k])
    requires j == |s| || !IsSpace(s[j])
    ensures SpaceRun(s, i) == j
    decreases j - i
  {
    if i < j {
      SpaceRunEnds(s, i + 1, j);
    }
  }

  /**
   * Every match at `p` has the same number and the same white space: the
   * greedy number and the greedy white space run. So backtracking into a
   * shorter number or shorter white space never yields a match, and the
   * alternatives' order is the only choice that decides the result.
   */
  lemma MatchShape(s: string, p: nat, e: nat, q: nat, k: nat)
    requires MatchAt(s, p, e, q, k)
    ensures e == NumberEnd(s, p) && q == SpaceRun(s, e)
  {
    AliasStartsWithLetter(s, q, k);
    assert !IsDigit(s[e]) && s[e] != '.' by {
      if e < q {
        assert s[e..q][0] == s[e];
      }
    }
    var t := s[p..e];
    if |t| > 0 && AllDigits(t) {
      assert forall i :: p <= i < e ==> IsDigit(s[i]) by {
        forall i | p <= i < e ensures IsDigit(s[i]) {
          assert t[i - p] == s[i];
        }
      }
      DigitRunEnds(s, p, e);
    } else {
      var d :| 0 < d < |t| - 1 && FractionAt(t, d);
      assert forall i :: p <= i < p + d ==> IsDigit(s[i]) by {
        forall i | p <= i < p + d ensures IsDigit(s[i]) {
          assert t[..d][i - p] == s[i];
        }
      }
      assert s[p + d] == t[d] == '.';
      DigitRunEnds(s, p, p + d);
      assert forall i :: p + d + 1 <= i < e ==> IsDigit(s[i]) by {
        forall i | p + d + 1 <= i < e ensures IsDigit(s[i]) {
          assert t[d + 1..][i - p - d - 1] == s[i];
        }
      }
      DigitRunEnds(s, p + d + 1, e);
    }
    assert forall i :: e <= i < q ==> IsSpace(s[i]) by {
      forall i | e <= i < q ensures IsSpace(s[i]) {
        assert s[e..q][i - e] == s[i];
      }
    }
    SpaceRunEnds(s, e, q);
  }

  /** The greedy number from a digit is a number of the pattern. */
  lemma NumberEndIsPatternNumber(s: string, p: nat)
    requires p < |s| && IsDigit(s[p])
    ensures p < NumberEnd(s, p) && IsPatternNumber(s[p..NumberEnd(s, p)])
  {
    var d := DigitRun(s, p);
    var e := NumberEnd(s, p);
    var t := s[p..e];
    if d + 1 < |s| && s[d] == '.' && IsDigit(s[d + 1]) {
      assert t[..d - p] == s[p..d];
      assert t[d - p + 1..] == s[d + 1..e];
      assert FractionAt(t, d - p);
    } else {
      assert AllDigits(t);
    }
  }

  /**
   * The number from a digit is greedy: no longer stretch of the text from
   * the same position is a number of the pattern.
   */
  lemma NumberEndMaximal(s: string, p: nat, e': nat)
    requires p < |s| && IsDigit(s[p]) && NumberEnd(s, p) < e' <= |s|
    ensures !IsPatternNumber(s[p..e'])
  {
    var t := s[p..e'];
    if |t| > 0 && AllDigits(t) {
      SliceDigits(s, p, e');
      assert false;
    }
    if exists k :: 0 < k < |t| - 1 && FractionAt(t, k) {
      var k :| 0 < k < |t| - 1 && FractionAt(t, k);
      assert t[..k] == s[p..p + k] && t[k + 1..] == s[p + k + 1..e'];
      assert s[p + k] == '.';
      SliceDigits(s, p, p + k);
      DigitRunEnds(s, p, p + k);
      SliceDigits(s, p + k + 1, e');
      assert false;
    }
  }

  /** Every character of an all-digit slice is a digit of the text. */
  lemma SliceDigits(s: string, i: nat, j: nat)
    requires i <= j <= |s| && AllDigits(s[i..j])
    ensures forall x :: i <= x < j ==> IsDigit(s[x])
  {
    forall x | i <= x < j ensures IsDigit(s[x]) {
      assert s[i..j][x - i] == s[x];
    }
  }

  /**
   * Trying the pattern at one position: it matches there exactly when a
   * match starts there, and it reports the first alternative.
   */
  function MatchHere(s: string, p: nat): (r: Option<Match>)
    requires p <= |s|
    ensures r.Some? ==> r.value.start == p && FirstAlternativeMatch(s, r.value)
    ensures r.None? ==> NoMatchAt(s, p)
  {
    if p < |s| && IsDigit(s[p]) then
      var e := NumberEnd(s, p);
      var q := SpaceRun(s, e);
      NumberEndIsPatternNumber(s, p);
      assert AllSpace(s[e..q]);
      NoMatchAtOtherShape(s, p, e, q);
      match FirstAlias(s, q, 0)
      case None => None
      case Some(k) => Some(Match(p, e, q, k))
    else
      NoMatchOffDigit(s, p);
      None
  }

  lemma NoMatchAtOtherShape(s: string, p: nat, e: nat, q: nat)
    requires p <= |s| && e == NumberEnd(s, p) && q == SpaceRun(s, e)
    ensures forall e': nat, q': nat, k: nat :: MatchAt(s, p, e', q', k) ==> e' == e && q' == q
  {
    forall e': nat, q': nat, k: nat | MatchAt(s, p, e', q', k) ensures e' == e && q' == q {
      MatchShape(s, p, e', q', k);
    }
  }

  lemma NoMatchOffDigit(s: string, p: nat)
    requires p <= |s| && !(p < |s| && IsDigit(s[p]))
    ensures NoMatchAt(s, p)
  {
    forall e: nat, q: nat, k: nat ensures !MatchAt(s, p, e, q, k) {
      if MatchAt(s, p, e, q, k) {
        MatchStartsWithDigit(s, p, e, q, k);
      }
    }
  }

  lemma MatchStartsWithDigit(s: string, p: nat, e: nat, q: nat, k: nat)
    requires MatchAt(s, p, e, q, k)
    ensures p < |s| && IsDigit(s[p])
  {
    var t := s[p..e];
    assert t[0] == s[p];
    if !AllDigits(t) {
      var d :| 0 < d < |t| - 1 && FractionAt(t, d);
      assert t[..d][0] == t[0];
    }
  }

  /**
   * The search from position `p` on: the first position at or after `p` where
   * the pattern matches, tried in turn, with every earlier one ruled out.
   */
  function Scan(s: string, p: nat): (r: Option<Match>)
    requires p <= |s|
    ensures ScanResult(s, p, r)
    decreases |s| - p
  {
    match MatchHere(s, p)
    case Some(m) => Some(m)
    case None =>
      if p == |s| then
        NoMatchBetweenExtend(s, p, |s| + 1);
        None
      else
        var r := Scan(s, p + 1);
        NoMatchBetweenExtend(s, p, if r.Some? then r.value.start else |s| + 1);
        r
  }

  /**
   * `unitText.match(pattern)`: the leftmost position at which a number,
   * optional white space and an alternative follow one another, with the
   * first alternative in the pattern's order that fits there; or nothing
   * when no position fits.
   */
  function Exec(s: string): (r: Option<Match>)
    ensures IsLeftmostFirstMatch(s, r)
  {
    var r := Scan(s, 0);
    assert ScanResult(s, 0, r);
    r
  }

  /** No match starts anywhere in `[lo, hi)`. */
  ghost predicate NoMatchBetween(s: string, lo: nat, hi: nat) {
    forall p :: lo <= p < hi ==> NoMatchAt(s, p)
  }

  /** What the search from `p0` promises. */
  ghost predicate ScanResult(s: string, p0: nat, r: Option<Match>) {
    match r
    case None => NoMatchBetween(s, p0, |s| + 1)
    case Some(m) => p0 <= m.start && FirstAlternativeMatch(s, m) && NoMatchBetween(s, p0, m.start)
  }

  lemma NoMatchBetweenExtend(s: string, lo: nat, hi: nat)
    requires lo < hi && NoMatchAt(s, lo) && NoMatchBetween(s, lo + 1, hi)
    ensures NoMatchBetween(s, lo, hi)
  {
    forall p | lo <= p < hi ensures NoMatchAt(s, p) {
      if p > lo {
        assert lo + 1 <= p < hi;
      }
    }
  }

  lemma NothingBeforeLeftmost(s: string, m: Match, other: Match)
    requires IsLeftmostFirstMatch(s, Some(m)) && other.start < m.start
    ensures !MatchAt(s, other.start, other.numberEnd, other.unitStart, other.alias)
  {
    assert NoMatchAt(s, other.start);
  }

  /** At most one result meets the description: the search has nothing left to choose. */
  lemma LeftmostFirstMatchUnique(s: string, m1: Match, m2: Match)
    requires IsLeftmostFirstMatch(s, Some(m1)) && IsLeftmostFirstMatch(s, Some(m2))
    ensures m1 == m2
  {
    if m1.start < m2.start {
      NothingBeforeLeftmost(s, m2, m1);
      assert false;
    } else if m2.start < m1.start {
      NothingBeforeLeftmost(s, m1, m2);
      assert false;
    } else {
      MatchShape(s, m1.start, m1.numberEnd, m1.unitStart, m1.alias);
      MatchShape(s, m2.start, m2.numberEnd, m2.unitStart, m2.alias);
    }
  }

  /**
   * The alternative `lb` is never reported: wherever it fits, `l` fits too
   * and comes first, so `2 lb` is read with the unit `l`.
   */
  lemma LbNeverReported(s: string)
    ensures Exec(s).Some? ==> Exec(s).value.alias != Lb
  {
    if Exec(s).Some? {
      var q := Exec(s).value.unitStart;
      if AliasAt(s, q, Lb) {
        LFitsWhereLbFits(s, q);
      }
    }
  }

  /** Wherever `lb` fits, so does its first letter `l`. */
  lemma LFitsWhereLbFits(s: string, q: nat)
    requires AliasAt(s, q, Lb)
    ensures AliasAt(s, q, L)
  {
    assert Fold(s[q + 0]) == Aliases[Lb][0];
  }

  /** On text without ASCII capitals the `i` flag changes nothing: the matched unit is spelled as the alternative. */
  lemma AliasAtLowerText(s: string, q: nat, k: nat)
    requires k < |Aliases| && AliasAt(s, q, k)
    ensures NoAsciiUpper(s) ==> s[q..q + |Aliases[k]|] == Aliases[k]
  {
  }

  lemma SomeMatchMeansNotNone(s: string, m: Match)
    requires IsLeftmostFirstMatch(s, Some(m))
    ensures !IsLeftmostFirstMatch(s, None)
  {
    assert !NoMatchAt(s, m.start);
  }

  /** The description determines the search's result: whatever meets it is what the search returns. */
  lemma ExecIsDetermined(s: string, m: Match)
    requires IsLeftmostFirstMatch(s, Some(m))
    ensures Exec(s) == Some(m)
  {
    SomeMatchMeansNotNone(s, m);
    LeftmostFirstMatchUnique(s, Exec(s).value, m);
  }

  /** `2 lb` is read as 2 of the unit `l`. */
  lemma ExamplePoundsReadAsLitres()
    ensures Exec("2 lb") == Some(Match(0, 1, 2, L))
    ensures Aliases[L] == "l"
  {
    var s := "2 lb";
    assert s[0..1] == "2" && s[1..2] == " ";
    assert AliasAt(s, 2, L);
    assert forall k :: 0 <= k < L ==> Fold(s[2]) != Aliases[k][0];
    ExecIsDetermined(s, Match(0, 1, 2, L));
  }

  /** `1.5 kg` is read as 1.5 of the unit `kg`: `g` cannot match at the `k`. */
  lemma ExampleKilograms()
    ensures Exec("1.5 kg") == Some(Match(0, 3, 4, 2))
    ensures Aliases[2] == "kg"
  {
    var s := "1.5 kg";
    assert s[0..3] == "1.5" && s[3..4] == " ";
    assert FractionAt(s[0..3], 1);
    assert AliasAt(s, 4, 2);
    assert forall k :: 0 <= k < 2 ==> Fold(s[4]) != Aliases[k][0];
    ExecIsDetermined(s, Match(0, 3, 4, 2));
  }

  /** `250ml` is read as 250 of the unit `ml`, not as `l`. */
  lemma ExampleMillilitres()
    ensures Exec("250ml") == Some(Match(0, 3, 3, 3))
    ensures Aliases[3] == "ml"
  {
    var s := "250ml";
    assert s[0..3] == "250";
    assert AliasAt(s, 3, 3);
    assert forall k :: 0 <= k < 3 ==> Fold(s[3]) != Aliases[k][0];
    ExecIsDetermined(s, Match(0, 3, 3, 3));
  }

  /**
   * `12 x 355 ml` is read as 355 of the unit `ml`: the count `12` is followed
   * by `x`, which starts no alternative, so the leftmost match is at `355`.
   */
  lemma ExampleMultiPack()
    ensures Exec("12 x 355 ml") == Some(Match(5, 8, 9, 3))
  {
    var s := "12 x 355 ml";
    assert s[5..8] == "355" && s[8..9] == " ";
    assert AliasAt(s, 9, 3);
    assert forall k :: 0 <= k < 3 ==> Fold(s[9]) != Aliases[k][0];
    forall p | 0 <= p < 5 ensures NoMatchAt(s, p) {
      MultiPackCountUnmatched(s, p);
    }
    ExecIsDetermined(s, Match(5, 8, 9, 3));
  }

  /** `12 ct` is read as 12 of the unit `ct`. */
  lemma ExampleCountPattern()
    ensures Exec("12 ct") == Some(Match(0, 2, 3, 0))
  {
    var s := "12 ct";
    assert s[0..2] == "12" && s[2..3] == " ";
    assert AliasAt(s, 3, 0);
    ExecIsDetermined(s, Match(0, 2, 3, 0));
  }

  lemma MultiPackCountUnmatched(s: string, p: nat)
    requires s == "12 x 355 ml" && p < 5
    ensures NoMatchAt(s, p)
  {
    if p < 2 {
      DigitRunEnds(s, p, 2);
      SpaceRunEnds(s, 2, 3);
      assert forall k :: 0 <= k < |Aliases| ==> Fold(s[3 + 0]) != Aliases[k][0];
      assert FirstAlias(s, 3, 0).None?;
    }
    assert MatchHere(s, p).None?;
  }
}
