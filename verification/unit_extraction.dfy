/**
 * `extractUnit`: the amount and unit the listing script reads from a
 * product title such as `Brand Coffee, 500 g, Medium Roast`.
 */
module UnitExtraction {
  import opened Wrappers
  import opened Chars
  import opened PriceText
  import opened TitleText
  import opened UnitPattern

  /** `{ amount: parseFloat(match[1]), unit: match[2] }`. */
  datatype UnitObj = UnitObj(amount: NonNeg, unit: string)

  /** `amount` is the value of the number `m` captures in `seg`. */
  ghost predicate CapturedAmount(seg: string, m: Match, amount: real) {
    && m.start <= m.numberEnd <= |seg|
    && IsDecimalLiteral(seg[m.start..m.numberEnd])
    && amount == LiteralValue(seg[m.start..m.numberEnd])
  }

  /** The number the pattern captures is a decimal literal, and `parseFloat` reads all of it. */
  lemma PatternNumberParses(t: string)
    requires IsPatternNumber(t)
    ensures IsCleaned(t) && IsDecimalLiteral(t)
    ensures ParseFloat(t) == Finite(LiteralValue(t))
  {
    if !AllDigits(t) {
      var d :| 0 < d < |t| - 1 && FractionAt(t, d);
      assert DottedAt(t, d);
      assert IsCleaned(t) by {
        forall i | 0 <= i < |t| ensures IsPriceChar(t[i]) {
          if i < d {
            assert t[..d][i] == t[i];
          } else if i > d {
            assert t[d + 1..][i - d - 1] == t[i];
          }
        }
      }
    }
    ParseFloatLiteral(t);
  }

  /**
   * The unit object read from the unit text: `match[1]` read with
   * `parseFloat` and `match[2]` as it stands in the text, or null when the
   * pattern matches nowhere.
   */
  function UnitFromText(seg: string): (r: Option<UnitObj>)
    ensures r.None? ==> IsLeftmostFirstMatch(seg, None)
    ensures r.Some? ==>
              exists m :: && IsLeftmostFirstMatch(seg, Some(m))
                          && CapturedAmount(seg, m, r.value.amount)
                          && r.value.unit == seg[m.unitStart..m.unitStart + |Aliases[m.alias]|]
                          && (NoAsciiUpper(seg) ==> r.value.unit == Aliases[m.alias])
    ensures r.Some? && NoAsciiUpper(seg) ==> r.value.unit in Aliases
  {
    match Exec(seg)
    case None => None
    case Some(m) =>
      var number := seg[m.start..m.numberEnd];
      PatternNumberParses(number);
      AliasAtLowerText(seg, m.unitStart, m.alias);
      Some(UnitObj(ParseFloat(number).value, seg[m.unitStart..m.unitStart + |Aliases[m.alias]|]))
  }

  /**
   * `extractUnit`: null without a title element; a thrown `TypeError` when the
   * title has no comma; otherwise the unit object read from the trimmed second
   * field of the lower-cased title, whose unit is always one of the nine
   * alternatives as spelled in the pattern.
   */
  function ExtractUnit(title: Option<string>): (r: Result<Option<UnitObj>, TitleError>)
    ensures title.None? ==> r == Ok(None)
    ensures r.Err? <==> title.Some? && ',' !in title.value
    ensures r.Ok? && r.value.Some? ==> r.value.value.unit in Aliases
  {
    match title
    case None => Ok(None)
    case Some(t) =>
      match UnitSegment(t)
      case Err(e) => Err(e)
      case Ok(seg) => Ok(UnitFromText(seg))
  }

  /** Extraction yields null exactly when nothing in the unit field fits the pattern. */
  lemma ExtractUnitNull(t: string)
    requires ',' in t
    ensures ExtractUnit(Some(t)) == Ok(None) <==> IsLeftmostFirstMatch(UnitSegment(t).value, None)
  {
    var seg := UnitSegment(t).value;
    if UnitFromText(seg).Some? {
      var m :| IsLeftmostFirstMatch(seg, Some(m));
      assert !NoMatchAt(seg, m.start);
    }
  }

  /**
   * What a successful extraction reads: the leftmost number in the unit field
   * that optional white space and a unit alternative follow, with the first
   * alternative that fits there, spelled as in the pattern.
   */
  lemma ExtractUnitReadsLeftmostMatch(t: string, u: UnitObj)
    requires ExtractUnit(Some(t)) == Ok(Some(u))
    ensures UnitSegment(t).Ok?
    ensures exists m :: && IsLeftmostFirstMatch(UnitSegment(t).value, Some(m))
                        && CapturedAmount(UnitSegment(t).value, m, u.amount)
                        && u.unit == Aliases[m.alias]
  {
    var seg := UnitSegment(t).value;
    assert UnitFromText(seg) == Some(u);
    assert NoAsciiUpper(seg);
  }

  lemma ParseCountExample()
    ensures ParseFloat("12") == Finite(12.0)
  {
  }

  lemma UnitFromTextExample()
    ensures UnitFromText("12 ct") == Some(UnitObj(12.0, "ct"))
  {
    ExampleCountPattern();
    ParseCountExample();
    var seg := "12 ct";
    assert seg[0..2] == "12" && seg[3..5] == "ct";
  }

  /** `Eggs, 12 CT` is read as 12 of `ct`. */
  lemma ExampleCountUnit()
    ensures ExtractUnit(Some("Eggs, 12 CT")) == Ok(Some(UnitObj(12.0, "ct")))
  {
    ExampleUnitSegment();
    UnitFromTextExample();
  }
}
