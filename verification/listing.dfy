/**
 * What the script does for one product container: read the price, read the
 * unit from the title, and compute the per-unit figure to show.
 */
module Listing {
  import opened Wrappers
  import opened PriceText
  import opened TitleText
  import opened UnitExtraction
  import opened PerUnit
  import opened UnitPattern

  /**
   * The body of the `forEach` callback for one container, given the text of
   * its price element and of its title element (`None` where the element is
   * missing): the figure to show, nothing, or the `TypeError` that
   * `extractUnit` throws on a title without a comma.
   */
  function ProcessListing(priceText: Option<string>, titleText: Option<string>): (r: Result<Option<PerUnitFigure>, TitleError>)
    ensures r.Err? <==> titleText.Some? && ',' !in titleText.value
    ensures r.Ok? && r.value.Some? ==> priceText.Some? && titleText.Some?
  {
    var price := ExtractPrice(priceText);
    match ExtractUnit(titleText)
    case Err(e) => Err(e)
    case Ok(unitObj) => Ok(ShowPricePerUnit(price, unitObj))
  }

  /**
   * A figure is shown exactly when the title has a comma and a unit in its
   * second field, and the cleaned price text reads as a positive number; a
   * price that reads as `NaN` or as 0 shows nothing.
   */
  lemma ShownExactlyWhen(priceText: Option<string>, titleText: Option<string>)
    ensures ProcessListing(priceText, titleText).Ok? && ProcessListing(priceText, titleText).value.Some?
            <==> && ExtractUnit(titleText).Ok? && ExtractUnit(titleText).value.Some?
                 && priceText.Some? && ParseFloat(Clean(priceText.value)).Finite?
                 && ParseFloat(Clean(priceText.value)).value > 0.0
  {
  }

  /**
   * The figure a listing shows is the branch's figure for the price read from
   * the cleaned price text and the unit object read from the title.
   */
  lemma ShownFigure(priceText: Option<string>, titleText: Option<string>, f: PerUnitFigure)
    requires ProcessListing(priceText, titleText) == Ok(Some(f))
    ensures priceText.Some? && ParseFloat(Clean(priceText.value)).Finite?
    ensures ParseFloat(Clean(priceText.value)).value > 0.0
    ensures ExtractUnit(titleText).Ok? && ExtractUnit(titleText).value.Some?
    ensures f == PricePerUnit(ParseFloat(Clean(priceText.value)).value, ExtractUnit(titleText).value.value)
  {
  }

  /** The price text does not decide whether the title throws. */
  lemma ThrowsWhateverThePrice(p1: Option<string>, p2: Option<string>, titleText: Option<string>)
    ensures ProcessListing(p1, titleText).Err? == ProcessListing(p2, titleText).Err?
  {
  }

  /** `Eggs, 12 CT` priced `$3.60` shows 0.30 under `Price per ct`. */
  lemma ExampleCount()
    ensures ProcessListing(Some("$3.60"), Some("Eggs, 12 CT"))
            == Ok(Some(PerUnitFigure(Exact(0.3), "Price per ct")))
  {
    ExamplePrice();
    ExampleCountUnit();
    ExamplePerCount();
  }

  /** A title without a comma throws, whatever the price. */
  lemma ExampleNoComma(priceText: Option<string>)
    ensures ProcessListing(priceText, Some("Organic Bananas")).Err?
  {
    var title := "Organic Bananas";
    assert forall i :: 0 <= i < |title| ==> title[i] != ',';
  }
}
