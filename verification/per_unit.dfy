/**
 * The arithmetic of `showPricePerUnit`: the guard on the price and the unit
 * object, and the branch on the unit that picks the divisor and the label.
 */
module PerUnit {
  import opened Wrappers
  import opened PriceText
  import opened UnitExtraction

  /**
   * A JavaScript quotient with a positive dividend and a divisor that is
   * never negative: a finite number, or `Infinity` when the divisor is 0.
   */
  datatype Quotient = Exact(value: real) | Infinity

  /**
   * The figure the script shows and the label it shows it under
   * (`Price per 100g`, `Price per 100ml`, `Price per <unit>`); the two
   * decimals `toFixed` prints are presentation and are not part of it.
   */
  datatype PerUnitFigure = PerUnitFigure(perUnit: Quotient, caption: string)

  /** `price / divisor` for a positive price. */
  function Divide(price: real, divisor: NonNeg): (r: Quotient)
    requires price > 0.0
    ensures r.Infinity? <==> divisor == 0.0
    ensures r.Exact? ==> r.value > 0.0 && r.value * divisor == price
  {
    if divisor == 0.0 then Infinity else Exact(price / divisor)
  }

  /** The unit strings the branch treats specially. */
  predicate IsMetricBranch(unit: string) {
    unit == "g" || unit == "ml" || unit == "l"
  }

  /**
   * The `if`/`else` chain on `unitObj.unit`: grams and millilitres are priced
   * per 100 of the unit, litres per 100 millilitres, and every other unit per
   * single unit under its own name.
   */
  function PricePerUnit(price: real, u: UnitObj): (r: PerUnitFigure)
    requires price > 0.0
    ensures u.unit == "g" ==> r.caption == "Price per 100g"
    ensures u.unit == "ml" || u.unit == "l" ==> r.caption == "Price per 100ml"
    ensures !IsMetricBranch(u.unit) ==> r.caption == "Price per " + u.unit
    ensures r.perUnit.Infinity? <==> u.amount == 0.0
    ensures r.perUnit.Exact? ==> r.perUnit.value > 0.0
    ensures r.perUnit.Exact? && (u.unit == "g" || u.unit == "ml") ==> r.perUnit.value * u.amount == 100.0 * price
    ensures r.perUnit.Exact? && u.unit == "l" ==> r.perUnit.value * (u.amount * 1000.0) == 100.0 * price
    ensures r.perUnit.Exact? && !IsMetricBranch(u.unit) ==> r.perUnit.value * u.amount == price
  {
    if u.unit == "g" then PerUnitFigure(Divide(price, u.amount / 100.0), "Price per 100g")
    else if u.unit == "ml" then PerUnitFigure(Divide(price, u.amount / 100.0), "Price per 100ml")
    else if u.unit == "l" then PerUnitFigure(Divide(price, u.amount * 10.0), "Price per 100ml")
    else PerUnitFigure(Divide(price, u.amount), "Price per " + u.unit)
  }

  /**
   * `if (!price || !unitObj) return;`: nothing is shown for a missing, `NaN`
   * or zero price, or a missing unit object; otherwise the branch's figure.
   */
  function ShowPricePerUnit(price: Option<Num>, unitObj: Option<UnitObj>): (r: Option<PerUnitFigure>)
    ensures r.Some? <==> price.Some? && price.value.Finite? && price.value.value > 0.0 && unitObj.Some?
    ensures r.Some? ==> r.value == PricePerUnit(price.value.value, unitObj.value)
  {
    match (price, unitObj)
    case (Some(Finite(p)), Some(u)) => if p == 0.0 then None else Some(PricePerUnit(p, u))
    case _ => None
  }

  /** A litre amount is priced as the same amount in millilitres, a thousand times over. */
  lemma LitreAsMillilitres(price: real, amount: NonNeg)
    requires price > 0.0
    ensures PricePerUnit(price, UnitObj(amount, "l")) == PricePerUnit(price, UnitObj(amount * 1000.0, "ml"))
  {
    assert amount * 10.0 == (amount * 1000.0) / 100.0;
  }

  /** Grams and millilitres share one formula; only the label differs. */
  lemma GramsLikeMillilitres(price: real, amount: NonNeg)
    requires price > 0.0
    ensures PricePerUnit(price, UnitObj(amount, "g")).perUnit == PricePerUnit(price, UnitObj(amount, "ml")).perUnit
    ensures PricePerUnit(price, UnitObj(amount, "g")).caption != PricePerUnit(price, UnitObj(amount, "ml")).caption
  {
    assert |"Price per 100g"| != |"Price per 100ml"|;
  }

  /**
   * Kilograms are not converted: the figure is the price of one kilogram,
   * ten times the per-100g figure of the same weight written in grams.
   */
  lemma KilogramsNotConverted(price: real, amount: NonNeg)
    requires price > 0.0 && amount > 0.0
    ensures PricePerUnit(price, UnitObj(amount, "kg")).caption == "Price per kg"
    ensures PricePerUnit(price, UnitObj(amount, "kg")).perUnit.value
            == 10.0 * PricePerUnit(price, UnitObj(amount * 1000.0, "g")).perUnit.value
  {
    var perKg := PricePerUnit(price, UnitObj(amount, "kg")).perUnit.value;
    var per100g := PricePerUnit(price, UnitObj(amount * 1000.0, "g")).perUnit.value;
    assert perKg * amount == price;
    assert per100g * (amount * 1000.0) == 100.0 * price;
    assert (10.0 * per100g) * amount == price;
  }

  /** The figure grows in proportion to the price. */
  lemma PricePerUnitProportional(price: real, u: UnitObj, factor: real)
    requires price > 0.0 && factor > 0.0 && u.amount > 0.0
    ensures PricePerUnit(price * factor, u).perUnit.value == PricePerUnit(price, u).perUnit.value * factor
    ensures PricePerUnit(price * factor, u).caption == PricePerUnit(price, u).caption
  {
  }

  /** Twelve `ct` for 3.6 show 0.3 under `Price per ct`. */
  lemma ExamplePerCount()
    ensures ShowPricePerUnit(Some(Finite(3.6)), Some(UnitObj(12.0, "ct")))
            == Some(PerUnitFigure(Exact(0.3), "Price per ct"))
  {
    assert "ct"[0] == 'c' && "ct" != "g" && "ct" != "ml" && "ct" != "l";
    assert "Price per " + "ct" == "Price per ct";
    assert 3.6 / 12.0 == 0.3;
  }
}
