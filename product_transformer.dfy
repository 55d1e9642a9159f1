/** ProductTransformer.java: the business rules that turn a valid Product into a TransformedProduct. */
module ProductTransformer {
  import opened Wrappers
  import opened JavaStrings
  import opened JavaNumbers
  import opened ProductRecord
  import opened TransformedRecord

  const Electronics: string := "Electronics"
  const PremiumElectronics: string := "Premium Electronics"

  /**
   * `Math.round(x * 100.0)` = floor(100x + 1/2): the nearest whole number of cents,
   * a half cent rounded up.
   */
  function RoundToCents(x: real): (cents: int)
    ensures cents as real - 0.5 <= 100.0 * x < cents as real + 0.5
  {
    (100.0 * x + 0.5).Floor
  }

  /** A price that already is a whole number of cents is left as it is. */
  lemma {:induction false} RoundWholeCents(cents: int)
    ensures RoundToCents(cents as real / 100.0) == cents
  {
    var r := RoundToCents(cents as real / 100.0);
    assert 100.0 * (cents as real / 100.0) == cents as real;
    assert r as real - 0.5 <= cents as real < r as real + 0.5;
  }

  /** A larger price never rounds to fewer cents. */
  lemma {:induction false} RoundMonotone(x: real, y: real)
    requires x <= y
    ensures RoundToCents(x) <= RoundToCents(y)
  {
    var a, b := RoundToCents(x), RoundToCents(y);
    assert a as real - 0.5 <= 100.0 * x <= 100.0 * y < b as real + 0.5;
  }

  /**
   * `assignPriceRange`: the four bands Low, Medium, High and Premium, each closed at
   * its upper bound of 10, 100 and 500.
   */
  function AssignPriceRange(price: real): (band: string)
    ensures band == "Low" <==> price <= 10.0
    ensures band == "Medium" <==> 10.0 < price <= 100.0
    ensures band == "High" <==> 100.0 < price <= 500.0
    ensures band == "Premium" <==> 500.0 < price
  {
    if price <= 10.0 then "Low"
    else if price <= 100.0 then "Medium"
    else if price <= 500.0 then "High"
    else "Premium"
  }

  /** The price after the category rule: 10% off exactly when the trimmed category is "Electronics". */
  function DiscountedPrice(p: Product): real
    requires IsValid(p)
  {
    if Trim(p.category) == Electronics then PriceValue(p) * 0.9 else PriceValue(p)
  }

  /** `priceRounded`, counted in cents. */
  function RoundedCents(p: Product): int
    requires IsValid(p)
  {
    RoundToCents(DiscountedPrice(p))
  }

  /**
   * `transform`: trim every field, upper-case the name, discount Electronics, round to
   * cents, upgrade expensive Electronics, format the price with two decimals and label
   * its band.
   */
  function Transform(p: Product): (t: TransformedProduct)
    requires IsValid(p)
    ensures t.productId == Trim(p.productId)
    ensures t.productName == ToUpperCase(Trim(p.productName))
    ensures t.price == FormatCents(RoundedCents(p))
    ensures t.priceRange == AssignPriceRange(RoundedCents(p) as real / 100.0)
    ensures t.category == PremiumElectronics || t.category == Trim(p.category)
    ensures t.category != Trim(p.category) <==>
      Trim(p.category) == Electronics && RoundedCents(p) > 50000
  {
    var productId := Trim(p.productId);
    var productName := ToUpperCase(Trim(p.productName));
    var category := Trim(p.category);
    var cents := RoundedCents(p);
    var priceRounded := cents as real / 100.0;
    var finalCategory := if priceRounded > 500.0 && category == Electronics then PremiumElectronics else category;
    TransformedProduct(productId, productName, FormatCents(cents), finalCategory, AssignPriceRange(priceRounded))
  }

  /** Outside "Electronics" the price is only rounded and the category is kept as trimmed. */
  lemma NonElectronicsOnlyRounded(p: Product)
    requires IsValid(p) && Trim(p.category) != Electronics
    ensures RoundedCents(p) == RoundToCents(PriceValue(p))
    ensures Transform(p).category == Trim(p.category)
  {
  }

  /**
   * An "Electronics" product is priced at 90% of its price, rounded to cents, and becomes
   * "Premium Electronics" exactly when that rounded price exceeds 500.00.
   */
  lemma ElectronicsDiscounted(p: Product)
    requires IsValid(p) && Trim(p.category) == Electronics
    ensures RoundedCents(p) == RoundToCents(PriceValue(p) * 0.9)
    ensures Transform(p).category == (if RoundedCents(p) > 50000 then PremiumElectronics else Electronics)
  {
  }

  /** An upgraded category always comes with the Premium band: both test the rounded price against 500. */
  lemma UpgradeImpliesPremiumBand(p: Product)
    requires IsValid(p)
    ensures Transform(p).category != Trim(p.category) ==> Transform(p).priceRange == "Premium"
  {
  }

  /** The band boundaries belong to the lower band. */
  lemma PriceRangeBoundaries()
    ensures AssignPriceRange(10.0) == "Low" && AssignPriceRange(10.01) == "Medium"
    ensures AssignPriceRange(100.0) == "Medium" && AssignPriceRange(500.0) == "High"
    ensures AssignPriceRange(500.01) == "Premium"
  {
  }
}
