/** Product.java: the immutable four-field record read from one input row, and its validation. */
module ProductRecord {
  import opened Wrappers
  import opened JavaStrings
  import opened JavaNumbers

  /**
   * A candidate product. The fields are final in the source and the getters return
   * them unchanged; a datatype value has exactly that behaviour.
   */
  datatype Product = Product(productId: string, productName: string, price: string, category: string)

  /**
   * `isValid`: no field is the empty string (tested before trimming), the trimmed id
   * parses as an `int` and the trimmed price parses as a decimal number.
   */
  function IsValid(p: Product): (valid: bool)
    ensures valid ==> p.productName != "" && p.category != ""
    ensures valid ==> Trim(p.productId) != "" && Trim(p.price) != ""
  {
    if p.productId == "" || p.productName == "" || p.price == "" || p.category == "" then false
    else if ParseInt(Trim(p.productId)).None? then false
    else if ParseDecimal(Trim(p.price)).None? then false
    else true
  }

  /** The number `Double.parseDouble(price.trim())` gives for a valid product. */
  function PriceValue(p: Product): real
    requires IsValid(p)
  {
    ParseDecimal(Trim(p.price)).value
  }

  /**
   * Validity needs nothing beyond the three checks: a product with non-empty fields,
   * an `int` id and a decimal price is valid, whatever else it holds (a negative
   * price, a whitespace-only name or category).
   */
  lemma {:induction false} ValidIffChecks(p: Product)
    ensures IsValid(p) <==>
      && p.productId != "" && p.productName != "" && p.price != "" && p.category != ""
      && ParseInt(Trim(p.productId)).Some?
      && ParseDecimal(Trim(p.price)).Some?
  {
  }

  /** An id whose value lies outside the 32-bit `int` range (such as 3000000000) makes the product invalid. */
  lemma {:induction false} IdOutOfRangeInvalid(n: int, name: string, price: string, category: string)
    requires n < MinInt || MaxInt < n
    ensures !IsValid(Product(IntToString(n), name, price, category))
  {
    var id := IntToString(n);
    assert IsTrimmed(id) by {
      var digits := NatToString(if n < 0 then -n else n);
      assert IsDigit(digits[0]) && IsDigit(digits[|digits| - 1]);
    }
    TrimmedIsFixed(id);
    ParseIntOutOfRange(n);
  }
}
