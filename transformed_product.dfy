/** TransformedProduct.java: the immutable five-field output record and its CSV row. */
module TransformedRecord {
  import opened JavaStrings

  /** An output record; the fields are final and the getters return them unchanged. */
  datatype TransformedProduct =
    TransformedProduct(productId: string, productName: string, price: string, category: string, priceRange: string)

  /** The five fields in column order. */
  function Fields(t: TransformedProduct): seq<string> {
    [t.productId, t.productName, t.price, t.category, t.priceRange]
  }

  /** `toCsvRow`: the five fields joined by commas, with no quoting or escaping. */
  function ToCsvRow(t: TransformedProduct): string {
    t.productId + "," + t.productName + "," + t.price + "," + t.category + "," + t.priceRange
  }

  /**
   * The row is as long as the fields together plus the four separators, and every
   * comma inside a field shows up in the row beside the four separators.
   */
  lemma RowSize(t: TransformedProduct)
    ensures |ToCsvRow(t)| == |t.productId| + |t.productName| + |t.price| + |t.category| + |t.priceRange| + 4
    ensures CommaCount(ToCsvRow(t)) ==
      CommaCount(t.productId) + CommaCount(t.productName) + CommaCount(t.price)
      + CommaCount(t.category) + CommaCount(t.priceRange) + 4
  {
    var a, b, c, d, e := t.productId, t.productName, t.price, t.category, t.priceRange;
    assert multiset(ToCsvRow(t)) ==
      multiset(a) + multiset(",") + multiset(b) + multiset(",") + multiset(c)
      + multiset(",") + multiset(d) + multiset(",") + multiset(e);
  }

  /** The row is `String.join(",", ...)` of the five fields. */
  lemma RowIsJoin(t: TransformedProduct)
    ensures ToCsvRow(t) == JoinWithComma(Fields(t))
  {
    var f := Fields(t);
    var a, b, c, d, e := t.productId, t.productName, t.price, t.category, t.priceRange;
    assert f[4..] == [e] && JoinWithComma(f[4..]) == e;
    assert f[3..][1..] == f[4..] && JoinWithComma(f[3..]) == d + "," + e;
    assert f[2..][1..] == f[3..] && JoinWithComma(f[2..]) == c + "," + (d + "," + e);
    assert f[1..][1..] == f[2..] && JoinWithComma(f[1..]) == b + "," + (c + "," + (d + "," + e));
    assert JoinWithComma(f) == a + "," + (b + "," + (c + "," + (d + "," + e)));
  }

  /**
   * When no field holds a comma, the row has exactly four commas and cutting it at
   * every comma gives back the five fields in order.
   */
  lemma {:induction false} RowSplitsIntoFields(t: TransformedProduct)
    requires forall k :: 0 <= k < 5 ==> ',' !in Fields(t)[k]
    ensures CommaCount(ToCsvRow(t)) == 4
    ensures SplitOnComma(ToCsvRow(t)) == Fields(t)
  {
    var f := Fields(t);
    assert f[0] == t.productId && f[1] == t.productName && f[2] == t.price;
    assert f[3] == t.category && f[4] == t.priceRange;
    CommaFreeCount(t.productId);
    CommaFreeCount(t.productName);
    CommaFreeCount(t.price);
    CommaFreeCount(t.category);
    CommaFreeCount(t.priceRange);
    RowSize(t);
    RowIsJoin(t);
    SplitJoin(f);
  }

  /**
   * No quoting or escaping: a comma inside any field is written as it is, so the row
   * has more than four commas and no longer cuts back into the five fields.
   */
  lemma {:induction false} CommaInFieldBreaksRow(t: TransformedProduct, k: nat)
    requires k < 5 && ',' in Fields(t)[k]
    ensures CommaCount(ToCsvRow(t)) > 4
    ensures SplitOnComma(ToCsvRow(t)) != Fields(t)
  {
    assert ',' in multiset(Fields(t)[k]);
    RowSize(t);
    SplitPieces(ToCsvRow(t));
  }
}
