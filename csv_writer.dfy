/**
 * CSVWriter.java without the file access: the list of lines `write` builds and
 * hands to the file system.
 */
module CSVWriter {
  import opened JavaStrings
  import opened TransformedRecord
  import opened CSVReader

  /** The column `write` adds to the input header. */
  const PriceRangeColumn: string := ",Price Range"

  /**
   * The lines `write` produces: the extended header, then one row per product in
   * list order.
   */
  function OutputLines(header: string, products: seq<TransformedProduct>): (lines: seq<string>)
    ensures |lines| == |products| + 1
    ensures lines[0] == header + PriceRangeColumn
    ensures forall i :: 0 <= i < |products| ==> lines[i + 1] == ToCsvRow(products[i])
  {
    if products == [] then [header + PriceRangeColumn]
    else
      var prefix := products[..|products| - 1];
      assert forall i :: 0 <= i < |prefix| ==> prefix[i] == products[i];
      OutputLines(header, prefix) + [ToCsvRow(products[|products| - 1])]
  }

  /** `write`: start the list with the extended header and append each product's row. */
  method Write(header: string, products: seq<TransformedProduct>) returns (lines: seq<string>)
    ensures lines == OutputLines(header, products)
  {
    lines := [header + PriceRangeColumn];
    for i := 0 to |products|
      invariant lines == OutputLines(header, products[..i])
    {
      assert products[..i + 1][..i] == products[..i];
      lines := lines + [ToCsvRow(products[i])];
    }
    assert products[..|products|] == products;
  }

  /**
   * `getAbsoluteOutputPath`: an absolute `outputPath` (one starting with '/') is returned
   * as it is; a relative one is resolved against the working directory, an absolute
   * path, by joining the two with a single '/'.
   */
  function AbsoluteOutputPath(workingDirectory: string, outputPath: string): (path: string)
    requires workingDirectory != []
    ensures outputPath != [] && outputPath[0] == '/' ==> path == outputPath
    ensures !(outputPath != [] && outputPath[0] == '/') ==>
      var separator := if workingDirectory[|workingDirectory| - 1] == '/' then 0 else 1;
      && |path| == |workingDirectory| + separator + |outputPath|
      && path[..|workingDirectory|] == workingDirectory
      && path[|path| - |outputPath|..] == outputPath
      && path[|path| - |outputPath| - 1] == '/'
  {
    if outputPath != [] && outputPath[0] == '/' then outputPath
    else if workingDirectory[|workingDirectory| - 1] == '/' then workingDirectory + outputPath
    else workingDirectory + "/" + outputPath
  }

  /** An empty product list gives the header line alone. */
  lemma NoProductsHeaderOnly(header: string)
    ensures OutputLines(header, []) == [header + ",Price Range"]
  {
  }

  /**
   * The written lines read back: the header is the first line, and every row whose
   * fields hold no comma cuts back into that product's five fields, in order.
   */
  lemma {:induction false} OutputReadsBack(header: string, products: seq<TransformedProduct>, i: nat)
    requires i < |products|
    requires forall k :: 0 <= k < 5 ==> ',' !in Fields(products[i])[k]
    ensures ReadHeader(OutputLines(header, products)) == header + PriceRangeColumn
    ensures SplitOnComma(OutputLines(header, products)[i + 1]) == Fields(products[i])
  {
    RowSplitsIntoFields(products[i]);
  }
}
