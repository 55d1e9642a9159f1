/**
 * ETLPipelineOOP.java: the extract, transform and load stages of `main`, with the
 * file system and the console replaced by the outcomes and lines they would give.
 */
module ETLPipelineOOP {
  import opened Wrappers
  import opened JavaStrings
  import opened JavaNumbers
  import opened ProductRecord
  import opened TransformedRecord
  import opened ProductTransformer
  import opened CSVReader
  import opened CSVWriter

  /** The relative paths the program reads and writes. */
  const InputPath: string := "data/products.csv"
  const OutputPath: string := "data/transformed_products.csv"

  /** An entry is transformed exactly when it is a product (not a malformed row) that is valid. */
  predicate Accepted(entry: Option<Product>) {
    entry.Some? && IsValid(entry.value)
  }

  /** `transform` applied to the accepted entries, in their original order. */
  function TransformAccepted(entries: seq<Option<Product>>): seq<TransformedProduct> {
    if entries == [] then []
    else
      var last := entries[|entries| - 1];
      TransformAccepted(entries[..|entries| - 1])
        + (if Accepted(last) then [Transform(last.value)] else [])
  }

  /** The number of entries that are malformed or invalid. */
  function SkippedCount(entries: seq<Option<Product>>): nat {
    if entries == [] then 0
    else SkippedCount(entries[..|entries| - 1]) + (if Accepted(entries[|entries| - 1]) then 0 else 1)
  }

  /** The positions of the accepted entries, in increasing order: one per transformed record. */
  function AcceptedIndices(entries: seq<Option<Product>>): (idx: seq<nat>)
    ensures forall k :: 0 <= k < |idx| ==> idx[k] < |entries|
  {
    if entries == [] then []
    else
      AcceptedIndices(entries[..|entries| - 1])
        + (if Accepted(entries[|entries| - 1]) then [|entries| - 1] else [])
  }

  /** Every entry is counted once: as transformed or as skipped. */
  lemma {:induction false} CountsAddUp(entries: seq<Option<Product>>)
    ensures SkippedCount(entries) + |TransformAccepted(entries)| == |entries|
    ensures SkippedCount(entries) <= |entries|
  {
    if entries != [] {
      CountsAddUp(entries[..|entries| - 1]);
    }
  }

  /** The accepted indices are strictly increasing. */
  lemma {:induction false} AcceptedIndicesIncreasing(entries: seq<Option<Product>>)
    ensures forall j, k :: 0 <= j < k < |AcceptedIndices(entries)| ==>
      AcceptedIndices(entries)[j] < AcceptedIndices(entries)[k]
  {
    if entries != [] {
      var prefix := entries[..|entries| - 1];
      AcceptedIndicesIncreasing(prefix);
      var pidx := AcceptedIndices(prefix);
      if Accepted(entries[|entries| - 1]) {
        assert AcceptedIndices(entries) == pidx + [|entries| - 1];
      }
    }
  }

  /** Every accepted entry's position is among the accepted indices. */
  lemma {:induction false} AcceptedIndicesComplete(entries: seq<Option<Product>>, i: nat)
    requires i < |entries| && Accepted(entries[i])
    ensures i in AcceptedIndices(entries)
  {
    var prefix := entries[..|entries| - 1];
    var last := |entries| - 1;
    if i < last {
      assert entries[i] == prefix[i];
      AcceptedIndicesComplete(prefix, i);
      assert AcceptedIndices(prefix) <= AcceptedIndices(entries);
    }
  }

  /**
   * The output holds one record per accepted entry and nothing else, in input order:
   * record k is the transform of the entry at the k-th accepted index.
   */
  lemma {:induction false} TransformedInOrder(entries: seq<Option<Product>>)
    ensures |AcceptedIndices(entries)| == |TransformAccepted(entries)|
    ensures var idx, out := AcceptedIndices(entries), TransformAccepted(entries);
      forall k :: 0 <= k < |idx| ==> Accepted(entries[idx[k]]) && out[k] == Transform(entries[idx[k]].value)
  {
    if entries != [] {
      var prefix := entries[..|entries| - 1];
      var last := |entries| - 1;
      TransformedInOrder(prefix);
      var idx, pidx := AcceptedIndices(entries), AcceptedIndices(prefix);
      var out, pout := TransformAccepted(entries), TransformAccepted(prefix);
      assert forall i :: 0 <= i < |prefix| ==> entries[i] == prefix[i];
      if Accepted(entries[last]) {
        assert idx == pidx + [last] && out == pout + [Transform(entries[last].value)];
      } else {
        assert idx == pidx && out == pout;
      }
    }
  }

  /** A malformed or invalid entry never reaches `transform`: it only raises the skip count. */
  lemma RejectedEntrySkipped(entries: seq<Option<Product>>, entry: Option<Product>)
    requires !Accepted(entry)
    ensures TransformAccepted(entries + [entry]) == TransformAccepted(entries)
    ensures SkippedCount(entries + [entry]) == SkippedCount(entries) + 1
  {
    assert (entries + [entry])[..|entries|] == entries;
  }

  /**
   * `isValid` tests emptiness before trimming, but the reader has already trimmed every
   * field, so in the pipeline a row whose name or category is only spaces and control
   * characters is skipped.
   */
  lemma BlankFieldRowSkipped(line: string)
    requires |JavaSplit(line)| == 4
    requires (forall c :: c in JavaSplit(line)[1] ==> IsTrimSpace(c))
      || (forall c :: c in JavaSplit(line)[3] ==> IsTrimSpace(c))
    ensures ParseLine(line).Some? && !Accepted(ParseLine(line))
  {
    var fields := JavaSplit(line);
    TrimSpec(fields[1]);
    TrimSpec(fields[3]);
  }

  /**
   * The filter/count loop of `main`: every entry raises `rowsProcessed`; a malformed
   * or invalid one raises `rowsSkipped`, any other is transformed and appended.
   */
  method TransformRows(entries: seq<Option<Product>>)
    returns (transformed: seq<TransformedProduct>, rowsProcessed: nat, rowsSkipped: nat)
    ensures transformed == TransformAccepted(entries)
    ensures rowsProcessed == |entries|
    ensures rowsSkipped == SkippedCount(entries)
    ensures rowsSkipped <= rowsProcessed && |transformed| == rowsProcessed - rowsSkipped
  {
    transformed := [];
    rowsProcessed := 0;
    rowsSkipped := 0;
    for i := 0 to |entries|
      invariant rowsProcessed == i
      invariant transformed == TransformAccepted(entries[..i])
      invariant rowsSkipped == SkippedCount(entries[..i])
      invariant rowsSkipped <= rowsProcessed && |transformed| == rowsProcessed - rowsSkipped
    {
      var product := entries[i];
      assert entries[..i + 1][..i] == entries[..i];
      rowsProcessed := rowsProcessed + 1;
      if product.None? || !IsValid(product.value) {
        rowsSkipped := rowsSkipped + 1;
        continue;
      }
      transformed := transformed + [Transform(product.value)];
    }
    assert entries[..|entries|] == entries;
  }

  /** What reading the input file gives: its lines, a missing file, or another I/O error. */
  datatype ReadOutcome = Lines(lines: seq<string>) | NoSuchFile | ReadFailed(message: string)

  /** What a run leaves behind: the output file's lines when it was written, and the console text. */
  datatype RunResult = RunResult(output: Option<seq<string>>, stdout: seq<string>, stderr: seq<string>)

  /** The file the load stage writes for the given input lines. */
  function OutputFor(lines: seq<string>): (output: seq<string>)
    ensures |output| == 1 + |TransformAccepted(ParseRows(lines))|
    ensures output[0] == ReadHeader(lines) + PriceRangeColumn
  {
    OutputLines(ReadHeader(lines), TransformAccepted(ParseRows(lines)))
  }

  /** The four summary lines printed after a successful write. */
  function SummaryLines(rowsProcessed: int, rowsSkipped: int, absoluteOutputPath: string): seq<string> {
    [ "Count of total rows processed: " + IntToString(rowsProcessed),
      "Count of rows successfully transformed: " + IntToString(rowsProcessed - rowsSkipped),
      "Count of rows skipped due to formatting errors: " + IntToString(rowsSkipped),
      "Output written to: " + absoluteOutputPath ]
  }

  /**
   * `main`: read, transform, write, report. A read failure stops the run before
   * anything is transformed or written; a write failure stops it before the summary.
   * `writeFailure` is the message of the exception `Files.write` throws, if it does,
   * and `workingDirectory` the directory `toAbsolutePath` resolves the output path against.
   */
  method RunPipeline(input: ReadOutcome, writeFailure: Option<string>, workingDirectory: string)
    returns (r: RunResult)
    requires workingDirectory != []
    ensures input.NoSuchFile? ==>
      r == RunResult(None, [], ["Error: " + InputPath + " not found, program missing an input file and will terminate."])
    ensures input.ReadFailed? ==>
      r == RunResult(None, [], ["Error reading input file: " + input.message])
    ensures input.Lines? && writeFailure.Some? ==>
      r == RunResult(None, [], ["Error writing output file: " + writeFailure.value])
    ensures input.Lines? && writeFailure.None? ==>
      var entries := ParseRows(input.lines);
      r == RunResult(Some(OutputFor(input.lines)), SummaryLines(|entries|, SkippedCount(entries), AbsoluteOutputPath(workingDirectory, OutputPath)), [])
  {
    if input.NoSuchFile? {
      return RunResult(None, [], ["Error: " + InputPath + " not found, program missing an input file and will terminate."]);
    } else if input.ReadFailed? {
      return RunResult(None, [], ["Error reading input file: " + input.message]);
    }
    var header := ReadHeader(input.lines);
    var rawProducts := ReadProducts(input.lines);
    var transformed, rowsProcessed, rowsSkipped := TransformRows(rawProducts);
    var lines := Write(header, transformed);
    if writeFailure.Some? {
      return RunResult(None, [], ["Error writing output file: " + writeFailure.value]);
    }
    r := RunResult(Some(lines), SummaryLines(rowsProcessed, rowsSkipped, AbsoluteOutputPath(workingDirectory, OutputPath)), []);
  }

  /**
   * The reported counts for a file: one processed row per line after the header,
   * processed = transformed + skipped, and the output holds the header plus one
   * line per transformed row.
   */
  lemma RunCounts(lines: seq<string>)
    ensures var entries := ParseRows(lines);
      && |entries| == (if lines == [] then 0 else |lines| - 1)
      && SkippedCount(entries) <= |entries|
      && |OutputFor(lines)| == |entries| - SkippedCount(entries) + 1
  {
    CountsAddUp(ParseRows(lines));
  }

  /**
   * An empty input file has the empty header and no rows: the output is the added
   * column's header alone, and every count is zero.
   */
  lemma EmptyFileOutput()
    ensures OutputFor([]) == [",Price Range"]
    ensures ParseRows([]) == [] && SkippedCount(ParseRows([])) == 0
  {
    assert ReadHeader([]) + PriceRangeColumn == ",Price Range";
  }
}
