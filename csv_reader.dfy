/**
 * CSVReader.java without the file access: the header rule of `readHeader` and the
 * row loop of `readProducts`, over the lines the file holds.
 */
module CSVReader {
  import opened Wrappers
  import opened JavaStrings
  import opened ProductRecord

  /** `readHeader`: the first line, or "" for a file without lines. */
  function ReadHeader(lines: seq<string>): (header: string)
    ensures lines == [] ==> header == ""
    ensures lines != [] ==> header == lines[0]
  {
    if lines == [] then "" else lines[0]
  }

  /**
   * One data line: split at commas the way `String.split(",")` does; exactly four
   * pieces give a Product of the trimmed pieces, any other count the malformed
   * marker None (the source's null). No field is checked for meaning here.
   */
  function ParseLine(line: string): Option<Product> {
    var fields := JavaSplit(line);
    if |fields| != 4 then None
    else Some(Product(Trim(fields[0]), Trim(fields[1]), Trim(fields[2]), Trim(fields[3])))
  }

  /** Every field of a parsed product is already trimmed. */
  lemma ParsedFieldsTrimmed(line: string)
    requires ParseLine(line).Some?
    ensures var p := ParseLine(line).value;
      IsTrimmed(p.productId) && IsTrimmed(p.productName) && IsTrimmed(p.price) && IsTrimmed(p.category)
  {
    var fields := JavaSplit(line);
    TrimSpec(fields[0]);
    TrimSpec(fields[1]);
    TrimSpec(fields[2]);
    TrimSpec(fields[3]);
  }

  /**
   * Four comma-free pieces joined by commas parse back to those pieces, trimmed,
   * provided the last one is not empty.
   */
  lemma {:induction false} ParseJoinedLine(a: string, b: string, c: string, d: string)
    requires ',' !in a && ',' !in b && ',' !in c && ',' !in d
    requires d != ""
    ensures ParseLine(JoinWithComma([a, b, c, d])) == Some(Product(Trim(a), Trim(b), Trim(c), Trim(d)))
  {
    var fields := [a, b, c, d];
    var line := JoinWithComma(fields);
    SplitJoin(fields);
    JoinSize(fields);
    assert CommaCount(line) > 0;
    assert ',' in multiset(line);
    assert JavaSplit(line) == StripTrailingEmpty(SplitOnComma(line));
  }

  /**
   * Java's split drops trailing empty pieces: four comma-free pieces followed by
   * any number of empty pieces still give a product (as "5,Pen,1.00,Office,,"
   * does), while a line whose fourth piece is empty is malformed (as "5,Pen,1.00,").
   */
  lemma {:induction false} TrailingEmptyPiecesDropped(a: string, b: string, c: string, d: string, tail: seq<string>)
    requires ',' !in a && ',' !in b && ',' !in c && ',' !in d
    requires forall k :: 0 <= k < |tail| ==> tail[k] == ""
    ensures ParseLine(JoinWithComma([a, b, c, d] + tail)) ==
      if d != "" then Some(Product(Trim(a), Trim(b), Trim(c), Trim(d))) else None
  {
    var fields := [a, b, c, d] + tail;
    var line := JoinWithComma(fields);
    assert forall k :: 0 <= k < |fields| ==> ',' !in fields[k] by {
      forall k | 0 <= k < |fields| ensures ',' !in fields[k] {
        if k >= 4 { assert fields[k] == tail[k - 4]; }
      }
    }
    SplitJoin(fields);
    JoinSize(fields);
    assert ',' in multiset(line);
    var split := JavaSplit(line);
    assert split == StripTrailingEmpty(SplitOnComma(line));
    assert fields[3] == d;
    assert forall k :: 4 <= k < |fields| ==> fields[k] == tail[k - 4] == "";
    assert split != [] ==> split[|split| - 1] == fields[|split| - 1];
    if d != "" {
      assert |split| == 4;
      assert split == fields[..4] == [a, b, c, d];
    } else {
      assert |split| < 4;
    }
  }

  /** An empty line is one piece, so it is malformed. */
  lemma EmptyLineMalformed()
    ensures ParseLine("") == None
  {
  }

  /**
   * The entries `readProducts` returns for the given lines: one per line after
   * the header, in order; the header itself is never parsed.
   */
  function ParseRows(lines: seq<string>): (entries: seq<Option<Product>>)
    ensures |entries| == if |lines| == 0 then 0 else |lines| - 1
    ensures forall i :: 0 <= i < |entries| ==> entries[i] == ParseLine(lines[i + 1])
  {
    if |lines| <= 1 then []
    else
      var prefix := lines[..|lines| - 1];
      assert forall i :: 0 <= i < |prefix| ==> prefix[i] == lines[i];
      ParseRows(prefix) + [ParseLine(lines[|lines| - 1])]
  }

  /** `readProducts`: the index loop from row 1 that appends one entry per line. */
  method ReadProducts(lines: seq<string>) returns (products: seq<Option<Product>>)
    ensures products == ParseRows(lines)
  {
    products := [];
    var row := 1;
    while row < |lines|
      invariant 1 <= row
      invariant |lines| > 0 ==> row <= |lines| && products == ParseRows(lines[..row])
      invariant |lines| == 0 ==> products == []
    {
      var line := lines[row];
      var entry := ParseLine(line);
      assert lines[..row + 1][..row] == lines[..row];
      products := products + [entry];
      row := row + 1;
    }
    assert |lines| > 0 ==> lines[..row] == lines;
  }
}
