/** Worked instances of the row-splitting rule on concrete lines. */
module ReaderExamples {
  import opened Wrappers
  import opened JavaStrings
  import opened ProductRecord
  import opened CSVReader

  lemma JoinThingRow()
    ensures JoinWithComma(["3", "thing", "abc", "Books"]) == "3,thing,abc,Books"
  {
    var fields := ["3", "thing", "abc", "Books"];
    JoinThingTail();
    assert fields[1..] == ["thing", "abc", "Books"];
    assert "3" + "," + "thing,abc,Books" == "3,thing,abc,Books";
  }

  lemma JoinThingTail()
    ensures JoinWithComma(["thing", "abc", "Books"]) == "thing,abc,Books"
  {
    var fields := ["thing", "abc", "Books"];
    assert fields[1..] == ["abc", "Books"] && fields[1..][1..] == ["Books"];
    assert "abc" + "," + "Books" == "abc,Books";
    assert "thing" + "," + "abc,Books" == "thing,abc,Books";
  }

  /** The reader does not validate: a four-field row with a non-numeric price is still a product. */
  lemma NonNumericPriceStillParsed()
    ensures ParseLine("3,thing,abc,Books") == Some(Product("3", "thing", "abc", "Books"))
  {
    JoinThingRow();
    ParseJoinedLine("3", "thing", "abc", "Books");
    TrimmedIsFixed("3");
    TrimmedIsFixed("thing");
    TrimmedIsFixed("abc");
    TrimmedIsFixed("Books");
  }

  lemma JoinPenRowWithTrailingCommas()
    ensures JoinWithComma(["5", "Pen", "1.00", "Office"] + ["", ""]) == "5,Pen,1.00,Office,,"
  {
    var fields := ["5", "Pen", "1.00", "Office"] + ["", ""];
    JoinPenTail();
    assert fields[1..] == ["Pen", "1.00", "Office", "", ""];
    assert "5" + "," + "Pen,1.00,Office,," == "5,Pen,1.00,Office,,";
  }

  lemma JoinPenTail()
    ensures JoinWithComma(["Pen", "1.00", "Office", "", ""]) == "Pen,1.00,Office,,"
  {
    var fields := ["Pen", "1.00", "Office", "", ""];
    JoinOfficeTail();
    assert fields[1..] == ["1.00", "Office", "", ""];
    assert "Pen" + "," + "1.00,Office,," == "Pen,1.00,Office,,";
  }

  lemma JoinOfficeTail()
    ensures JoinWithComma(["1.00", "Office", "", ""]) == "1.00,Office,,"
  {
    var fields := ["1.00", "Office", "", ""];
    assert fields[1..] == ["Office", "", ""] && fields[1..][1..] == ["", ""] && fields[1..][1..][1..] == [""];
    assert "Office" + "," + ("" + "," + "") == "Office,,";
    assert "1.00" + "," + "Office,," == "1.00,Office,,";
  }

  /** "5,Pen,1.00,Office,," keeps its four fields: the two trailing empty pieces are dropped. */
  lemma TrailingCommasAccepted()
    ensures ParseLine("5,Pen,1.00,Office,,") == Some(Product("5", "Pen", "1.00", "Office"))
  {
    JoinPenRowWithTrailingCommas();
    TrailingEmptyPiecesDropped("5", "Pen", "1.00", "Office", ["", ""]);
    TrimmedIsFixed("5");
    TrimmedIsFixed("Pen");
    TrimmedIsFixed("1.00");
    TrimmedIsFixed("Office");
  }

  lemma JoinPenRowWithEmptyLast()
    ensures JoinWithComma(["5", "Pen", "1.00", ""] + []) == "5,Pen,1.00,"
  {
    var fields := ["5", "Pen", "1.00", ""];
    assert fields + [] == fields;
    assert JoinWithComma(fields[3..]) == "";
    assert JoinWithComma(fields[2..]) == "1.00,";
    assert JoinWithComma(fields[1..]) == "Pen,1.00,";
  }

  /** "5,Pen,1.00," has an empty fourth piece, which split drops: three fields, malformed. */
  lemma EmptyLastFieldMalformed()
    ensures ParseLine("5,Pen,1.00,") == None
  {
    JoinPenRowWithEmptyLast();
    TrailingEmptyPiecesDropped("5", "Pen", "1.00", "", []);
  }
}
