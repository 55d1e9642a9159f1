/** Worked instances of the validation rule on concrete products. */
module ProductExamples {
  import opened Wrappers
  import opened JavaStrings
  import opened JavaNumbers
  import opened ProductRecord

  lemma ParseOne()
    ensures ParseInt("1") == Some(1)
  {
    assert "1"[..0] == "";
  }

  lemma ParseTwoFifty()
    ensures ParseDecimal("2.50") == Some(2.5)
  {
    var s := "2.50";
    assert s[1..] == ".50";
    assert IndexOfDot(s) == 1;
    assert s[..1] == "2" && s[2..] == "50";
    assert "50"[..1] == "5" && "5"[..0] == "" && "2"[..0] == "";
    assert DigitsValue("2") == 2 && DigitsValue("50") == 50 && Pow10(2) == 100;
    assert ParseUnsignedDecimal(s) == Some(2.0 + 50.0 / 100.0);
  }

  lemma ParseLeadingZeros()
    ensures ParseInt("007") == Some(7)
  {
    assert "007"[..2] == "00" && "00"[..1] == "0" && "0"[..0] == "";
  }

  lemma ParseMinusFive()
    ensures ParseDecimal("-5") == Some(-5.0)
  {
    var s := "-5";
    assert s[1..] == "5" && "5"[1..] == "";
    assert IndexOfDot("5") == 1 && "5"[..1] == "5" && "5"[..0] == "";
  }

  /** Emptiness is tested on the untrimmed text: a whitespace-only name and category pass. */
  lemma WhitespaceFieldsAccepted()
    ensures IsValid(Product("1", " ", "2.50", "\t"))
  {
    TrimmedIsFixed("2.50");
    TrimmedIsFixed("1");
    ParseOne();
    ParseTwoFifty();
  }

  /** An empty name is rejected, and a whitespace-only id is rejected by the number check. */
  lemma BlankFieldsRejected()
    ensures !IsValid(Product("  ", "Pen", "2.50", "Office"))
    ensures !IsValid(Product("1", "", "2.50", "Office"))
  {
    assert Trim("  ") == [];
  }

  /** Leading zeros in the id are accepted, and so is a negative price. */
  lemma NegativePriceAccepted()
    ensures IsValid(Product("007", "Pen", "-5", "Office"))
  {
    TrimmedIsFixed("007");
    TrimmedIsFixed("-5");
    ParseLeadingZeros();
    ParseMinusFive();
  }

  /** An id of letters makes the product invalid. */
  lemma LetterIdRejected()
    ensures !IsValid(Product("abc", "Pen", "2.50", "Office"))
  {
    TrimmedIsFixed("abc");
    assert !IsDigit("abc"[0]);
  }

  /** An id with a fraction makes the product invalid. */
  lemma FractionalIdRejected()
    ensures !IsValid(Product("1.5", "Pen", "2.50", "Office"))
  {
    TrimmedIsFixed("1.5");
    assert !IsDigit("1.5"[1]);
  }

  /** A non-numeric price makes the product invalid. */
  lemma NonNumericPriceRejected()
    ensures !IsValid(Product("3", "thing", "abc", "Books"))
  {
    TrimmedIsFixed("abc");
    assert IndexOfDot("abc") == 3 by {
      assert "abc"[1..] == "bc" && "bc"[1..] == "c" && "c"[1..] == "";
    }
    assert !IsDigit("abc"[0]);
  }
}
