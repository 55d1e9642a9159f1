/** Worked instances of the transformation rules on concrete products. */
module TransformExamples {
  import opened Wrappers
  import opened JavaStrings
  import opened JavaNumbers
  import opened ProductRecord
  import opened TransformedRecord
  import opened ProductTransformer

  /** "9.999" is read as the decimal 9.999. */
  lemma ParseNineNineNineNine()
    ensures ParseDecimal("9.999") == Some(9.999)
  {
    var s := "9.999";
    assert s[1..] == ".999";
    assert IndexOfDot(s) == 1;
    assert s[..1] == "9" && s[2..] == "999";
    assert "999"[..2] == "99" && "99"[..1] == "9" && "9"[..0] == "";
    assert DigitsValue("9") == 9 && DigitsValue("99") == 99 && DigitsValue("999") == 999;
    assert Pow10(3) == 1000;
    assert ParseUnsignedDecimal(s) == Some(9.0 + 999.0 / 1000.0);
  }

  /** "600" is read as 600. */
  lemma ParseSixHundred()
    ensures ParseDecimal("600") == Some(600.0)
  {
    var s := "600";
    assert s[1..] == "00" && s[1..][1..] == "0" && s[1..][1..][1..] == "";
    assert IndexOfDot(s) == 3;
    assert s[..3] == s && s[..2] == "60" && s[..1] == "6" && s[..0] == "";
    assert "60"[..1] == "6" && "6"[..0] == "";
    assert DigitsValue("6") == 6 && DigitsValue("60") == 60 && DigitsValue(s) == 600;
  }

  /** "555" is read as 555. */
  lemma ParseFiveFiveFive()
    ensures ParseDecimal("555") == Some(555.0)
  {
    var s := "555";
    assert s[1..] == "55" && s[1..][1..] == "5" && s[1..][1..][1..] == "";
    assert IndexOfDot(s) == 3;
    assert s[..3] == s && s[..2] == "55" && s[..1] == "5" && s[..0] == "";
    assert "55"[..1] == "5" && "5"[..0] == "";
    assert DigitsValue("5") == 5 && DigitsValue("55") == 55 && DigitsValue(s) == 555;
  }

  const Widget: Product := Product("1", "widget", "9.999", "Toys")
  const Gadget: Product := Product("2", "Gadget", "600", "Electronics")
  const Player: Product := Product("3", "Player", "555", "Electronics")

  lemma WidgetValid()
    ensures IsValid(Widget) && PriceValue(Widget) == 9.999 && Trim(Widget.category) == "Toys"
  {
    TrimmedIsFixed("1");
    TrimmedIsFixed("9.999");
    TrimmedIsFixed("Toys");
    ParseNineNineNineNine();
  }

  /** 9.999 rounds half up to 10.00: the widget costs "10.00" and falls in the Low band. */
  lemma WidgetRoundsUp()
    ensures IsValid(Widget)
    ensures RoundedCents(Widget) == 1000
    ensures Transform(Widget).price == "10.00" && Transform(Widget).priceRange == "Low"
    ensures Transform(Widget).category == "Toys" && Transform(Widget).productName == "WIDGET"
  {
    WidgetValid();
    TrimmedIsFixed("widget");
    UpperWidget();
    assert RoundedCents(Widget) == RoundToCents(9.999) == 1000;
    TenDollars();
  }

  lemma UpperWidget()
    ensures ToUpperCase("widget") == "WIDGET"
  {
  }

  /** 1000 cents are written "10.00". */
  lemma TenDollars()
    ensures FormatCents(1000) == "10.00"
  {
    assert NatToString(1) == "1";
    assert NatToString(10) == "10";
    assert CentsFraction(1000) == "00";
  }

  lemma GadgetValid()
    ensures IsValid(Gadget) && PriceValue(Gadget) == 600.0 && Trim(Gadget.category) == Electronics
  {
    TrimmedIsFixed("2");
    TrimmedIsFixed("600");
    TrimmedIsFixed("Electronics");
    ParseSixHundred();
  }

  /** 600 in "Electronics" is discounted to 540.00, above 500, so it becomes "Premium Electronics". */
  lemma GadgetUpgraded()
    ensures IsValid(Gadget)
    ensures RoundedCents(Gadget) == 54000
    ensures Transform(Gadget).category == PremiumElectronics && Transform(Gadget).priceRange == "Premium"
    ensures Transform(Gadget).price == "540.00"
  {
    GadgetValid();
    assert DiscountedPrice(Gadget) == 540.0;
    FiveHundredForty();
  }

  lemma FiveHundredForty()
    ensures FormatCents(54000) == "540.00"
  {
    assert NatToString(5) == "5" && NatToString(54) == "54" && NatToString(540) == "540";
    assert CentsFraction(54000) == "00";
  }

  lemma PlayerValid()
    ensures IsValid(Player) && PriceValue(Player) == 555.0 && Trim(Player.category) == Electronics
  {
    TrimmedIsFixed("3");
    TrimmedIsFixed("555");
    TrimmedIsFixed("Electronics");
    ParseFiveFiveFive();
  }

  /** 555 in "Electronics" is discounted to 499.50, not above 500, so it stays "Electronics" in the High band. */
  lemma PlayerNotUpgraded()
    ensures IsValid(Player)
    ensures RoundedCents(Player) == 49950
    ensures Transform(Player).category == Electronics && Transform(Player).priceRange == "High"
    ensures Transform(Player).price == "499.50"
  {
    PlayerValid();
    assert DiscountedPrice(Player) == 499.5;
    FourNinetyNineFifty();
  }

  lemma FourNinetyNineFifty()
    ensures FormatCents(49950) == "499.50"
  {
    assert NatToString(4) == "4" && NatToString(49) == "49" && NatToString(499) == "499";
    assert CentsFraction(49950) == "50";
  }
}
