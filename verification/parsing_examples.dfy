/**
 * Concrete attribute values and what the component reads from them. Each
 * literal has a lemma of its own, so that the evaluation of one string is
 * not entangled with the others.
 */
module ParsingExamples {
  import opened Common
  import opened Parsing

  lemma SizeValueExamples()
    ensures ParseSizeValue(None) == 10
    ensures ParseSizeValue(Some("")) == 10
    ensures ParseSizeValue(Some("px")) == 10
    ensures ParseSizeValue(Some("20px")) == 20
    ensures ParseSizeValue(Some(" 20px")) == 20
    ensures ParseSizeValue(Some("0")) == 0
    ensures ParseSizeValue(Some("0x4")) == 0
    ensures ParseSizeValue(Some("-5")) == -5
  {
    assert ParseFloat("") == None;
    SizeOfUnitOnly();
    SizeOfPixels();
    SizeOfSpacedPixels();
    SizeOfZero();
    SizeOfHex();
    SizeOfNegative();
  }

  lemma SizeOfUnitOnly()
    ensures ParseSizeValue(Some("px")) == 10
  {
    assert ParseFloat("px") == None by {
      TrimPlain("px");
    }
  }

  lemma FloatOfPixels()
    ensures ParseFloat("20px") == Some(20)
  {
    ParseShowRoundTrip(20, "px");
    assert Show(20) == "20";
    assert Show(20) + "px" == "20px";
  }

  lemma SizeOfPixels()
    ensures ParseSizeValue(Some("20px")) == 20
  {
    FloatOfPixels();
  }

  lemma SizeOfSpacedPixels()
    ensures ParseSizeValue(Some(" 20px")) == 20
  {
    assert ParseFloat(" 20px") == Some(20) by {
      FloatOfPixels();
      TrimSpaces(" ", "20px");
      assert " " + "20px" == " 20px";
    }
  }

  lemma SizeOfZero()
    ensures ParseSizeValue(Some("0")) == 0
  {
    assert ParseFloat("0") == Some(0) by {
      ParseShowRoundTrip(0, "");
      assert Show(0) + "" == "0";
    }
  }

  /** `parseFloat` reads no hexadecimal marker: "0x4" is 0 followed by a unit. */
  lemma SizeOfHex()
    ensures ParseSizeValue(Some("0x4")) == 0
  {
    assert ParseFloat("0x4") == Some(0) by {
      ParseShowRoundTrip(0, "x4");
      assert Show(0) + "x4" == "0x4";
    }
  }

  lemma SizeOfNegative()
    ensures ParseSizeValue(Some("-5")) == -5
  {
    assert ParseFloat("-5") == Some(-5) by {
      ParseShowRoundTrip(-5, "");
      assert Show(-5) + "" == "-5";
    }
  }

  /** `parseInt` reads a `0x` marker as hexadecimal, and a marker without digits as NaN. */
  lemma ColumnsExamples()
    ensures ParseColumns(Some("0x4")) == 4
    ensures ParseColumns(Some("0X1f")) == 31
    ensures ParseColumns(Some("0x")) == DefaultColumns
    ensures ParseColumns(Some(" 4")) == 4
    ensures ParseColumns(Some("4px")) == 4
    ensures ParseColumns(Some("abc")) == DefaultColumns
  {
    ColumnsOfHex();
    ColumnsOfUpperHex();
    ColumnsOfBareMarker();
    ColumnsOfSpaced();
    ColumnsOfPixels();
    ColumnsOfWord();
  }

  lemma ColumnsOfHex()
    ensures ParseColumns(Some("0x4")) == 4
  {
    assert ParseInt("0x4") == Some(4) by {
      TrimPlain("0x4");
      assert "0x4"[2..] == "4";
      assert DigitPrefix("4", 16) == Some(4) by {
        assert DigitRun("4", 16) == 1 && "4"[..1] == "4";
        assert "4"[..0] == "";
      }
    }
  }

  lemma ColumnsOfUpperHex()
    ensures ParseColumns(Some("0X1f")) == 31
  {
    assert ParseInt("0X1f") == Some(31) by {
      TrimPlain("0X1f");
      assert "0X1f"[2..] == "1f";
      HexDigitsOf1f();
    }
  }

  lemma HexDigitsOf1f()
    ensures DigitPrefix("1f", 16) == Some(31)
  {
    assert DigitRun("1f", 16) == 2 by {
      assert "1f"[1..] == "f";
      assert DigitRun("f", 16) == 1;
    }
    assert "1f"[..2] == "1f" && "1f"[..1] == "1";
    assert DigitsValue("1", 16) == 1 by {
      assert "1"[..0] == "";
    }
  }

  lemma ColumnsOfBareMarker()
    ensures ParseColumns(Some("0x")) == DefaultColumns
  {
    assert ParseInt("0x") == None by {
      TrimPlain("0x");
      assert "0x"[2..] == "";
    }
  }

  lemma IntOfFour()
    ensures ParseInt("4") == Some(4) && ParseInt("4px") == Some(4)
  {
    ParseIntShowRoundTrip(4, "");
    ParseIntShowRoundTrip(4, "px");
    assert Show(4) == "4";
    assert Show(4) + "" == "4";
    assert Show(4) + "px" == "4px";
  }

  lemma ColumnsOfSpaced()
    ensures ParseColumns(Some(" 4")) == 4
  {
    assert ParseInt(" 4") == Some(4) by {
      IntOfFour();
      TrimSpaces(" ", "4");
      assert " " + "4" == " 4";
    }
  }

  lemma ColumnsOfPixels()
    ensures ParseColumns(Some("4px")) == 4
  {
    IntOfFour();
  }

  lemma ColumnsOfWord()
    ensures ParseColumns(Some("abc")) == DefaultColumns
  {
    assert ParseInt("abc") == None by {
      TrimPlain("abc");
    }
  }
}
