/** The cleaner cases the repository's unit tests check, proved from the
    definitions. */
module CleanerExamples {
  import opened Base
  import opened Strings
  import opened Decimals
  import opened Scan
  import opened Cleaner

  // ---- "£1,234.50" is the price 1234.5 ----

  /** The integer part of the price runs from the "1" to the ".". */
  lemma PriceIntegerRun()
    ensures IntRunEnd(PricePattern, "£1,234.50", 1) == 6
  {
    var s := "£1,234.50";
    assert IntRunEnd(PricePattern, s, 6) == 6;
    assert IntRunEnd(PricePattern, s, 5) == 6;
    assert IntRunEnd(PricePattern, s, 4) == 6;
    assert IntRunEnd(PricePattern, s, 3) == 6;
    assert IntRunEnd(PricePattern, s, 2) == 6;
  }

  lemma PriceCommasDeleted()
    ensures Remove("1,234", ',') == "1234"
  {
    RemoveAbsent("234", ',');
    assert "1,234"[1..] == ",234" && ",234"[1..] == "234";
  }

  lemma PriceDigitsValue()
    ensures DigitsValue("123450") == 123450
  {
    assert "12"[..1] == "1";
    assert "123"[..2] == "12";
    assert "1234"[..3] == "123";
    assert "12345"[..4] == "1234";
    assert "123450"[..5] == "12345";
  }

  /** The first price match is "1,234.50", with its fraction after index 6. */
  lemma PriceSearch()
    ensures Search(PricePattern, "£1,234.50") == Some(Lexeme(1, 1, 6, 9))
  {
    PriceIntegerRun();
    var s := "£1,234.50";
    assert FirstDigit(s, 0) == 1;
    assert FractionFollows(PricePattern, s, 6);
    assert IntRunEnd(CountPattern, s, 7) == 9;
  }

  lemma PriceTextIsNormal()
    ensures NormaliseText(Text("£1,234.50")) == "£1,234.50"
  {
    var s := "£1,234.50";
    assert IsNormal(s);
    NormalIsFixpoint(s);
  }

  lemma PriceLexemeValue()
    ensures Scanned(PricePattern, "£1,234.50", Lexeme(1, 1, 6, 9))
    ensures LexemeValue(PricePattern, "£1,234.50", Lexeme(1, 1, 6, 9)) == Decimal(123450, 2)
  {
    PriceSearch();
    PriceCommasDeleted();
    PriceDigitsValue();
    var s := "£1,234.50";
    var l := Lexeme(1, 1, 6, 9);
    assert s[1..6] == "1,234" && s[7..9] == "50" && "1234" + "50" == "123450";
    assert WholeDigits(PricePattern, s, l) == "1234";
    assert FractionDigits(PricePattern, s, l) == "50";
  }

  lemma PriceValue()
    ensures Decimal(123450, 2).Value() == 1234.5
  {
    assert Pow10(2) == 100;
  }

  /** The first unit test's price: "£1,234.50" cleans to 1234.5. */
  lemma PriceExample(s: string)
    requires s == "£1,234.50"
    ensures CleanPrice(Text(s)) == Some(Decimal(123450, 2))
    ensures CleanPrice(Text(s)).value.Value() == 1234.5
  {
    PriceTextIsNormal();
    PriceSearch();
    PriceLexemeValue();
    PriceValue();
  }

  // ---- a listed class name is a rating word ----

  /** The first unit test's rating: the class names "star-rating Three"
      with the words three and five give 3. */
  lemma RatingExample(items: seq<Option<string>>, words: OrderedMaps.OrderedMap<Decimal>)
    requires items == [Some("star-rating"), Some("Three")]
    requires words == [("three", FromInt(3)), ("five", FromInt(5))]
    ensures CleanRating(TextList(items), words) == Some(FromInt(3))
  {
    assert Lower("Three") == "three";
    assert !OrderedMaps.HasKey(words, Lower("star-rating"));
    assert words[0].0 == "three";
    assert items[1..][0].value == "Three";
    assert ListedWord(items[1..], words) == Some(FromInt(3));
  }

  // ---- whitespace is compressed, not deleted ----

  /** "a b" has two words and "ab" one, so normalising "a b" keeps the
      space. */
  lemma SpaceSeparatesWords()
    ensures Words("a b") == ["a", "b"]
    ensures Words("ab") == ["ab"]
    ensures Normalise("a b") != "ab"
  {
    assert "a b"[1..] == " b" && " b"[1..] == "b";
    assert Words("b") == ["b"];
    assert Words(" b") == ["b"];
    assert "ab"[1..] == "b" && !IsSpace("ab"[1]);
    assert Words("ab"[1..]) == ["b"];
    assert ['a'] + "b" == "ab";
  }

  // ---- "In stock " is in_stock ----

  lemma NormaliseExample(s: string)
    requires s == "In stock "
    ensures NormaliseText(Text(s)) == "In stock"
  {
    assert SingleSpaced(s);
    assert ReplaceNbsp(s) == s;
    CollapseKeepsSingleSpaced(s, false);
    assert LeadingSpace(s) == 0;
    assert StripLeft(s) == s;
    assert TrailingSpace(s[..|s| - 1]) == 0;
    assert TrailingSpace(s) == 1;
    assert StripRight(s) == "In stock";
  }

  lemma LowerExample(t: string)
    requires t == "In stock"
    ensures Lower(t) == "in stock" && Contains(Lower(t), "in stock")
  {
    assert "in stock" <= "in stock"[0..];
  }

  /** The first unit test's availability: "In stock " with the label
      "in stock" becomes "in_stock". */
  lemma AvailabilityExample(s: string, labels: OrderedMaps.OrderedMap<string>)
    requires s == "In stock "
    requires labels == [("in stock", "in_stock")]
    ensures StandardiseAvailability(Text(s), labels) == Some("in_stock")
  {
    NormaliseExample(s);
    LowerExample("In stock");
  }
}
