/** Inputs on which converting a converted string changes it again. */
module IdempotenceExamples {
  import opened Ascii
  import opened TokenRules
  import opened ChangeCaseTypes
  import E = TypesExamples
  import I = Idempotence

  // ---------------------------------------------------------------------------------------
  // "x2;b": ';' is neither kept nor a delimiter, and removing it makes a digit->letter pair
  // ---------------------------------------------------------------------------------------

  lemma TokensOfX2SemicolonB()
    ensures Tokenize("x2;b", Delimiters) == ["x2;b"]
  {
    var s := "x2;b";
    assert AllKeep(s, Delimiters, WithDigitRule) by {
      assert s[0..] == s && s[1..] == "2;b" && s[2..] == ";b" && s[3..] == "b";
    }
    TokenizeIsTokens(s, Delimiters);
    AllKeepSingleToken(s, Delimiters, WithDigitRule);
  }

  lemma KeepOfX2SemicolonB()
    ensures KeepChars("x2;b", AlphanumericChars) == "x2b"
  {
    AlphanumericCharsAre('x');
    AlphanumericCharsAre('2');
    AlphanumericCharsAre(';');
    AlphanumericCharsAre('b');
    assert "x2;b" == ['x'] + "2;b" && "2;b" == ['2'] + ";b" && ";b" == [';'] + "b" && "b" == ['b'] + "";
    KeepCharsCons('b', "", AlphanumericChars);
    KeepCharsCons(';', "b", AlphanumericChars);
    KeepCharsCons('2', ";b", AlphanumericChars);
    KeepCharsCons('x', "2;b", AlphanumericChars);
  }

  lemma WordsOfX2SemicolonB()
    ensures SplitStrip("x2;b", Delimiters, AlphanumericChars) == ["x2b"]
  {
    TokensOfX2SemicolonB();
    KeepOfX2SemicolonB();
    assert MapToOnlyChars(["x2;b"], AlphanumericChars) == ["x2b"];
    WithoutCons("", "x2b", []);
  }

  lemma SplitX2B()
    ensures SplitStrip("x2b", Delimiters, AlphanumericChars) == SplitStrip("x2", Delimiters, AlphanumericChars) + SplitStrip("b", Delimiters, AlphanumericChars)
  {
    assert "x2b" == "x2" + "b";
    E.AtDigitLetter("x2", "b", "x2b");
  }

  lemma WordX2()
    ensures SplitStrip("x2", Delimiters, AlphanumericChars) == ["x2"]
  {
    assert NoDigitLetter("x2") && OnlyChars("x2", LowerOrDigit) && OnlyChars("x2", AlphanumericChars);
    I.SingleCaseKeeps("x2", Delimiters);
    SplitStripWord("x2", Delimiters, AlphanumericChars);
  }

  lemma WordsOfX2B()
    ensures SplitStrip("x2b", Delimiters, AlphanumericChars) == ["x2", "b"]
  {
    WordLists();
    SplitX2B();
    WordX2();
    E.LowerTailWord("b");
  }

  /** The list identities the compositions rely on, kept apart from the splitting facts. */
  lemma WordLists()
    ensures ["x2"] + ["b"] == ["x2", "b"]
    ensures ["a"] + ["b"] == ["a", "b"]
    ensures ["x"] + ["y"] == ["x", "y"]
    ensures ["a"] + ["x", "y"] == ["a", "x", "y"]
    ensures ["a"] + ["XY"] == ["a", "XY"]
  {
  }

  /** Snake case of "x2;b" is "x2b", and snake case of that is "x2_b". */
  lemma SnakeCaseNotIdempotent()
    ensures SnakeCase("x2;b", Delimiters) == "x2b"
    ensures SnakeCase("x2b", Delimiters) == "x2_b"
  {
    WordsOfX2SemicolonB();
    WordsOfX2B();
    E.LowercaseBy("x2b", "x2b");
    E.LowercaseBy("x2", "x2");
    E.LowercaseBy("b", "b");
    assert MapToLowercase(["x2b"]) == ["x2b"];
    assert MapToLowercase(["x2", "b"]) == ["x2", "b"];
    assert Interleave(["x2", "b"], "_") == "x2" + "_" + "b";
  }

  // ---------------------------------------------------------------------------------------
  // "a b": path case joins with '/', which is not a default delimiter
  // ---------------------------------------------------------------------------------------

  lemma SplitAB()
    ensures SplitStrip("a b", Delimiters, AlphanumericChars) == SplitStrip("a", Delimiters, AlphanumericChars) + SplitStrip("b", Delimiters, AlphanumericChars)
  {
    assert "a b" == "a" + [' '] + "b";
    E.AtDelimiter("a", ' ', "b", "a b");
  }

  lemma WordsOfAB()
    ensures SplitStrip("a b", Delimiters, AlphanumericChars) == ["a", "b"]
  {
    WordLists();
    SplitAB();
    E.LowerTailWord("a");
    E.LowerTailWord("b");
  }

  lemma TokensOfASlashB()
    ensures Tokenize("a/b", Delimiters) == ["a/b"]
  {
    var s := "a/b";
    assert AllKeep(s, Delimiters, WithDigitRule) by {
      assert s[0..] == s && s[1..] == "/b" && s[2..] == "b";
    }
    TokenizeIsTokens(s, Delimiters);
    AllKeepSingleToken(s, Delimiters, WithDigitRule);
  }

  lemma KeepOfASlashB()
    ensures KeepChars("a/b", AlphanumericChars) == "ab"
  {
    AlphanumericCharsAre('a');
    AlphanumericCharsAre('/');
    AlphanumericCharsAre('b');
    assert "a/b" == ['a'] + "/b" && "/b" == ['/'] + "b" && "b" == ['b'] + "";
    KeepCharsCons('b', "", AlphanumericChars);
    KeepCharsCons('/', "b", AlphanumericChars);
    KeepCharsCons('a', "/b", AlphanumericChars);
  }

  lemma WordsOfASlashB()
    ensures SplitStrip("a/b", Delimiters, AlphanumericChars) == ["ab"]
  {
    TokensOfASlashB();
    KeepOfASlashB();
    assert MapToOnlyChars(["a/b"], AlphanumericChars) == ["ab"];
    WithoutCons("", "ab", []);
  }

  /** Path case of "a b" is "a/b", and path case of that is "ab". */
  lemma PathCaseNotIdempotent()
    ensures PathCase("a b", Delimiters) == "a/b"
    ensures PathCase("a/b", Delimiters) == "ab"
  {
    WordsOfAB();
    WordsOfASlashB();
    E.LowercaseBy("a", "a");
    E.LowercaseBy("b", "b");
    E.LowercaseBy("ab", "ab");
    assert MapToLowercase(["a", "b"]) == ["a", "b"];
    assert MapToLowercase(["ab"]) == ["ab"];
    assert Interleave(["a", "b"], "/") == "a" + "/" + "b";
  }

  // ---------------------------------------------------------------------------------------
  // "a x y": two one-letter words in a row become a run of capitals
  // ---------------------------------------------------------------------------------------

  lemma SplitAXY()
    ensures SplitStrip("a x y", Delimiters, AlphanumericChars) == SplitStrip("a", Delimiters, AlphanumericChars) + SplitStrip("x y", Delimiters, AlphanumericChars)
  {
    assert "a x y" == "a" + [' '] + "x y";
    E.AtDelimiter("a", ' ', "x y", "a x y");
  }

  lemma SplitXY()
    ensures SplitStrip("x y", Delimiters, AlphanumericChars) == SplitStrip("x", Delimiters, AlphanumericChars) + SplitStrip("y", Delimiters, AlphanumericChars)
  {
    assert "x y" == "x" + [' '] + "y";
    E.AtDelimiter("x", ' ', "y", "x y");
  }

  lemma SplitAXYCamel()
    ensures SplitStrip("aXY", Delimiters, AlphanumericChars) == SplitStrip("a", Delimiters, AlphanumericChars) + SplitStrip("XY", Delimiters, AlphanumericChars)
  {
    assert "aXY" == "a" + "XY";
    E.AtLowerUpper("a", "XY", "aXY");
  }

  lemma WordsOfXY()
    ensures SplitStrip("x y", Delimiters, AlphanumericChars) == ["x", "y"]
  {
    WordLists();
    SplitXY();
    E.LowerTailWord("x");
    E.LowerTailWord("y");
  }

  lemma WordsOfAXY()
    ensures SplitStrip("a x y", Delimiters, AlphanumericChars) == ["a", "x", "y"]
  {
    WordLists();
    SplitAXY();
    E.LowerTailWord("a");
    WordsOfXY();
  }

  lemma WordsOfAXYCamel()
    ensures SplitStrip("aXY", Delimiters, AlphanumericChars) == ["a", "XY"]
  {
    WordLists();
    SplitAXYCamel();
    E.LowerTailWord("a");
    E.UpperDigitsWord("XY", "", "XY");
  }

  lemma JoinsOfAXY()
    ensures Concat(["a", "X", "Y"]) == "aXY" && Concat(["a", "Xy"]) == "aXy"
  {
    ConcatCons("Y", []);
    ConcatCons("X", ["Y"]);
    ConcatCons("a", ["X", "Y"]);
    ConcatCons("Xy", []);
    ConcatCons("a", ["Xy"]);
  }

  lemma CamelMapsOfAXY()
    ensures MapToCamel(["a", "x", "y"]) == ["a", "X", "Y"]
    ensures MapToCamel(["a", "XY"]) == ["a", "Xy"]
  {
    E.LowercaseBy("a", "a");
    E.LowercaseBy("", "");
    E.LowercaseBy("Y", "y");
    assert Capitalize("x") == "X" && Capitalize("y") == "Y" && Capitalize("XY") == "Xy";
  }

  /** Camel case of "a x y" is "aXY", and camel case of that is "aXy". */
  lemma CamelCaseNotIdempotent()
    ensures CamelCase("a x y", Delimiters) == "aXY"
    ensures CamelCase("aXY", Delimiters) == "aXy"
  {
    WordsOfAXY();
    WordsOfAXYCamel();
    CamelMapsOfAXY();
    JoinsOfAXY();
  }
}
