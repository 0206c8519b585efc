/** Where the index.ts conventions meet and where they part from the types.ts ones, on test
    strings of test.ts. */
module LegacyExamples {
  import opened Ascii
  import opened TokenRules
  import opened ChangeCaseLegacy
  import T = ChangeCaseTypes
  import E = TypesExamples

  // ---------------------------------------------------------------------------------------
  // "TestV2": no digit is followed by a letter, so both variants give the same table row
  // ---------------------------------------------------------------------------------------

  lemma NoDigitLetterTestV2()
    ensures NoDigitLetter("TestV2")
  {
  }

  lemma WordsOfTestV2()
    ensures SplitStrip("TestV2", T.Delimiters, AlphanumericChars) == ["Test", "V2"]
  {
    NoDigitLetterTestV2();
    SplitStripAgrees("TestV2", T.Delimiters, AlphanumericChars);
    E.WordsOfTestV2();
  }

  lemma CamelOfTestV2()
    ensures ToCamel("TestV2", T.Delimiters) == "testV2"
  {
    NoDigitLetterTestV2();
    E.WordsOfTestV2();
    assert !StartsWithDigit(["Test", "V2"][1]);
    CamelAgrees("TestV2", T.Delimiters);
    E.TableRowTestV2();
  }

  lemma OthersOfTestV2()
    ensures ToSnake("TestV2", T.Delimiters) == "test_v2" && ToPascal("TestV2", T.Delimiters) == "TestV2"
    ensures ToConst("TestV2", T.Delimiters) == "TEST_V2" && ToParam("TestV2", T.Delimiters) == "test-v2"
    ensures ToDot("TestV2", T.Delimiters) == "test.v2" && ToSentence("TestV2", T.Delimiters) == "Test v2"
    ensures ToHeader("TestV2", T.Delimiters) == "Test-V2" && ToCapital("TestV2", T.Delimiters) == "Test V2"
    ensures ToPath("TestV2", T.Delimiters) == "test/v2"
  {
    NoDigitLetterTestV2();
    ConventionsAgree("TestV2", T.Delimiters);
    E.TableRowTestV2();
  }

  /** The row of "TestV2" in every table of test.ts, for the index.ts conventions. */
  lemma TableRowTestV2()
    ensures ToSnake("TestV2", T.Delimiters) == "test_v2"
    ensures ToCamel("TestV2", T.Delimiters) == "testV2"
    ensures ToPascal("TestV2", T.Delimiters) == "TestV2"
    ensures ToConst("TestV2", T.Delimiters) == "TEST_V2"
    ensures ToParam("TestV2", T.Delimiters) == "test-v2"
    ensures ToDot("TestV2", T.Delimiters) == "test.v2"
    ensures ToSentence("TestV2", T.Delimiters) == "Test v2"
    ensures ToHeader("TestV2", T.Delimiters) == "Test-V2"
    ensures ToCapital("TestV2", T.Delimiters) == "Test V2"
    ensures ToPath("TestV2", T.Delimiters) == "test/v2"
  {
    CamelOfTestV2();
    OthersOfTestV2();
  }

  // ---------------------------------------------------------------------------------------
  // "version 1.2.10": the same words, but camel case has no '_' before a digit
  // ---------------------------------------------------------------------------------------

  lemma NoDigitLetterVersion1210()
    ensures NoDigitLetter("version 1.2.10")
  {
  }

  lemma WordsOfVersion1210()
    ensures SplitStrip("version 1.2.10", T.Delimiters, AlphanumericChars) == ["version", "1", "2", "10"]
  {
    NoDigitLetterVersion1210();
    SplitStripAgrees("version 1.2.10", T.Delimiters, AlphanumericChars);
    E.WordsOfVersion1210();
  }

  lemma CamelMapOfVersion1210()
    ensures MapToCamel(["version", "1", "2", "10"]) == ["version", "1", "2", "10"]
  {
    E.CaseOfVersion1210();
  }

  lemma ConcatOfVersion1210()
    ensures Concat(["version", "1", "2", "10"]) == "version1210"
  {
    ConcatCons("10", []);
    ConcatCons("2", ["10"]);
    ConcatCons("1", ["2", "10"]);
    ConcatCons("version", ["1", "2", "10"]);
  }

  /** index.ts runs the words of "version 1.2.10" together in camel case, where types.ts
      writes "version_1_2_10"; pascal case keeps the '_' in both. */
  lemma TableRowVersion1210()
    ensures ToCamel("version 1.2.10", T.Delimiters) == "version1210"
    ensures T.CamelCase("version 1.2.10", T.Delimiters) == "version_1_2_10"
    ensures ToPascal("version 1.2.10", T.Delimiters) == "Version_1_2_10"
    ensures ToSnake("version 1.2.10", T.Delimiters) == "version_1_2_10"
    ensures ToConst("version 1.2.10", T.Delimiters) == "VERSION_1_2_10"
  {
    WordsOfVersion1210();
    CamelMapOfVersion1210();
    ConcatOfVersion1210();
    NoDigitLetterVersion1210();
    ConventionsAgree("version 1.2.10", T.Delimiters);
    E.TableRowVersion1210();
  }

  // ---------------------------------------------------------------------------------------
  // "TERRIBLE2ERRORCondition": without the digit->letter rule "TERRIBLE2ERROR" stays one word
  // ---------------------------------------------------------------------------------------

  lemma PiecesTerribleCondition()
    ensures "TERRIBLE2ERRORCondition" == "TERRIBLE2ERROR" + "Condition"
    ensures "TERRIBLE2ERRORCondition" == "TERRIBLE2" + "ERRORCondition"
    ensures "ERRORCondition" == "ERROR" + "Condition"
  {
  }

  lemma WordCondition()
    ensures SplitStrip("Condition", T.Delimiters, AlphanumericChars) == ["Condition"]
  {
    LowerTailKeeps("Condition", T.Delimiters, WithoutDigitRule);
    SplitStripWord("Condition", T.Delimiters, AlphanumericChars);
  }

  lemma WordTerribleError()
    ensures SplitStrip("TERRIBLE2ERROR", T.Delimiters, AlphanumericChars) == ["TERRIBLE2ERROR"]
  {
    NoLowerKeeps("TERRIBLE2ERROR", T.Delimiters);
    SplitStripWord("TERRIBLE2ERROR", T.Delimiters, AlphanumericChars);
  }

  lemma SplitTerribleCondition()
    ensures SplitStrip("TERRIBLE2ERRORCondition", T.Delimiters, AlphanumericChars)
      == SplitStrip("TERRIBLE2ERROR", T.Delimiters, AlphanumericChars) + SplitStrip("Condition", T.Delimiters, AlphanumericChars)
  {
    PiecesTerribleCondition();
    CamelSplitAcronym("TERRIBLE2ERROR", "Condition", T.Delimiters);
    SplitStripAppend("TERRIBLE2ERROR", "Condition", "TERRIBLE2ERRORCondition", T.Delimiters, AlphanumericChars);
  }

  lemma TypesSplitTerrible()
    ensures T.SplitStrip("TERRIBLE2ERRORCondition", T.Delimiters, AlphanumericChars)
      == T.SplitStrip("TERRIBLE2", T.Delimiters, AlphanumericChars) + T.SplitStrip("ERRORCondition", T.Delimiters, AlphanumericChars)
  {
    PiecesTerribleCondition();
    E.AtDigitLetter("TERRIBLE2", "ERRORCondition", "TERRIBLE2ERRORCondition");
  }

  lemma TypesSplitErrorCondition()
    ensures T.SplitStrip("ERRORCondition", T.Delimiters, AlphanumericChars)
      == T.SplitStrip("ERROR", T.Delimiters, AlphanumericChars) + T.SplitStrip("Condition", T.Delimiters, AlphanumericChars)
  {
    PiecesTerribleCondition();
    E.AtAcronym("ERROR", "Condition", "ERRORCondition");
  }

  lemma WordListsOfTerribleCondition()
    ensures ["TERRIBLE2ERROR"] + ["Condition"] == ["TERRIBLE2ERROR", "Condition"]
    ensures ["ERROR"] + ["Condition"] == ["ERROR", "Condition"]
    ensures ["TERRIBLE2"] + ["ERROR", "Condition"] == ["TERRIBLE2", "ERROR", "Condition"]
  {
  }

  lemma TypesWordsOfErrorCondition()
    ensures T.SplitStrip("ERRORCondition", T.Delimiters, AlphanumericChars) == ["ERROR", "Condition"]
  {
    WordListsOfTerribleCondition();
    E.WordError();
    E.WordCondition();
    TypesSplitErrorCondition();
  }

  lemma TypesWordsOfTerribleCondition()
    ensures T.SplitStrip("TERRIBLE2ERRORCondition", T.Delimiters, AlphanumericChars) == ["TERRIBLE2", "ERROR", "Condition"]
  {
    WordListsOfTerribleCondition();
    E.WordTerrible2();
    TypesWordsOfErrorCondition();
    TypesSplitTerrible();
  }

  /** types.ts splits "TERRIBLE2ERRORCondition" into three words, index.ts into two. */
  lemma WordsOfTerribleCondition()
    ensures SplitStrip("TERRIBLE2ERRORCondition", T.Delimiters, AlphanumericChars) == ["TERRIBLE2ERROR", "Condition"]
    ensures T.SplitStrip("TERRIBLE2ERRORCondition", T.Delimiters, AlphanumericChars) == ["TERRIBLE2", "ERROR", "Condition"]
  {
    WordListsOfTerribleCondition();
    WordCondition();
    WordTerribleError();
    SplitTerribleCondition();
    TypesWordsOfTerribleCondition();
  }
}
