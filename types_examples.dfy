/** The expected results of the conventions on the test strings of test.ts, derived from the
    general splitting laws of the tokenizer: first the words of each test string, step by step,
    then the table of every convention. */
module TypesExamples {
  import opened Ascii
  import opened TokenRules
  import opened ChangeCaseTypes

  // ---------------------------------------------------------------------------------------
  // Splitting laws for the default delimiters and characters
  // ---------------------------------------------------------------------------------------

  lemma AtDelimiter(x: string, c: char, y: string, s: string)
    requires c in Delimiters && s == x + [c] + y
    ensures SplitStrip(s, Delimiters, AlphanumericChars) == SplitStrip(x, Delimiters, AlphanumericChars) + SplitStrip(y, Delimiters, AlphanumericChars)
  {
    TokenizeDelimiter(x, c, y, Delimiters);
    SplitStripAppend(x, y, x + [c] + y, Delimiters, AlphanumericChars);
  }

  lemma AtLowerUpper(x: string, y: string, s: string)
    requires s == x + y
    requires |x| >= 1 && |y| >= 1 && IsLower(x[|x| - 1]) && IsUpper(y[0])
    ensures SplitStrip(s, Delimiters, AlphanumericChars) == SplitStrip(x, Delimiters, AlphanumericChars) + SplitStrip(y, Delimiters, AlphanumericChars)
  {
    TokenizeLowerUpper(x, y, Delimiters);
    SplitStripAppend(x, y, x + y, Delimiters, AlphanumericChars);
  }

  lemma AtDigitLetter(x: string, y: string, s: string)
    requires s == x + y
    requires |x| >= 1 && |y| >= 1 && IsDigit(x[|x| - 1]) && IsLetter(y[0])
    ensures SplitStrip(s, Delimiters, AlphanumericChars) == SplitStrip(x, Delimiters, AlphanumericChars) + SplitStrip(y, Delimiters, AlphanumericChars)
  {
    TokenizeDigitLetter(x, y, Delimiters);
    SplitStripAppend(x, y, x + y, Delimiters, AlphanumericChars);
  }

  lemma AtAcronym(x: string, y: string, s: string)
    requires s == x + y
    requires |x| >= 1 && |y| >= 2 && IsUpper(x[|x| - 1]) && IsUpper(y[0]) && IsLower(y[1])
    ensures SplitStrip(s, Delimiters, AlphanumericChars) == SplitStrip(x, Delimiters, AlphanumericChars) + SplitStrip(y, Delimiters, AlphanumericChars)
  {
    TokenizeAcronym(x, y, Delimiters);
    SplitStripAppend(x, y, x + y, Delimiters, AlphanumericChars);
  }

  /** A letter followed by lower-case letters is a word of its own. */
  lemma LowerTailWord(w: string)
    requires |w| >= 1 && IsLetter(w[0])
    requires forall i :: 1 <= i < |w| ==> IsLower(w[i])
    ensures SplitStrip(w, Delimiters, AlphanumericChars) == [w]
  {
    LowerTailKeeps(w, Delimiters, WithDigitRule);
    SplitStripWord(w, Delimiters, AlphanumericChars);
  }

  /** Capitals followed by digits are a word of their own. */
  lemma UpperDigitsWord(u: string, d: string, w: string)
    requires w == u + d && w != ""
    requires forall i :: 0 <= i < |u| ==> IsUpper(u[i])
    requires forall i :: 0 <= i < |d| ==> IsDigit(d[i])
    ensures SplitStrip(w, Delimiters, AlphanumericChars) == [w]
  {
    assert forall i :: 0 <= i < |w| ==> IsUpper(w[i]) || IsDigit(w[i]);
    UpperDigitsKeeps(u, d, Delimiters, WithDigitRule);
    SplitStripWord(w, Delimiters, AlphanumericChars);
  }

  lemma WordsOfEmpty()
    ensures SplitStrip("", Delimiters, AlphanumericChars) == []
  {
  }

  // ---------------------------------------------------------------------------------------
  // Single words
  // ---------------------------------------------------------------------------------------

  lemma WordTest()
    ensures SplitStrip("test", Delimiters, AlphanumericChars) == ["test"]
  {
    LowerTailWord("test");
  }

  lemma WordString()
    ensures SplitStrip("string", Delimiters, AlphanumericChars) == ["string"]
  {
    LowerTailWord("string");
  }

  lemma WordCapitalTest()
    ensures SplitStrip("Test", Delimiters, AlphanumericChars) == ["Test"]
  {
    LowerTailWord("Test");
  }

  lemma WordCapitalString()
    ensures SplitStrip("String", Delimiters, AlphanumericChars) == ["String"]
  {
    LowerTailWord("String");
  }

  lemma WordVersion()
    ensures SplitStrip("version", Delimiters, AlphanumericChars) == ["version"]
  {
    LowerTailWord("version");
  }

  lemma WordCondition()
    ensures SplitStrip("Condition", Delimiters, AlphanumericChars) == ["Condition"]
  {
    LowerTailWord("Condition");
  }

  lemma WordSome()
    ensures SplitStrip("some", Delimiters, AlphanumericChars) == ["some"]
  {
    LowerTailWord("some");
  }

  lemma WordSad()
    ensures SplitStrip("Sad", Delimiters, AlphanumericChars) == ["Sad"]
  {
    LowerTailWord("Sad");
  }

  lemma WordV2()
    ensures SplitStrip("V2", Delimiters, AlphanumericChars) == ["V2"]
  {
    UpperDigitsWord("V", "2", "V2");
  }

  lemma WordHow()
    ensures SplitStrip("HOW", Delimiters, AlphanumericChars) == ["HOW"]
  {
    UpperDigitsWord("HOW", "", "HOW");
  }

  lemma WordError()
    ensures SplitStrip("ERROR", Delimiters, AlphanumericChars) == ["ERROR"]
  {
    UpperDigitsWord("ERROR", "", "ERROR");
  }

  lemma WordTerrible2()
    ensures SplitStrip("TERRIBLE2", Delimiters, AlphanumericChars) == ["TERRIBLE2"]
  {
    UpperDigitsWord("TERRIBLE", "2", "TERRIBLE2");
  }

  lemma Word1()
    ensures SplitStrip("1", Delimiters, AlphanumericChars) == ["1"]
  {
    UpperDigitsWord("", "1", "1");
  }

  lemma Word2()
    ensures SplitStrip("2", Delimiters, AlphanumericChars) == ["2"]
  {
    UpperDigitsWord("", "2", "2");
  }

  lemma Word10()
    ensures SplitStrip("10", Delimiters, AlphanumericChars) == ["10"]
  {
    UpperDigitsWord("", "10", "10");
  }

  lemma Word21()
    ensures SplitStrip("21", Delimiters, AlphanumericChars) == ["21"]
  {
    UpperDigitsWord("", "21", "21");
  }

  lemma Word0()
    ensures SplitStrip("0", Delimiters, AlphanumericChars) == ["0"]
  {
    UpperDigitsWord("", "0", "0");
  }

  // ---------------------------------------------------------------------------------------
  // Single steps, one law each
  // ---------------------------------------------------------------------------------------

  lemma PiecesTestString()
    ensures "test string" == "test" + [' '] + "string"
  {
  }

  lemma PiecesCapitalTestString()
    ensures "Test String" == "Test" + [' '] + "String"
  {
  }

  lemma PiecesTestV2()
    ensures "TestV2" == "Test" + "V2"
  {
  }

  lemma Pieces210()
    ensures "2.10" == "2" + ['.'] + "10"
  {
  }

  lemma Pieces1210()
    ensures "1.2.10" == "1" + ['.'] + "2.10"
  {
  }

  lemma PiecesVersion1210()
    ensures "version 1.2.10" == "version" + [' '] + "1.2.10"
  {
  }

  lemma Pieces210Zero()
    ensures "21.0" == "21" + ['.'] + "0"
  {
  }

  lemma Pieces1210Zero()
    ensures "1.21.0" == "1" + ['.'] + "21.0"
  {
  }

  lemma PiecesVersion1210Zero()
    ensures "version 1.21.0" == "version" + [' '] + "1.21.0"
  {
  }

  lemma PiecesHowSad()
    ensures "HOWSad" == "HOW" + "Sad"
  {
  }

  lemma PiecesUnderscore1()
    ensures "_HOWSad" == "" + ['_'] + "HOWSad"
  {
  }

  lemma PiecesUnderscore2()
    ensures "__HOWSad" == "" + ['_'] + "_HOWSad"
  {
  }

  lemma PiecesUnderscore3()
    ensures "Condition___HOWSad" == "Condition" + ['_'] + "__HOWSad"
  {
  }

  lemma PiecesErrorCondition()
    ensures "ERRORCondition___HOWSad" == "ERROR" + "Condition___HOWSad"
  {
  }

  lemma PiecesTerribleError()
    ensures "TERRIBLE2ERRORCondition___HOWSad" == "TERRIBLE2" + "ERRORCondition___HOWSad"
  {
  }

  lemma PiecesSomeTerrible()
    ensures "some TERRIBLE2ERRORCondition___HOWSad" == "some" + [' '] + "TERRIBLE2ERRORCondition___HOWSad"
  {
  }

  lemma SplitTestString()
    ensures SplitStrip("test string", Delimiters, AlphanumericChars) == SplitStrip("test", Delimiters, AlphanumericChars) + SplitStrip("string", Delimiters, AlphanumericChars)
  {
    PiecesTestString();
    AtDelimiter("test", ' ', "string", "test string");
  }

  lemma SplitCapitalTestString()
    ensures SplitStrip("Test String", Delimiters, AlphanumericChars) == SplitStrip("Test", Delimiters, AlphanumericChars) + SplitStrip("String", Delimiters, AlphanumericChars)
  {
    PiecesCapitalTestString();
    AtDelimiter("Test", ' ', "String", "Test String");
  }

  lemma SplitTestV2()
    ensures SplitStrip("TestV2", Delimiters, AlphanumericChars) == SplitStrip("Test", Delimiters, AlphanumericChars) + SplitStrip("V2", Delimiters, AlphanumericChars)
  {
    PiecesTestV2();
    AtLowerUpper("Test", "V2", "TestV2");
  }

  lemma Split210()
    ensures SplitStrip("2.10", Delimiters, AlphanumericChars) == SplitStrip("2", Delimiters, AlphanumericChars) + SplitStrip("10", Delimiters, AlphanumericChars)
  {
    Pieces210();
    AtDelimiter("2", '.', "10", "2.10");
  }

  lemma Split1210()
    ensures SplitStrip("1.2.10", Delimiters, AlphanumericChars) == SplitStrip("1", Delimiters, AlphanumericChars) + SplitStrip("2.10", Delimiters, AlphanumericChars)
  {
    Pieces1210();
    AtDelimiter("1", '.', "2.10", "1.2.10");
  }

  lemma SplitVersion1210()
    ensures SplitStrip("version 1.2.10", Delimiters, AlphanumericChars) == SplitStrip("version", Delimiters, AlphanumericChars) + SplitStrip("1.2.10", Delimiters, AlphanumericChars)
  {
    PiecesVersion1210();
    AtDelimiter("version", ' ', "1.2.10", "version 1.2.10");
  }

  lemma Split210Zero()
    ensures SplitStrip("21.0", Delimiters, AlphanumericChars) == SplitStrip("21", Delimiters, AlphanumericChars) + SplitStrip("0", Delimiters, AlphanumericChars)
  {
    Pieces210Zero();
    AtDelimiter("21", '.', "0", "21.0");
  }

  lemma Split1210Zero()
    ensures SplitStrip("1.21.0", Delimiters, AlphanumericChars) == SplitStrip("1", Delimiters, AlphanumericChars) + SplitStrip("21.0", Delimiters, AlphanumericChars)
  {
    Pieces1210Zero();
    AtDelimiter("1", '.', "21.0", "1.21.0");
  }

  lemma SplitVersion1210Zero()
    ensures SplitStrip("version 1.21.0", Delimiters, AlphanumericChars) == SplitStrip("version", Delimiters, AlphanumericChars) + SplitStrip("1.21.0", Delimiters, AlphanumericChars)
  {
    PiecesVersion1210Zero();
    AtDelimiter("version", ' ', "1.21.0", "version 1.21.0");
  }

  lemma SplitHowSad()
    ensures SplitStrip("HOWSad", Delimiters, AlphanumericChars) == SplitStrip("HOW", Delimiters, AlphanumericChars) + SplitStrip("Sad", Delimiters, AlphanumericChars)
  {
    PiecesHowSad();
    AtAcronym("HOW", "Sad", "HOWSad");
  }

  lemma SplitUnderscore1()
    ensures SplitStrip("_HOWSad", Delimiters, AlphanumericChars) == SplitStrip("", Delimiters, AlphanumericChars) + SplitStrip("HOWSad", Delimiters, AlphanumericChars)
  {
    PiecesUnderscore1();
    AtDelimiter("", '_', "HOWSad", "_HOWSad");
  }

  lemma SplitUnderscore2()
    ensures SplitStrip("__HOWSad", Delimiters, AlphanumericChars) == SplitStrip("", Delimiters, AlphanumericChars) + SplitStrip("_HOWSad", Delimiters, AlphanumericChars)
  {
    PiecesUnderscore2();
    AtDelimiter("", '_', "_HOWSad", "__HOWSad");
  }

  lemma SplitUnderscore3()
    ensures SplitStrip("Condition___HOWSad", Delimiters, AlphanumericChars) == SplitStrip("Condition", Delimiters, AlphanumericChars) + SplitStrip("__HOWSad", Delimiters, AlphanumericChars)
  {
    PiecesUnderscore3();
    AtDelimiter("Condition", '_', "__HOWSad", "Condition___HOWSad");
  }

  lemma SplitErrorCondition()
    ensures SplitStrip("ERRORCondition___HOWSad", Delimiters, AlphanumericChars) == SplitStrip("ERROR", Delimiters, AlphanumericChars) + SplitStrip("Condition___HOWSad", Delimiters, AlphanumericChars)
  {
    PiecesErrorCondition();
    AtAcronym("ERROR", "Condition___HOWSad", "ERRORCondition___HOWSad");
  }

  lemma SplitTerribleError()
    ensures SplitStrip("TERRIBLE2ERRORCondition___HOWSad", Delimiters, AlphanumericChars) == SplitStrip("TERRIBLE2", Delimiters, AlphanumericChars) + SplitStrip("ERRORCondition___HOWSad", Delimiters, AlphanumericChars)
  {
    PiecesTerribleError();
    AtDigitLetter("TERRIBLE2", "ERRORCondition___HOWSad", "TERRIBLE2ERRORCondition___HOWSad");
  }

  lemma SplitSomeTerrible()
    ensures SplitStrip("some TERRIBLE2ERRORCondition___HOWSad", Delimiters, AlphanumericChars) == SplitStrip("some", Delimiters, AlphanumericChars) + SplitStrip("TERRIBLE2ERRORCondition___HOWSad", Delimiters, AlphanumericChars)
  {
    PiecesSomeTerrible();
    AtDelimiter("some", ' ', "TERRIBLE2ERRORCondition___HOWSad", "some TERRIBLE2ERRORCondition___HOWSad");
  }

  // ---------------------------------------------------------------------------------------
  // The words of the test strings
  // ---------------------------------------------------------------------------------------

  /** The list identities the compositions rely on, kept apart from the splitting facts. */
  lemma WordLists()
    ensures ["test"] + ["string"] == ["test", "string"]
    ensures ["Test"] + ["String"] == ["Test", "String"]
    ensures ["Test"] + ["V2"] == ["Test", "V2"]
    ensures ["2"] + ["10"] == ["2", "10"]
    ensures ["1"] + ["2", "10"] == ["1", "2", "10"]
    ensures ["version"] + ["1", "2", "10"] == ["version", "1", "2", "10"]
    ensures ["21"] + ["0"] == ["21", "0"]
    ensures ["1"] + ["21", "0"] == ["1", "21", "0"]
    ensures ["version"] + ["1", "21", "0"] == ["version", "1", "21", "0"]
    ensures ["HOW"] + ["Sad"] == ["HOW", "Sad"]
    ensures [] + ["HOW", "Sad"] == ["HOW", "Sad"]
    ensures [] + ["HOW", "Sad"] == ["HOW", "Sad"]
    ensures ["Condition"] + ["HOW", "Sad"] == ["Condition", "HOW", "Sad"]
    ensures ["ERROR"] + ["Condition", "HOW", "Sad"] == ["ERROR", "Condition", "HOW", "Sad"]
    ensures ["TERRIBLE2"] + ["ERROR", "Condition", "HOW", "Sad"] == ["TERRIBLE2", "ERROR", "Condition", "HOW", "Sad"]
    ensures ["some"] + ["TERRIBLE2", "ERROR", "Condition", "HOW", "Sad"] == ["some", "TERRIBLE2", "ERROR", "Condition", "HOW", "Sad"]
  {
  }

  lemma WordsOfTestString()
    ensures SplitStrip("test string", Delimiters, AlphanumericChars) == ["test", "string"]
  {
    WordLists();
    WordTest();
    WordString();
    SplitTestString();
  }

  lemma WordsOfCapitalTestString()
    ensures SplitStrip("Test String", Delimiters, AlphanumericChars) == ["Test", "String"]
  {
    WordLists();
    WordCapitalTest();
    WordCapitalString();
    SplitCapitalTestString();
  }

  lemma WordsOfTestV2()
    ensures SplitStrip("TestV2", Delimiters, AlphanumericChars) == ["Test", "V2"]
  {
    WordLists();
    WordCapitalTest();
    WordV2();
    SplitTestV2();
  }

  lemma WordsOf210()
    ensures SplitStrip("2.10", Delimiters, AlphanumericChars) == ["2", "10"]
  {
    WordLists();
    Word2();
    Word10();
    Split210();
  }

  lemma WordsOf1210()
    ensures SplitStrip("1.2.10", Delimiters, AlphanumericChars) == ["1", "2", "10"]
  {
    WordLists();
    Word1();
    WordsOf210();
    Split1210();
  }

  lemma WordsOfVersion1210()
    ensures SplitStrip("version 1.2.10", Delimiters, AlphanumericChars) == ["version", "1", "2", "10"]
  {
    WordLists();
    WordVersion();
    WordsOf1210();
    SplitVersion1210();
  }

  lemma WordsOf210Zero()
    ensures SplitStrip("21.0", Delimiters, AlphanumericChars) == ["21", "0"]
  {
    WordLists();
    Word21();
    Word0();
    Split210Zero();
  }

  lemma WordsOf1210Zero()
    ensures SplitStrip("1.21.0", Delimiters, AlphanumericChars) == ["1", "21", "0"]
  {
    WordLists();
    Word1();
    WordsOf210Zero();
    Split1210Zero();
  }

  lemma WordsOfVersion1210Zero()
    ensures SplitStrip("version 1.21.0", Delimiters, AlphanumericChars) == ["version", "1", "21", "0"]
  {
    WordLists();
    WordVersion();
    WordsOf1210Zero();
    SplitVersion1210Zero();
  }

  lemma WordsOfHowSad()
    ensures SplitStrip("HOWSad", Delimiters, AlphanumericChars) == ["HOW", "Sad"]
  {
    WordLists();
    WordHow();
    WordSad();
    SplitHowSad();
  }

  lemma WordsOfUnderscoreHowSad()
    ensures SplitStrip("_HOWSad", Delimiters, AlphanumericChars) == ["HOW", "Sad"]
  {
    WordLists();
    WordsOfEmpty();
    WordsOfHowSad();
    SplitUnderscore1();
  }

  lemma WordsOfUnderscoresHowSad()
    ensures SplitStrip("__HOWSad", Delimiters, AlphanumericChars) == ["HOW", "Sad"]
  {
    WordLists();
    WordsOfEmpty();
    WordsOfUnderscoreHowSad();
    SplitUnderscore2();
  }

  lemma WordsOfConditionHowSad()
    ensures SplitStrip("Condition___HOWSad", Delimiters, AlphanumericChars) == ["Condition", "HOW", "Sad"]
  {
    WordLists();
    WordCondition();
    WordsOfUnderscoresHowSad();
    SplitUnderscore3();
  }

  lemma WordsOfErrorCondition()
    ensures SplitStrip("ERRORCondition___HOWSad", Delimiters, AlphanumericChars) == ["ERROR", "Condition", "HOW", "Sad"]
  {
    WordLists();
    WordError();
    WordsOfConditionHowSad();
    SplitErrorCondition();
  }

  lemma WordsOfTerribleError()
    ensures SplitStrip("TERRIBLE2ERRORCondition___HOWSad", Delimiters, AlphanumericChars) == ["TERRIBLE2", "ERROR", "Condition", "HOW", "Sad"]
  {
    WordLists();
    WordTerrible2();
    WordsOfErrorCondition();
    SplitTerribleError();
  }

  lemma WordsOfTerribleCondition()
    ensures SplitStrip("some TERRIBLE2ERRORCondition___HOWSad", Delimiters, AlphanumericChars) == ["some", "TERRIBLE2", "ERROR", "Condition", "HOW", "Sad"]
  {
    WordLists();
    WordSome();
    WordsOfTerribleError();
    SplitSomeTerrible();
  }

  // ---------------------------------------------------------------------------------------
  // Rows of the convention tables of test.ts
  // ---------------------------------------------------------------------------------------

  lemma LowercaseBy(w: string, v: string)
    requires |w| == |v| && forall i :: 0 <= i < |w| ==> ToLower(w[i]) == v[i]
    ensures Lowercase(w) == v
  {
  }

  lemma UppercaseBy(w: string, v: string)
    requires |w| == |v| && forall i :: 0 <= i < |w| ==> ToUpper(w[i]) == v[i]
    ensures Uppercase(w) == v
  {
  }

  lemma CaseOfTestV2()
    ensures Lowercase("Test") == "test" && Lowercase("V2") == "v2"
    ensures Uppercase("Test") == "TEST" && Uppercase("V2") == "V2"
    ensures Capitalize("Test") == "Test" && Capitalize("V2") == "V2"
  {
    LowercaseBy("Test", "test");
    LowercaseBy("V2", "v2");
    UppercaseBy("Test", "TEST");
    UppercaseBy("V2", "V2");
    LowercaseBy("est", "est");
    LowercaseBy("2", "2");
  }

  lemma MapsOfTestV2()
    ensures MapToLowercase(["Test", "V2"]) == ["test", "v2"]
    ensures MapToUppercase(["Test", "V2"]) == ["TEST", "V2"]
    ensures MapToCapital(["Test", "V2"]) == ["Test", "V2"]
    ensures MapToSentence(["Test", "V2"]) == ["Test", "v2"]
    ensures MapToCamel(["Test", "V2"]) == ["test", "V2"]
    ensures MapToPascal(["Test", "V2"]) == ["Test", "V2"]
  {
    CaseOfTestV2();
  }

  lemma JoinsOfTestV2()
    ensures Interleave(["test", "v2"], "_") == "test_v2" && Interleave(["test", "v2"], "-") == "test-v2"
    ensures Interleave(["test", "v2"], ".") == "test.v2" && Interleave(["test", "v2"], "/") == "test/v2"
    ensures Interleave(["TEST", "V2"], "_") == "TEST_V2" && Interleave(["Test", "v2"], " ") == "Test v2"
    ensures Interleave(["Test", "V2"], "-") == "Test-V2" && Interleave(["Test", "V2"], " ") == "Test V2"
    ensures Concat(["test", "V2"]) == "testV2" && Concat(["Test", "V2"]) == "TestV2"
  {
    ConcatCons("test", ["V2"]);
    ConcatCons("V2", []);
    ConcatCons("Test", ["V2"]);
  }

  /** The row of "TestV2" in every table of test.ts. */
  lemma TableRowTestV2()
    ensures SnakeCase("TestV2", Delimiters) == "test_v2"
    ensures CamelCase("TestV2", Delimiters) == "testV2"
    ensures PascalCase("TestV2", Delimiters) == "TestV2"
    ensures ConstCase("TestV2", Delimiters) == "TEST_V2"
    ensures ParamCase("TestV2", Delimiters) == "test-v2"
    ensures DotCase("TestV2", Delimiters) == "test.v2"
    ensures SentenceCase("TestV2", Delimiters) == "Test v2"
    ensures HeaderCase("TestV2", Delimiters) == "Test-V2"
    ensures CapitalCase("TestV2", Delimiters) == "Test V2"
    ensures PathCase("TestV2", Delimiters) == "test/v2"
  {
    WordsOfTestV2();
    MapsOfTestV2();
    JoinsOfTestV2();
  }

  lemma CaseOfVersion1210()
    ensures Lowercase("version") == "version" && Lowercase("1") == "1" && Lowercase("2") == "2" && Lowercase("10") == "10"
    ensures Uppercase("version") == "VERSION" && Uppercase("1") == "1" && Uppercase("2") == "2" && Uppercase("10") == "10"
    ensures Capitalize("version") == "Version" && Capitalize("1") == "1" && Capitalize("2") == "2" && Capitalize("10") == "10"
  {
    LowercaseBy("version", "version");
    LowercaseBy("ersion", "ersion");
    LowercaseBy("0", "0");
    UppercaseBy("version", "VERSION");
    LowercaseBy("10", "10");
  }

  lemma PrefixOfVersion1210()
    ensures PrependIfStartsWithDigit("1", "_") == "_1" && PrependIfStartsWithDigit("2", "_") == "_2"
    ensures PrependIfStartsWithDigit("10", "_") == "_10"
  {
  }

  lemma MapsOfVersion1210()
    ensures MapToLowercase(["version", "1", "2", "10"]) == ["version", "1", "2", "10"]
    ensures MapToUppercase(["version", "1", "2", "10"]) == ["VERSION", "1", "2", "10"]
  {
    CaseOfVersion1210();
  }

  lemma CamelMapsOfVersion1210()
    ensures MapToCamel(["version", "1", "2", "10"]) == ["version", "_1", "_2", "_10"]
    ensures MapToPascal(["version", "1", "2", "10"]) == ["Version", "_1", "_2", "_10"]
  {
    CaseOfVersion1210();
    PrefixOfVersion1210();
  }

  lemma JoinsOfVersion1210()
    ensures Interleave(["version", "1", "2", "10"], "_") == "version_1_2_10"
    ensures Interleave(["VERSION", "1", "2", "10"], "_") == "VERSION_1_2_10"
    ensures Concat(["version", "_1", "_2", "_10"]) == "version_1_2_10"
    ensures Concat(["Version", "_1", "_2", "_10"]) == "Version_1_2_10"
  {
    ConcatCons("_10", []);
    ConcatCons("_2", ["_10"]);
    ConcatCons("_1", ["_2", "_10"]);
    ConcatCons("version", ["_1", "_2", "_10"]);
    ConcatCons("Version", ["_1", "_2", "_10"]);
  }

  /** The row of "version 1.2.10" in the snake, camel, pascal and constant tables of test.ts:
      a word that starts with a digit keeps its '_' in camel and pascal case. */
  lemma TableRowVersion1210()
    ensures SnakeCase("version 1.2.10", Delimiters) == "version_1_2_10"
    ensures CamelCase("version 1.2.10", Delimiters) == "version_1_2_10"
    ensures PascalCase("version 1.2.10", Delimiters) == "Version_1_2_10"
    ensures ConstCase("version 1.2.10", Delimiters) == "VERSION_1_2_10"
  {
    WordsOfVersion1210();
    MapsOfVersion1210();
    CamelMapsOfVersion1210();
    JoinsOfVersion1210();
  }
}
