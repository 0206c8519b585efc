/** The older variant of the conventions in index.ts, as its own module.

    `CapitalCase`, `Without`/`WithoutEmpty`, `PrependIfStartsWithDigit`, `_Join`/`Join` and
    the maps `MapToLowercase`, `MapToUppercase`, `MapToCapital`, `MapToSentence` and
    `MapToPascal` are the same text in index.ts as in types.ts and are used from
    `ChangeCaseTypes`. What index.ts does on its own is modelled here: `KeepChars` over the
    characters of the string, `MapToCamel` without a digit prefix, the tokenizer `_CamelSplit`
    (no digit->letter rule) and the `To*` conventions built on them. */
module ChangeCaseLegacy {
  import opened Ascii
  import opened TokenRules
  import T = ChangeCaseTypes

  // ---------------------------------------------------------------------------------------
  // KeepChars (index.ts:46-53)
  // ---------------------------------------------------------------------------------------

  /** `KeepChars<S, C, A>`: appends to `a` each character of `s` that is in `chars`. */
  function KeepCharsFrom(s: string, chars: set<char>, a: string): (r: string)
    ensures |a| <= |r| <= |a| + |s| && r[..|a|] == a
    ensures forall i :: |a| <= i < |r| ==> r[i] in chars
    decreases |s|
  {
    if s == [] then a
    else if s[0] in chars then KeepCharsFrom(s[1..], chars, a + [s[0]])
    else KeepCharsFrom(s[1..], chars, a)
  }

  lemma {:induction false} KeepCharsFromIsFilter(s: string, chars: set<char>, a: string)
    ensures KeepCharsFrom(s, chars, a) == a + T.KeepChars(s, chars)
    decreases |s|
  {
    if s == [] {
      assert T.KeepChars("", chars) == "";
      assert a + "" == a;
    } else {
      assert s == [s[0]] + s[1..];
      T.KeepCharsCons(s[0], s[1..], chars);
      if s[0] in chars {
        KeepCharsFromIsFilter(s[1..], chars, a + [s[0]]);
        assert (a + [s[0]]) + T.KeepChars(s[1..], chars) == a + ([s[0]] + T.KeepChars(s[1..], chars));
      } else {
        KeepCharsFromIsFilter(s[1..], chars, a);
        assert [] + T.KeepChars(s[1..], chars) == T.KeepChars(s[1..], chars);
      }
    }
  }

  /** `KeepChars<S, C>`: the string-level accumulator keeps the same characters as the
      piece-level one of types.ts, so it is the order-preserving filter of `chars`. */
  function KeepChars(s: string, chars: set<char>): (r: string)
    ensures r == T.KeepChars(s, chars)
  {
    KeepCharsFromIsFilter(s, chars, "");
    assert "" + T.KeepChars(s, chars) == T.KeepChars(s, chars);
    KeepCharsFrom(s, chars, "")
  }

  /** `MapToOnlyChars<T, C>` over this file's `KeepChars`. */
  function MapToOnlyChars(t: seq<string>, chars: set<char>): (r: seq<string>)
    ensures r == T.MapToOnlyChars(t, chars)
  {
    seq(|t|, i requires 0 <= i < |t| => KeepChars(t[i], chars))
  }

  // ---------------------------------------------------------------------------------------
  // MapToCamel (index.ts:66)
  // ---------------------------------------------------------------------------------------

  /** Token 0 lower-cased, every later token capitalized; there is no '_' before a token that
      starts with a digit. */
  function MapToCamel(t: seq<string>): (r: seq<string>)
    ensures |r| == |t|
    ensures |t| > 0 ==> r[0] == Lowercase(t[0])
    ensures forall i :: 1 <= i < |t| ==> r[i] == T.Capitalize(t[i])
  {
    seq(|t|, i requires 0 <= i < |t| => if i == 0 then Lowercase(t[i]) else T.Capitalize(t[i]))
  }

  predicate StartsWithDigit(t: string) {
    |t| > 0 && IsDigit(t[0])
  }

  /** The two camel maps differ exactly when a later token starts with a digit. */
  lemma CamelMapsAgree(t: seq<string>)
    ensures MapToCamel(t) == T.MapToCamel(t) <==> forall i :: 1 <= i < |t| ==> !StartsWithDigit(t[i])
  {
    if forall i :: 1 <= i < |t| ==> !StartsWithDigit(t[i]) {
      forall i | 1 <= i < |t| ensures MapToCamel(t)[i] == T.MapToCamel(t)[i] {
        assert !StartsWithDigit(T.Capitalize(t[i])) by {
          if t[i] != [] {
            assert T.Capitalize(t[i])[0] == ToUpper(t[i][0]);
          }
        }
      }
    } else {
      var i :| 1 <= i < |t| && StartsWithDigit(t[i]);
      assert T.Capitalize(t[i])[0] == ToUpper(t[i][0]);
      assert |T.MapToCamel(t)[i]| == |MapToCamel(t)[i]| + 1;
    }
  }

  // ---------------------------------------------------------------------------------------
  // _CamelSplit (index.ts:72-88)
  // ---------------------------------------------------------------------------------------

  /** `_CamelSplit<S, D, Acc, Tokens>` with its four cases in the source's order: lower->UPPER,
      UPPER,UPPER,lower, delimiter, otherwise extend the accumulator. At the end of the input
      the accumulator is always flushed. */
  function CamelSplitFrom(s: string, delims: set<char>, acc: string, tokens: seq<string>): (r: seq<string>)
    ensures |r| >= |tokens| + 1 && r[..|tokens|] == tokens
    decreases |s|
  {
    if s == [] then tokens + [acc]
    else if |s| >= 2 && IsLower(s[0]) && IsUpper(s[1]) then
      CamelSplitFrom(s[1..], delims, "", tokens + [acc + [s[0]]])
    else if |s| >= 3 && IsUpper(s[0]) && IsUpper(s[1]) && IsLower(s[2]) then
      CamelSplitFrom(s[1..], delims, "", tokens + [acc + [s[0]]])
    else if s[0] in delims then
      CamelSplitFrom(s[1..], delims, "", tokens + [acc])
    else
      CamelSplitFrom(s[1..], delims, acc + [s[0]], tokens)
  }

  /** `_CamelSplit<S, D>`. */
  function CamelSplit(s: string, delims: set<char>): (r: seq<string>)
    ensures |r| >= 1
  {
    CamelSplitFrom(s, delims, "", [])
  }

  /** A position that closes the token: the accumulator and the character end it. */
  lemma CloseStep(s: string, delims: set<char>, acc: string, tokens: seq<string>)
    requires s != [] && ActionAt(s, delims, WithoutDigitRule) == Close
    requires CamelSplitFrom(s[1..], delims, "", tokens + [acc + [s[0]]])
      == (tokens + [acc + [s[0]]]) + PrependFirst("", Tokens(s[1..], delims, WithoutDigitRule))
    ensures CamelSplitFrom(s, delims, acc, tokens) == tokens + PrependFirst(acc, Tokens(s, delims, WithoutDigitRule))
  {
    var rest := Tokens(s[1..], delims, WithoutDigitRule);
    PrependFirstLaws(acc, "", [s[0]], rest);
    assert (tokens + [acc + [s[0]]]) + rest == tokens + ([acc + [s[0]]] + rest);
  }

  /** A delimiter: the accumulator ends the token and the character is dropped. */
  lemma DropStep(s: string, delims: set<char>, acc: string, tokens: seq<string>)
    requires s != [] && ActionAt(s, delims, WithoutDigitRule) == Drop
    requires CamelSplitFrom(s[1..], delims, "", tokens + [acc])
      == (tokens + [acc]) + PrependFirst("", Tokens(s[1..], delims, WithoutDigitRule))
    ensures CamelSplitFrom(s, delims, acc, tokens) == tokens + PrependFirst(acc, Tokens(s, delims, WithoutDigitRule))
  {
    var rest := Tokens(s[1..], delims, WithoutDigitRule);
    calc {
      CamelSplitFrom(s, delims, acc, tokens);
      { assert s[0] in delims; }
      CamelSplitFrom(s[1..], delims, "", tokens + [acc]);
      { PrependFirstLaws(acc, "", "", rest); }
      (tokens + [acc]) + rest;
      tokens + ([acc] + rest);
      { PrependFirstLaws(acc, "", "", rest); assert acc + "" == acc; }
      tokens + PrependFirst(acc, [""] + rest);
      { assert Tokens(s, delims, WithoutDigitRule) == [""] + rest; }
      tokens + PrependFirst(acc, Tokens(s, delims, WithoutDigitRule));
    }
  }

  /** Any other character extends the accumulator. */
  lemma KeepStep(s: string, delims: set<char>, acc: string, tokens: seq<string>)
    requires s != [] && ActionAt(s, delims, WithoutDigitRule) == Keep
    requires CamelSplitFrom(s[1..], delims, acc + [s[0]], tokens)
      == tokens + PrependFirst(acc + [s[0]], Tokens(s[1..], delims, WithoutDigitRule))
    ensures CamelSplitFrom(s, delims, acc, tokens) == tokens + PrependFirst(acc, Tokens(s, delims, WithoutDigitRule))
  {
    PrependFirstLaws(acc, [s[0]], "", Tokens(s[1..], delims, WithoutDigitRule));
  }

  /** The accumulator form computes the reference scanner without the digit->letter rule. */
  lemma {:induction false} CamelSplitFromIsTokens(s: string, delims: set<char>, acc: string, tokens: seq<string>)
    ensures CamelSplitFrom(s, delims, acc, tokens) == tokens + PrependFirst(acc, Tokens(s, delims, WithoutDigitRule))
    decreases |s|
  {
    if s == [] {
      assert acc + "" == acc;
    } else {
      match ActionAt(s, delims, WithoutDigitRule)
      case Close =>
        CamelSplitFromIsTokens(s[1..], delims, "", tokens + [acc + [s[0]]]);
        CloseStep(s, delims, acc, tokens);
      case Drop =>
        CamelSplitFromIsTokens(s[1..], delims, "", tokens + [acc]);
        DropStep(s, delims, acc, tokens);
      case Keep =>
        CamelSplitFromIsTokens(s[1..], delims, acc + [s[0]], tokens);
        KeepStep(s, delims, acc, tokens);
    }
  }

  lemma CamelSplitIsTokens(s: string, delims: set<char>)
    ensures CamelSplit(s, delims) == Tokens(s, delims, WithoutDigitRule)
  {
    CamelSplitFromIsTokens(s, delims, "", []);
    PrependFirstLaws("", "", "", Tokens(s, delims, WithoutDigitRule));
  }

  /** The final accumulator is always flushed: the empty input gives one empty token. */
  lemma CamelSplitEmpty(delims: set<char>)
    ensures CamelSplit("", delims) == [""]
  {
  }

  /** "camelCase": a lower-case character followed by an upper-case one ends its token. */
  lemma CamelSplitLowerUpper(x: string, y: string, delims: set<char>)
    requires |x| >= 1 && |y| >= 1
    requires IsLower(x[|x| - 1]) && IsUpper(y[0]) && x[|x| - 1] !in delims
    ensures CamelSplit(x + y, delims) == CamelSplit(x, delims) + CamelSplit(y, delims)
  {
    CamelSplitIsTokens(x + y, delims);
    CamelSplitIsTokens(x, delims);
    CamelSplitIsTokens(y, delims);
    LowerUpperSplits(x, y, delims, WithoutDigitRule);
  }

  /** "CAMELCase": in UPPER,UPPER,lower the first capital ends its token. */
  lemma CamelSplitAcronym(x: string, y: string, delims: set<char>)
    requires |x| >= 1 && |y| >= 2
    requires IsUpper(x[|x| - 1]) && IsUpper(y[0]) && IsLower(y[1]) && x[|x| - 1] !in delims
    ensures CamelSplit(x + y, delims) == CamelSplit(x, delims) + CamelSplit(y, delims)
  {
    CamelSplitIsTokens(x + y, delims);
    CamelSplitIsTokens(x, delims);
    CamelSplitIsTokens(y, delims);
    AcronymSplits(x, y, delims, WithoutDigitRule);
  }

  /** "camel_case": a delimiter is consumed and closes the current token, even an empty one. */
  lemma CamelSplitDelimiter(x: string, c: char, y: string, delims: set<char>)
    requires c in delims && !IsAlnum(c)
    ensures CamelSplit(x + [c] + y, delims) == CamelSplit(x, delims) + CamelSplit(y, delims)
  {
    CamelSplitIsTokens(x + [c] + y, delims);
    CamelSplitIsTokens(x, delims);
    CamelSplitIsTokens(y, delims);
    DelimiterSplits(x, c, y, delims, WithoutDigitRule);
  }

  /** Capitals and digits in any order stay together: with no lower-case letter there is no
      split at all. */
  lemma CamelSplitNoLower(w: string, delims: set<char>)
    requires forall i :: 0 <= i < |w| ==> (IsUpper(w[i]) || IsDigit(w[i])) && w[i] !in delims
    ensures CamelSplit(w, delims) == [w]
  {
    CamelSplitIsTokens(w, delims);
    NoLowerKeeps(w, delims);
    AllKeepSingleToken(w, delims, WithoutDigitRule);
  }

  /** Character conservation: no token contains a delimiter, and the tokens put together are
      the input without its delimiters. */
  lemma CamelSplitConservesCharacters(s: string, delims: set<char>)
    requires NoAlnum(delims)
    ensures Concat(CamelSplit(s, delims)) == RemoveChars(s, delims)
    ensures forall i :: 0 <= i < |CamelSplit(s, delims)| ==> FreeOf(CamelSplit(s, delims)[i], delims)
  {
    CamelSplitIsTokens(s, delims);
    TokensConcat(s, delims, WithoutDigitRule);
    TokensFreeOfDelimiters(s, delims, WithoutDigitRule);
  }

  /** The two tokenizers agree on every input in which no digit is followed by a letter. */
  lemma CamelSplitAgrees(s: string, delims: set<char>)
    requires NoDigitLetter(s)
    ensures CamelSplit(s, delims) == T.Tokenize(s, delims)
  {
    CamelSplitIsTokens(s, delims);
    T.TokenizeIsTokens(s, delims);
    RuleSetsAgree(s, delims);
  }

  // ---------------------------------------------------------------------------------------
  // SplitStrip (index.ts:90)
  // ---------------------------------------------------------------------------------------

  /** `SplitStrip<S, D, C>` over `_CamelSplit`: non-empty tokens of characters of `chars`. */
  function SplitStrip(s: string, delims: set<char>, chars: set<char>): (r: seq<string>)
    ensures forall i :: 0 <= i < |r| ==> r[i] != "" && T.OnlyChars(r[i], chars)
    ensures s == [] ==> r == []
  {
    var t := CamelSplit(s, delims);
    if s == [] then
      CamelSplitEmpty(delims);
      assert T.KeepChars("", chars) == "";
      assert T.MapToOnlyChars(t, chars) == [""];
      T.WithoutCons("", "", []);
      T.WithoutEmpty(MapToOnlyChars(t, chars))
    else
      T.WithoutEmpty(MapToOnlyChars(t, chars))
  }

  /** Character conservation through stripping: the words put together are exactly the
      characters of `chars` in the input, in order. */
  lemma SplitStripConcat(s: string, delims: set<char>, chars: set<char>)
    requires NoAlnum(delims) && chars * delims == {}
    ensures Concat(SplitStrip(s, delims, chars)) == KeepChars(s, chars)
  {
    CamelSplitConservesCharacters(s, delims);
    T.StripConcat(CamelSplit(s, delims), s, delims, chars);
  }

  /** Where the tokenizers agree, so do the words. */
  lemma SplitStripAgrees(s: string, delims: set<char>, chars: set<char>)
    requires NoDigitLetter(s)
    ensures SplitStrip(s, delims, chars) == T.SplitStrip(s, delims, chars)
  {
    CamelSplitAgrees(s, delims);
  }

  /** Case rules and delimiters split the input into parts that are stripped independently. */
  lemma SplitStripAppend(x: string, y: string, z: string, delims: set<char>, chars: set<char>)
    requires CamelSplit(z, delims) == CamelSplit(x, delims) + CamelSplit(y, delims)
    ensures SplitStrip(z, delims, chars) == SplitStrip(x, delims, chars) + SplitStrip(y, delims, chars)
  {
    T.StripAppend(CamelSplit(x, delims), CamelSplit(y, delims), chars);
  }

  /** A word in which no rule fires and every character is kept is its own single word. */
  lemma SplitStripWord(w: string, delims: set<char>, chars: set<char>)
    requires w != [] && AllKeep(w, delims, WithoutDigitRule) && T.OnlyChars(w, chars)
    ensures SplitStrip(w, delims, chars) == [w]
  {
    CamelSplitIsTokens(w, delims);
    AllKeepSingleToken(w, delims, WithoutDigitRule);
    T.KeepCharsAll(w, chars);
    assert T.MapToOnlyChars([w], chars) == [w];
    T.WithoutCons("", w, []);
  }

  /** The default `SplitStrip` yields words holding every letter and digit of the input. */
  lemma SplitStripWords(s: string, delims: set<char>)
    ensures T.Words(SplitStrip(s, delims, AlphanumericChars))
    ensures NoAlnum(delims) ==> Concat(SplitStrip(s, delims, AlphanumericChars)) == KeepChars(s, AlphanumericChars)
  {
    if NoAlnum(delims) {
      assert AlphanumericChars * delims == {} by {
        forall c | c in AlphanumericChars * delims ensures false {
          AlphanumericCharsAre(c);
        }
      }
      SplitStripConcat(s, delims, AlphanumericChars);
    }
  }

  // ---------------------------------------------------------------------------------------
  // The conventions (index.ts:101-116)
  // ---------------------------------------------------------------------------------------

  /** `SplitStripLowerJoin<S, D, J>`: the lower-cased words with `sep` between them. */
  function SplitStripLowerJoin(s: string, delims: set<char>, sep: string): (r: string)
    ensures r == T.Interleave(T.MapToLowercase(SplitStrip(s, delims, AlphanumericChars)), sep)
    ensures T.OnlyChars(r, T.LowerOrDigit + T.CharsOf(sep))
    ensures NoAlnum(delims) && NoAlnum(T.CharsOf(sep)) ==>
      KeepChars(r, AlphanumericChars) == Lowercase(KeepChars(s, AlphanumericChars))
  {
    var w := SplitStrip(s, delims, AlphanumericChars);
    SplitStripWords(s, delims);
    T.LowerJoinWords(w, sep);
    T.Join(T.MapToLowercase(w), sep)
  }

  /** `SplitStripCapitalJoin<S, D, J>`: the capitalized words with `sep` between them; apart
      from case it is the lower-case join. */
  function SplitStripCapitalJoin(s: string, delims: set<char>, sep: string): (r: string)
    ensures r == T.Interleave(T.MapToCapital(SplitStrip(s, delims, AlphanumericChars)), sep)
    ensures T.OnlyChars(r, AlphanumericChars + T.CharsOf(sep))
    ensures Lowercase(r) == SplitStripLowerJoin(s, delims, Lowercase(sep))
    ensures NoAlnum(delims) && NoAlnum(T.CharsOf(sep)) ==>
      Lowercase(KeepChars(r, AlphanumericChars)) == Lowercase(KeepChars(s, AlphanumericChars))
  {
    var w := SplitStrip(s, delims, AlphanumericChars);
    SplitStripWords(s, delims);
    T.CapitalJoinWords(w, sep);
    T.LowerJoinWords(w, Lowercase(sep));
    var r := T.Join(T.MapToCapital(w), sep);
    T.KeepAlnumLowercase(r);
    T.LowercaseNoAlnum(sep);
    r
  }

  /** `ToCapital`: capitalized words joined by ' '. */
  function ToCapital(s: string, delims: set<char>): (r: string)
    ensures r == T.Interleave(T.MapToCapital(SplitStrip(s, delims, AlphanumericChars)), " ")
    ensures T.OnlyChars(r, AlphanumericChars + {' '})
    ensures Lowercase(r) == SplitStripLowerJoin(s, delims, " ")
    ensures NoAlnum(delims) ==> Lowercase(KeepChars(r, AlphanumericChars)) == Lowercase(KeepChars(s, AlphanumericChars))
  {
    T.SeparatorFacts();
    SplitStripCapitalJoin(s, delims, " ")
  }

  /** `ToHeader`: capitalized words joined by '-'; lower-cased it is `ToParam`. */
  function ToHeader(s: string, delims: set<char>): (r: string)
    ensures r == T.Interleave(T.MapToCapital(SplitStrip(s, delims, AlphanumericChars)), "-")
    ensures T.OnlyChars(r, AlphanumericChars + {'-'})
    ensures Lowercase(r) == ToParam(s, delims)
    ensures NoAlnum(delims) ==> Lowercase(KeepChars(r, AlphanumericChars)) == Lowercase(KeepChars(s, AlphanumericChars))
  {
    T.SeparatorFacts();
    SplitStripCapitalJoin(s, delims, "-")
  }

  /** `ToParam`: lower-case words joined by '-'. */
  function ToParam(s: string, delims: set<char>): (r: string)
    ensures r == T.Interleave(T.MapToLowercase(SplitStrip(s, delims, AlphanumericChars)), "-")
    ensures T.OnlyChars(r, T.LowerOrDigit + {'-'})
    ensures NoAlnum(delims) ==> KeepChars(r, AlphanumericChars) == Lowercase(KeepChars(s, AlphanumericChars))
  {
    T.SeparatorFacts();
    SplitStripLowerJoin(s, delims, "-")
  }

  /** `ToDot`: lower-case words joined by '.'. */
  function ToDot(s: string, delims: set<char>): (r: string)
    ensures r == T.Interleave(T.MapToLowercase(SplitStrip(s, delims, AlphanumericChars)), ".")
    ensures T.OnlyChars(r, T.LowerOrDigit + {'.'})
    ensures NoAlnum(delims) ==> KeepChars(r, AlphanumericChars) == Lowercase(KeepChars(s, AlphanumericChars))
  {
    T.SeparatorFacts();
    SplitStripLowerJoin(s, delims, ".")
  }

  /** `ToSnake`: lower-case words joined by '_'. */
  function ToSnake(s: string, delims: set<char>): (r: string)
    ensures r == T.Interleave(T.MapToLowercase(SplitStrip(s, delims, AlphanumericChars)), "_")
    ensures T.OnlyChars(r, T.LowerOrDigit + {'_'})
    ensures NoAlnum(delims) ==> KeepChars(r, AlphanumericChars) == Lowercase(KeepChars(s, AlphanumericChars))
  {
    T.SeparatorFacts();
    SplitStripLowerJoin(s, delims, "_")
  }

  /** `ToPath`: lower-case words joined by '/'. */
  function ToPath(s: string, delims: set<char>): (r: string)
    ensures r == T.Interleave(T.MapToLowercase(SplitStrip(s, delims, AlphanumericChars)), "/")
    ensures T.OnlyChars(r, T.LowerOrDigit + {'/'})
    ensures NoAlnum(delims) ==> KeepChars(r, AlphanumericChars) == Lowercase(KeepChars(s, AlphanumericChars))
  {
    T.SeparatorFacts();
    SplitStripLowerJoin(s, delims, "/")
  }

  /** `ToPascal`: the words run together, each capitalized, every later one marked with '_'
      when it starts with a digit. */
  function ToPascal(s: string, delims: set<char>): (r: string)
    ensures r == Concat(T.MapToPascal(SplitStrip(s, delims, AlphanumericChars)))
    ensures T.OnlyChars(r, AlphanumericChars + {'_'})
    ensures T.UnderscoresBeforeDigits(r)
    ensures |r| > 0 ==> !IsLower(r[0])
    ensures NoAlnum(delims) ==> Lowercase(KeepChars(r, AlphanumericChars)) == Lowercase(KeepChars(s, AlphanumericChars))
  {
    var w := SplitStrip(s, delims, AlphanumericChars);
    SplitStripWords(s, delims);
    T.PascalJoinWords(w);
    T.Join(T.MapToPascal(w), "")
  }

  /** Camel joining without digit marks: plain concatenation of letters and digits, no capital
      first character, and the letters and digits of the words apart from case. */
  lemma CamelJoinWords(w: seq<string>)
    requires T.Words(w)
    ensures T.Join(MapToCamel(w), "") == Concat(MapToCamel(w))
    ensures T.OnlyChars(Concat(MapToCamel(w)), AlphanumericChars)
    ensures |Concat(MapToCamel(w))| > 0 ==> !IsUpper(Concat(MapToCamel(w))[0])
    ensures Lowercase(Concat(MapToCamel(w))) == Lowercase(Concat(w))
  {
    var q := MapToCamel(w);
    T.JoinEmptySeparator(q);
    T.CapitalWords(w);
    forall i | 0 <= i < |q| ensures T.OnlyChars(q[i], AlphanumericChars) {
      forall j | 0 <= j < |q[i]| ensures q[i][j] in AlphanumericChars {
        AlphanumericCharsAre(w[i][j]);
        if i > 0 {
          assert q[i] == T.MapToCapital(w)[i];
        }
      }
    }
    T.ConcatOnlyChars(q, AlphanumericChars);
    assert T.MapToLowercase(q) == T.MapToLowercase(w) by {
      forall i | 0 <= i < |q| ensures T.MapToLowercase(q)[i] == T.MapToLowercase(w)[i] {
        if i == 0 {
          LowercaseIdempotent(w[0]);
        }
      }
    }
    T.LowercaseConcat(q);
    T.LowercaseConcat(w);
    if |w| > 0 {
      assert q[0] != "";
      assert Concat(q) == q[0] + Concat(q[1..]);
      assert Concat(q)[0] == Lowercase(w[0])[0];
    }
  }

  /** `ToCamel`: the words run together, the first lower-cased and every later one capitalized,
      with no '_' at all: only letters and digits remain. */
  function ToCamel(s: string, delims: set<char>): (r: string)
    ensures r == Concat(MapToCamel(SplitStrip(s, delims, AlphanumericChars)))
    ensures T.OnlyChars(r, AlphanumericChars)
    ensures |r| > 0 ==> !IsUpper(r[0])
    ensures NoAlnum(delims) ==> Lowercase(r) == Lowercase(KeepChars(s, AlphanumericChars))
  {
    var w := SplitStrip(s, delims, AlphanumericChars);
    SplitStripWords(s, delims);
    CamelJoinWords(w);
    T.Join(MapToCamel(w), "")
  }

  /** `ToSentence`: the first word capitalized, the others lower-cased, joined by ' '. */
  function ToSentence(s: string, delims: set<char>): (r: string)
    ensures r == T.Interleave(T.MapToSentence(SplitStrip(s, delims, AlphanumericChars)), " ")
    ensures forall i :: 1 <= i < |r| ==> !IsUpper(r[i])
    ensures Lowercase(r) == SplitStripLowerJoin(s, delims, " ")
    ensures NoAlnum(delims) ==> Lowercase(KeepChars(r, AlphanumericChars)) == Lowercase(KeepChars(s, AlphanumericChars))
  {
    var w := SplitStrip(s, delims, AlphanumericChars);
    SplitStripWords(s, delims);
    T.SeparatorFacts();
    T.SentenceJoinWords(w, " ");
    var r := T.Join(T.MapToSentence(w), " ");
    T.KeepAlnumLowercase(r);
    r
  }

  /** `ToConst`: upper-case words joined by '_'; lower-cased it is `ToSnake`. */
  function ToConst(s: string, delims: set<char>): (r: string)
    ensures r == T.Interleave(T.MapToUppercase(SplitStrip(s, delims, AlphanumericChars)), "_")
    ensures T.OnlyChars(r, T.UpperOrDigit + {'_'})
    ensures Lowercase(r) == ToSnake(s, delims)
    ensures NoAlnum(delims) ==> KeepChars(r, AlphanumericChars) == Uppercase(KeepChars(s, AlphanumericChars))
  {
    var w := SplitStrip(s, delims, AlphanumericChars);
    SplitStripWords(s, delims);
    T.SeparatorFacts();
    T.UpperJoinWords(w, "_");
    T.Join(T.MapToUppercase(w), "_")
  }

  // ---------------------------------------------------------------------------------------
  // Where the two variants meet
  // ---------------------------------------------------------------------------------------

  /** On an input in which no digit is followed by a letter, every convention except camel
      case gives what its types.ts counterpart gives. */
  lemma ConventionsAgree(s: string, delims: set<char>)
    requires NoDigitLetter(s)
    ensures ToSnake(s, delims) == T.SnakeCase(s, delims) && ToParam(s, delims) == T.ParamCase(s, delims)
    ensures ToDot(s, delims) == T.DotCase(s, delims) && ToPath(s, delims) == T.PathCase(s, delims)
    ensures ToCapital(s, delims) == T.CapitalCase(s, delims) && ToHeader(s, delims) == T.HeaderCase(s, delims)
    ensures ToConst(s, delims) == T.ConstCase(s, delims) && ToSentence(s, delims) == T.SentenceCase(s, delims)
    ensures ToPascal(s, delims) == T.PascalCase(s, delims)
  {
    SplitStripAgrees(s, delims, AlphanumericChars);
  }

  /** Camel case agrees too, exactly when no later word starts with a digit. */
  lemma CamelAgrees(s: string, delims: set<char>)
    requires NoDigitLetter(s)
    ensures var w := T.SplitStrip(s, delims, AlphanumericChars);
      (forall i :: 1 <= i < |w| ==> !StartsWithDigit(w[i])) ==> ToCamel(s, delims) == T.CamelCase(s, delims)
  {
    SplitStripAgrees(s, delims, AlphanumericChars);
    CamelMapsAgree(T.SplitStrip(s, delims, AlphanumericChars));
  }
}
