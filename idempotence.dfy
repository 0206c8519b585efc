/** Converting a converted string again, for the types.ts conventions.

    The lower-case and upper-case conventions are fixed points on their own output when the
    input holds only letters, digits and delimiters and the separator is itself a delimiter.
    Outside those conditions a second conversion can change the string, and the lemmas at the
    end show inputs on which it does. */
module Idempotence {
  import opened Ascii
  import opened TokenRules
  import opened ChangeCaseTypes

  /** Every character of `s` is a letter, a digit or a delimiter. */
  predicate Clean(s: string, delims: set<char>) {
    forall i :: 0 <= i < |s| ==> IsAlnum(s[i]) || s[i] in delims
  }

  // ---------------------------------------------------------------------------------------
  // The shape of the tokens
  // ---------------------------------------------------------------------------------------

  /** A non-empty first token starts with the first character of the input. */
  lemma FirstTokenStarts(s: string, delims: set<char>)
    requires s != []
    ensures Tokens(s, delims, WithDigitRule)[0] != "" ==> Tokens(s, delims, WithDigitRule)[0][0] == s[0]
  {
  }

  /** Inside a token no digit is followed by a letter (the digit->letter rule would have ended
      the token there), and a token holds only characters of the input. */
  lemma {:induction false} TokensShape(s: string, delims: set<char>, chars: set<char>)
    requires OnlyChars(s, chars)
    ensures forall i :: 0 <= i < |Tokens(s, delims, WithDigitRule)| ==>
      OnlyChars(Tokens(s, delims, WithDigitRule)[i], chars) && NoDigitLetter(Tokens(s, delims, WithDigitRule)[i])
    decreases |s|
  {
    if s != [] {
      var rest := Tokens(s[1..], delims, WithDigitRule);
      assert OnlyChars(s[1..], chars) by {
        forall j | 0 <= j < |s[1..]| ensures s[1..][j] in chars {
          assert s[1..][j] == s[j + 1];
        }
      }
      TokensShape(s[1..], delims, chars);
      var r := Tokens(s, delims, WithDigitRule);
      assert s[0] in chars;
      match ActionAt(s, delims, WithDigitRule)
      case Close =>
        assert r == [[s[0]]] + rest;
        assert forall i :: 1 <= i < |r| ==> r[i] == rest[i - 1];
      case Drop =>
        assert r == [""] + rest;
        assert forall i :: 1 <= i < |r| ==> r[i] == rest[i - 1];
      case Keep =>
        assert r == PrependFirst([s[0]], rest);
        var t := r[0];
        assert t == [s[0]] + rest[0];
        assert OnlyChars(rest[0], chars) && NoDigitLetter(rest[0]);
        if |s| >= 2 {
          FirstTokenStarts(s[1..], delims);
          assert rest[0] != "" ==> rest[0][0] == s[1];
        } else {
          assert rest == [""];
        }
        assert OnlyChars(t, chars) by {
          forall j | 0 <= j < |t| ensures t[j] in chars {
            if j > 0 {
              assert t[j] == rest[0][j - 1];
            }
          }
        }
        assert NoDigitLetter(t) by {
          forall j | 0 <= j < |t| - 1 && IsDigit(t[j]) ensures !IsLetter(t[j + 1]) {
            if j > 0 {
              assert t[j] == rest[0][j - 1] && t[j + 1] == rest[0][j];
            } else {
              assert t[1] == rest[0][0] == s[1];
            }
          }
        }
        assert forall i :: 1 <= i < |r| ==> r[i] == rest[i];
    }
  }

  /** On a clean input the default words are whole tokens, so no digit inside a word is
      followed by a letter. */
  lemma WordsShape(s: string, delims: set<char>)
    requires NoAlnum(delims) && Clean(s, delims)
    ensures forall i :: 0 <= i < |SplitStrip(s, delims, AlphanumericChars)| ==>
      NoDigitLetter(SplitStrip(s, delims, AlphanumericChars)[i])
  {
    var t := Tokenize(s, delims);
    TokenizeIsTokens(s, delims);
    var p := AlphanumericChars + delims;
    assert OnlyChars(s, p) by {
      forall j | 0 <= j < |s| ensures s[j] in p {
        AlphanumericCharsAre(s[j]);
      }
    }
    TokensShape(s, delims, p);
    TokensFreeOfDelimiters(s, delims, WithDigitRule);
    forall i | 0 <= i < |t| ensures KeepChars(t[i], AlphanumericChars) == t[i] {
      assert OnlyChars(t[i], p) && FreeOf(t[i], delims);
      KeepCharsAll(t[i], AlphanumericChars);
    }
    assert MapToOnlyChars(t, AlphanumericChars) == t;
    var w := SplitStrip(s, delims, AlphanumericChars);
    assert w == WithoutEmpty(t);
    forall i | 0 <= i < |w| ensures NoDigitLetter(w[i]) {
      assert w[i] in t;
    }
  }

  // ---------------------------------------------------------------------------------------
  // Splitting a joined result again
  // ---------------------------------------------------------------------------------------

  /** A word of one case and digits with no digit followed by a letter: no rule fires. */
  lemma SingleCaseKeeps(t: string, delims: set<char>)
    requires NoAlnum(delims) && NoDigitLetter(t)
    requires OnlyChars(t, LowerOrDigit) || OnlyChars(t, UpperOrDigit)
    ensures AllKeep(t, delims, WithDigitRule)
  {
    forall i | 0 <= i < |t| ensures ActionAt(t[i..], delims, WithDigitRule) == Keep {
      var u := t[i..];
      assert u[0] == t[i] && t[i] in LowerOrDigit + UpperOrDigit;
      assert |u| >= 2 ==> u[1] == t[i + 1] && t[i + 1] in LowerOrDigit + UpperOrDigit;
      assert |u| >= 3 ==> u[2] == t[i + 2];
    }
  }

  /** A word, a delimiter and the rest: the word is split off whole. */
  lemma SplitStripWordThen(x: string, c: char, y: string, delims: set<char>)
    requires c in delims && NoAlnum(delims)
    requires x != "" && OnlyChars(x, AlphanumericChars) && AllKeep(x, delims, WithDigitRule)
    ensures SplitStrip(x + [c] + y, delims, AlphanumericChars) == [x] + SplitStrip(y, delims, AlphanumericChars)
  {
    TokenizeDelimiter(x, c, y, delims);
    SplitStripAppend(x, y, x + [c] + y, delims, AlphanumericChars);
    SplitStripWord(x, delims, AlphanumericChars);
  }

  /** Words joined by a delimiter split back into the same words. */
  lemma {:induction false} SplitStripJoined(q: seq<string>, delims: set<char>, c: char)
    requires c in delims && NoAlnum(delims)
    requires forall i :: 0 <= i < |q| ==>
      q[i] != "" && OnlyChars(q[i], AlphanumericChars) && AllKeep(q[i], delims, WithDigitRule)
    ensures SplitStrip(Interleave(q, [c]), delims, AlphanumericChars) == q
    decreases |q|
  {
    if |q| == 1 {
      SplitStripWord(q[0], delims, AlphanumericChars);
    } else if |q| > 1 {
      var y := Interleave(q[1..], [c]);
      assert Interleave(q, [c]) == q[0] + [c] + y;
      SplitStripWordThen(q[0], c, y, delims);
      SplitStripJoined(q[1..], delims, c);
      assert [q[0]] + q[1..] == q;
    }
  }

  /** The lower-cased words of a clean input, as `SplitStripLowerJoin` emits them. */
  lemma LowerWordsKeep(s: string, delims: set<char>)
    requires NoAlnum(delims) && Clean(s, delims)
    ensures var q := MapToLowercase(SplitStrip(s, delims, AlphanumericChars));
      forall i :: 0 <= i < |q| ==> q[i] != "" && OnlyChars(q[i], AlphanumericChars) && AllKeep(q[i], delims, WithDigitRule)
  {
    var w := SplitStrip(s, delims, AlphanumericChars);
    var q := MapToLowercase(w);
    SplitStripWords(s, delims);
    WordsShape(s, delims);
    LowercaseWords(w);
    forall i | 0 <= i < |q| ensures OnlyChars(q[i], AlphanumericChars) && AllKeep(q[i], delims, WithDigitRule) {
      assert OnlyChars(q[i], LowerOrDigit);
      assert NoDigitLetter(q[i]) by {
        assert NoDigitLetter(w[i]);
        forall j | 0 <= j < |q[i]| - 1 && IsDigit(q[i][j]) ensures !IsLetter(q[i][j + 1]) {
          assert q[i][j] == ToLower(w[i][j]) && q[i][j + 1] == ToLower(w[i][j + 1]);
        }
      }
      forall j | 0 <= j < |q[i]| ensures q[i][j] in AlphanumericChars {
        AlphanumericCharsAre(q[i][j]);
      }
      SingleCaseKeeps(q[i], delims);
    }
  }

  /** The upper-cased words of a clean input, as `ConstCase` emits them. */
  lemma UpperWordsKeep(s: string, delims: set<char>)
    requires NoAlnum(delims) && Clean(s, delims)
    ensures var q := MapToUppercase(SplitStrip(s, delims, AlphanumericChars));
      forall i :: 0 <= i < |q| ==> q[i] != "" && OnlyChars(q[i], AlphanumericChars) && AllKeep(q[i], delims, WithDigitRule)
  {
    var w := SplitStrip(s, delims, AlphanumericChars);
    var q := MapToUppercase(w);
    SplitStripWords(s, delims);
    WordsShape(s, delims);
    UppercaseWords(w);
    forall i | 0 <= i < |q| ensures OnlyChars(q[i], AlphanumericChars) && AllKeep(q[i], delims, WithDigitRule) {
      assert OnlyChars(q[i], UpperOrDigit);
      assert NoDigitLetter(q[i]) by {
        assert NoDigitLetter(w[i]);
        forall j | 0 <= j < |q[i]| - 1 && IsDigit(q[i][j]) ensures !IsLetter(q[i][j + 1]) {
          assert q[i][j] == ToUpper(w[i][j]) && q[i][j + 1] == ToUpper(w[i][j + 1]);
        }
      }
      forall j | 0 <= j < |q[i]| ensures q[i][j] in AlphanumericChars {
        AlphanumericCharsAre(q[i][j]);
      }
      SingleCaseKeeps(q[i], delims);
    }
  }

  // ---------------------------------------------------------------------------------------
  // Fixed points
  // ---------------------------------------------------------------------------------------

  /** Lower-case joining by a delimiter is idempotent on clean inputs. */
  lemma LowerJoinIdempotent(s: string, delims: set<char>, c: char)
    requires c in delims && NoAlnum(delims) && Clean(s, delims)
    ensures SplitStripLowerJoin(SplitStripLowerJoin(s, delims, [c]), delims, [c]) == SplitStripLowerJoin(s, delims, [c])
  {
    var q := MapToLowercase(SplitStrip(s, delims, AlphanumericChars));
    LowerWordsKeep(s, delims);
    SplitStripJoined(q, delims, c);
    assert MapToLowercase(q) == q by {
      forall i | 0 <= i < |q| ensures Lowercase(q[i]) == q[i] {
        LowercaseIdempotent(SplitStrip(s, delims, AlphanumericChars)[i]);
      }
    }
  }

  lemma SnakeCaseIdempotent(s: string)
    requires Clean(s, Delimiters)
    ensures SnakeCase(SnakeCase(s, Delimiters), Delimiters) == SnakeCase(s, Delimiters)
  {
    LowerJoinIdempotent(s, Delimiters, '_');
  }

  lemma ParamCaseIdempotent(s: string)
    requires Clean(s, Delimiters)
    ensures ParamCase(ParamCase(s, Delimiters), Delimiters) == ParamCase(s, Delimiters)
  {
    LowerJoinIdempotent(s, Delimiters, '-');
  }

  lemma DotCaseIdempotent(s: string)
    requires Clean(s, Delimiters)
    ensures DotCase(DotCase(s, Delimiters), Delimiters) == DotCase(s, Delimiters)
  {
    LowerJoinIdempotent(s, Delimiters, '.');
  }

  /** Constant case is idempotent on clean inputs. */
  lemma ConstCaseIdempotent(s: string)
    requires Clean(s, Delimiters)
    ensures ConstCase(ConstCase(s, Delimiters), Delimiters) == ConstCase(s, Delimiters)
  {
    var q := MapToUppercase(SplitStrip(s, Delimiters, AlphanumericChars));
    UpperWordsKeep(s, Delimiters);
    SplitStripJoined(q, Delimiters, '_');
    assert MapToUppercase(q) == q by {
      forall i | 0 <= i < |q| ensures Uppercase(q[i]) == q[i] {
        UppercaseIdempotent(SplitStrip(s, Delimiters, AlphanumericChars)[i]);
      }
    }
  }
}
