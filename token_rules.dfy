/** A reference description of the two tokenizers, one character at a time.

    Both `_Tokenize` (types.ts) and `_CamelSplit` (index.ts) visit every input position exactly
    once: a split rule consumes only the first character of its window and hands the rest back.
    What happens at a position depends only on the (at most three) characters starting there,
    so the token list can be described without accumulators: `ActionAt` classifies a position,
    and `Tokens` builds the list from right to left. */
module TokenRules {
  import opened Ascii

  /** types.ts splits between a digit and a following letter; index.ts does not. */
  datatype RuleSet = WithDigitRule | WithoutDigitRule

  /** Close: the character ends the current token. Drop: the character is a delimiter; it is
      discarded and the current token ends. Keep: the character joins the current token. */
  datatype Action = Close | Drop | Keep

  /** The rules in the order the source checks them: lower->UPPER, digit->letter (types.ts only),
      UPPER,UPPER,lower, delimiter, otherwise keep. */
  function ActionAt(s: string, delims: set<char>, rules: RuleSet): Action
    requires |s| >= 1
  {
    if |s| >= 2 && IsLower(s[0]) && IsUpper(s[1]) then Close
    else if rules == WithDigitRule && |s| >= 2 && IsDigit(s[0]) && IsLetter(s[1]) then Close
    else if |s| >= 3 && IsUpper(s[0]) && IsUpper(s[1]) && IsLower(s[2]) then Close
    else if s[0] in delims then Drop
    else Keep
  }

  /** Adds a character at the front of the first token. */
  function PrependFirst(pre: string, toks: seq<string>): (r: seq<string>)
    requires |toks| >= 1
    ensures |r| == |toks| && r[0] == pre + toks[0] && r[1..] == toks[1..]
  {
    [pre + toks[0]] + toks[1..]
  }

  lemma PrependFirstLaws(a: string, b: string, x: string, toks: seq<string>)
    requires |toks| >= 1
    ensures PrependFirst("", toks) == toks
    ensures PrependFirst(a, PrependFirst(b, toks)) == PrependFirst(a + b, toks)
    ensures PrependFirst(a, [x] + toks) == [a + x] + toks
  {
    assert "" + toks[0] == toks[0];
    assert toks == [toks[0]] + toks[1..];
    assert ([x] + toks)[1..] == toks;
    assert a + (b + toks[0]) == (a + b) + toks[0];
  }

  /** The token list of `s`, always non-empty: the final (possibly empty) token is kept. */
  function Tokens(s: string, delims: set<char>, rules: RuleSet): (r: seq<string>)
    ensures |r| >= 1
    ensures s == [] ==> r == [""]
    decreases |s|
  {
    if s == [] then [""]
    else
      match ActionAt(s, delims, rules)
      case Close => [[s[0]]] + Tokens(s[1..], delims, rules)
      case Drop => [""] + Tokens(s[1..], delims, rules)
      case Keep => PrependFirst([s[0]], Tokens(s[1..], delims, rules))
  }

  /** Concatenation of a token list. */
  function Concat(toks: seq<string>): string {
    if toks == [] then "" else toks[0] + Concat(toks[1..])
  }

  lemma {:induction false} ConcatAppend(a: seq<string>, b: seq<string>)
    ensures Concat(a + b) == Concat(a) + Concat(b)
    decreases |a|
  {
    if a == [] {
      assert a + b == b;
    } else {
      assert (a + b)[1..] == a[1..] + b;
      ConcatAppend(a[1..], b);
    }
  }

  lemma {:induction false} ConcatPrependFirst(pre: string, toks: seq<string>)
    requires |toks| >= 1
    ensures Concat(PrependFirst(pre, toks)) == pre + Concat(toks)
  {
    var r := PrependFirst(pre, toks);
    calc {
      Concat(r);
      r[0] + Concat(r[1..]);
      (pre + toks[0]) + Concat(toks[1..]);
      pre + (toks[0] + Concat(toks[1..]));
    }
  }

  lemma {:induction false} ConcatCons(t: string, toks: seq<string>)
    ensures Concat([t] + toks) == t + Concat(toks)
  {
    assert ([t] + toks)[1..] == toks;
  }

  /** The input with every character of `delims` removed. */
  function RemoveChars(s: string, delims: set<char>): (r: string)
    ensures |r| <= |s|
    ensures forall i :: 0 <= i < |r| ==> r[i] !in delims
  {
    if s == [] then "" else (if s[0] in delims then "" else [s[0]]) + RemoveChars(s[1..], delims)
  }

  /** Character conservation: with a delimiter set free of letters and digits, the tokens are
      exactly the input with its delimiters removed, in order. */
  lemma {:induction false} TokensConcat(s: string, delims: set<char>, rules: RuleSet)
    requires NoAlnum(delims)
    ensures Concat(Tokens(s, delims, rules)) == RemoveChars(s, delims)
    decreases |s|
  {
    if s != [] {
      var rest := Tokens(s[1..], delims, rules);
      TokensConcat(s[1..], delims, rules);
      match ActionAt(s, delims, rules)
      case Close =>
        assert s[0] !in delims;
        ConcatCons([s[0]], rest);
      case Drop =>
        ConcatCons("", rest);
      case Keep =>
        ConcatPrependFirst([s[0]], rest);
    }
  }

  /** No character of `t` is in `delims`. */
  predicate FreeOf(t: string, delims: set<char>) {
    forall j :: 0 <= j < |t| ==> t[j] !in delims
  }

  /** With a delimiter set free of letters and digits, no token holds a delimiter. */
  lemma {:induction false} TokensFreeOfDelimiters(s: string, delims: set<char>, rules: RuleSet)
    requires NoAlnum(delims)
    ensures forall i :: 0 <= i < |Tokens(s, delims, rules)| ==> FreeOf(Tokens(s, delims, rules)[i], delims)
    decreases |s|
  {
    if s != [] {
      var rest := Tokens(s[1..], delims, rules);
      TokensFreeOfDelimiters(s[1..], delims, rules);
      var r := Tokens(s, delims, rules);
      match ActionAt(s, delims, rules)
      case Close =>
        assert r == [[s[0]]] + rest;
        assert s[0] !in delims;
      case Drop =>
        assert r == [""] + rest;
      case Keep =>
        assert r == PrependFirst([s[0]], rest);
        assert FreeOf(r[0], delims) by {
          assert r[0] == [s[0]] + rest[0];
          assert FreeOf(rest[0], delims);
        }
        assert forall i :: 1 <= i < |r| ==> r[i] == rest[i];
    }
  }

  /** What happens at a position depends on at most three characters. */
  lemma ActionAtLocal(a: string, b: string, delims: set<char>, rules: RuleSet)
    requires |a| >= 3
    ensures ActionAt(a + b, delims, rules) == ActionAt(a, delims, rules)
  {
    assert (a + b)[0] == a[0] && (a + b)[1] == a[1] && (a + b)[2] == a[2];
  }

  lemma PrependFirstAppend(pre: string, a: seq<string>, b: seq<string>)
    requires |a| >= 1
    ensures PrependFirst(pre, a + b) == PrependFirst(pre, a) + b
  {
    assert (a + b)[1..] == a[1..] + b;
  }

  /** One scanning step: if the first character of `x` is treated the same with `z` behind it,
      a splitting law for the rest of `x` extends to the whole of `x`. */
  lemma {:induction false} StepAppend(x: string, z: string, tail: seq<string>, delims: set<char>, rules: RuleSet)
    requires |x| >= 1
    requires ActionAt(x + z, delims, rules) == ActionAt(x, delims, rules)
    requires Tokens(x[1..] + z, delims, rules) == Tokens(x[1..], delims, rules) + tail
    ensures Tokens(x + z, delims, rules) == Tokens(x, delims, rules) + tail
  {
    var s := x + z;
    assert s[1..] == x[1..] + z;
    assert s[0] == x[0];
    var rest := Tokens(x[1..], delims, rules);
    var restZ := Tokens(s[1..], delims, rules);
    assert restZ == rest + tail;
    match ActionAt(x, delims, rules)
    case Close =>
      assert Tokens(s, delims, rules) == [[x[0]]] + restZ;
      assert Tokens(x, delims, rules) == [[x[0]]] + rest;
    case Drop =>
      assert Tokens(s, delims, rules) == [""] + restZ;
      assert Tokens(x, delims, rules) == [""] + rest;
    case Keep =>
      assert Tokens(s, delims, rules) == PrependFirst([x[0]], restZ);
      assert Tokens(x, delims, rules) == PrependFirst([x[0]], rest);
      PrependFirstAppend([x[0]], rest, tail);
  }

  /** The first character of `x` is treated the same whatever follows `x`, provided the windows
      of the last two positions of `x` are. */
  lemma HeadAgrees(x: string, z: string, delims: set<char>, rules: RuleSet)
    requires |x| >= 1
    requires |x| == 1 ==> ActionAt(x + z, delims, rules) == ActionAt(x, delims, rules)
    requires |x| == 2 ==> ActionAt(x + z, delims, rules) == ActionAt(x, delims, rules)
    ensures ActionAt(x + z, delims, rules) == ActionAt(x, delims, rules)
  {
    if |x| >= 3 {
      ActionAtLocal(x, z, delims, rules);
    }
  }

  /** Splitting law at a position where the scanner closes the token: if the last character of
      `x` closes a token because of what follows it in `y` (while at the end of `x` alone it
      would just be kept) and the window starting one position earlier sees no difference,
      then `x` and `y` tokenize independently. */
  lemma {:induction false} TokensAppendAtClose(x: string, y: string, delims: set<char>, rules: RuleSet)
    requires |x| >= 1 && |y| >= 1
    requires ActionAt([x[|x| - 1]] + y, delims, rules) == Close
    requires x[|x| - 1] !in delims
    requires |x| >= 2 ==> ActionAt(x[|x| - 2..] + y, delims, rules) == ActionAt(x[|x| - 2..], delims, rules)
    ensures Tokens(x + y, delims, rules) == Tokens(x, delims, rules) + Tokens(y, delims, rules)
    decreases |x|
  {
    if |x| == 1 {
      assert x + y == [x[0]] + y;
      assert ([x[0]] + y)[1..] == y;
      assert Tokens(x + y, delims, rules) == [[x[0]]] + Tokens(y, delims, rules);
      assert x[1..] == [];
      assert ActionAt(x, delims, rules) == Keep;
      assert [x[0]] + "" == [x[0]];
      assert Tokens(x, delims, rules) == [[x[0]]];
    } else {
      var x' := x[1..];
      assert x'[|x'| - 1] == x[|x| - 1];
      if |x'| >= 2 {
        assert x'[|x'| - 2..] == x[|x| - 2..];
      }
      TokensAppendAtClose(x', y, delims, rules);
      if |x| == 2 {
        assert x[|x| - 2..] == x;
      }
      HeadAgrees(x, y, delims, rules);
      StepAppend(x, y, Tokens(y, delims, rules), delims, rules);
    }
  }

  /** Splitting law at a dropped delimiter: if `z` starts with a character the scanner drops and
      the windows in the last two positions of `x` see no difference when `z` follows, then `x`
      and the rest of `z` tokenize independently and the delimiter disappears. */
  lemma {:induction false} TokensAppendAtDrop(x: string, z: string, delims: set<char>, rules: RuleSet)
    requires |z| >= 1 && ActionAt(z, delims, rules) == Drop
    requires |x| >= 1 ==> ActionAt(x[|x| - 1..] + z, delims, rules) == ActionAt(x[|x| - 1..], delims, rules)
    requires |x| >= 2 ==> ActionAt(x[|x| - 2..] + z, delims, rules) == ActionAt(x[|x| - 2..], delims, rules)
    ensures Tokens(x + z, delims, rules) == Tokens(x, delims, rules) + Tokens(z[1..], delims, rules)
    decreases |x|
  {
    if x == [] {
      assert x + z == z;
    } else {
      var x' := x[1..];
      if |x'| >= 1 {
        assert x'[|x'| - 1..] == x[|x| - 1..];
      }
      if |x'| >= 2 {
        assert x'[|x'| - 2..] == x[|x| - 2..];
      }
      TokensAppendAtDrop(x', z, delims, rules);
      if |x| == 2 {
        assert x[|x| - 2..] == x;
      } else if |x| == 1 {
        assert x[|x| - 1..] == x;
      }
      HeadAgrees(x, z, delims, rules);
      StepAppend(x, z, Tokens(z[1..], delims, rules), delims, rules);
    }
  }

  /** lower->UPPER: the lower-case character ends its token and the upper-case one opens the
      next: "camelCase" tokenizes as "camel" followed by the tokens of "Case". */
  lemma LowerUpperSplits(x: string, y: string, delims: set<char>, rules: RuleSet)
    requires |x| >= 1 && |y| >= 1
    requires IsLower(x[|x| - 1]) && IsUpper(y[0]) && x[|x| - 1] !in delims
    ensures Tokens(x + y, delims, rules) == Tokens(x, delims, rules) + Tokens(y, delims, rules)
  {
    assert ([x[|x| - 1]] + y)[1] == y[0];
    if |x| >= 2 {
      var w := x[|x| - 2..];
      assert w[1] == x[|x| - 1] && (w + y)[1] == x[|x| - 1] && (w + y)[0] == w[0] && (w + y)[2] == y[0];
    }
    TokensAppendAtClose(x, y, delims, rules);
  }

  /** digit->letter (types.ts only): the digit ends its token: "camel200Case" has a token
      boundary after "200". */
  lemma DigitLetterSplits(x: string, y: string, delims: set<char>)
    requires |x| >= 1 && |y| >= 1
    requires IsDigit(x[|x| - 1]) && IsLetter(y[0]) && x[|x| - 1] !in delims
    ensures Tokens(x + y, delims, WithDigitRule) == Tokens(x, delims, WithDigitRule) + Tokens(y, delims, WithDigitRule)
  {
    assert ([x[|x| - 1]] + y)[1] == y[0];
    if |x| >= 2 {
      var w := x[|x| - 2..];
      assert w[1] == x[|x| - 1] && (w + y)[1] == x[|x| - 1] && (w + y)[0] == w[0] && (w + y)[2] == y[0];
    }
    TokensAppendAtClose(x, y, delims, WithDigitRule);
  }

  /** UPPER,UPPER,lower: a run of capitals ends one character before a lower-case letter:
      "HTTPServer" has a token boundary after "HTTP". */
  lemma AcronymSplits(x: string, y: string, delims: set<char>, rules: RuleSet)
    requires |x| >= 1 && |y| >= 2
    requires IsUpper(x[|x| - 1]) && IsUpper(y[0]) && IsLower(y[1]) && x[|x| - 1] !in delims
    ensures Tokens(x + y, delims, rules) == Tokens(x, delims, rules) + Tokens(y, delims, rules)
  {
    assert ([x[|x| - 1]] + y)[1] == y[0] && ([x[|x| - 1]] + y)[2] == y[1];
    if |x| >= 2 {
      var w := x[|x| - 2..];
      assert w[1] == x[|x| - 1] && (w + y)[1] == x[|x| - 1] && (w + y)[0] == w[0] && (w + y)[2] == y[0];
    }
    TokensAppendAtClose(x, y, delims, rules);
  }

  /** A delimiter that is neither a letter nor a digit is consumed and always closes the current
      token, even an empty one: "camel_case" tokenizes as the tokens of "camel" followed by the
      tokens of "case", and "_case" as "" followed by the tokens of "case". */
  lemma DelimiterSplits(x: string, c: char, y: string, delims: set<char>, rules: RuleSet)
    requires c in delims && !IsAlnum(c)
    ensures Tokens(x + [c] + y, delims, rules) == Tokens(x, delims, rules) + Tokens(y, delims, rules)
  {
    var z := [c] + y;
    assert z[0] == c && z[1..] == y;
    assert x + [c] + y == x + z;
    if |x| >= 1 {
      var w := x[|x| - 1..];
      assert (w + z)[0] == w[0] && (w + z)[1] == c;
    }
    if |x| >= 2 {
      var w := x[|x| - 2..];
      assert (w + z)[0] == w[0] && (w + z)[1] == w[1] && (w + z)[2] == c;
    }
    TokensAppendAtDrop(x, z, delims, rules);
  }

  /** Every position of `w` only extends the current token. */
  predicate AllKeep(w: string, delims: set<char>, rules: RuleSet) {
    forall i :: 0 <= i < |w| ==> ActionAt(w[i..], delims, rules) == Keep
  }

  /** A word in which no rule fires is a single token. */
  lemma {:induction false} AllKeepSingleToken(w: string, delims: set<char>, rules: RuleSet)
    requires AllKeep(w, delims, rules)
    ensures Tokens(w, delims, rules) == [w]
    decreases |w|
  {
    if w != [] {
      assert ActionAt(w[0..], delims, rules) == Keep && w[0..] == w;
      assert AllKeep(w[1..], delims, rules) by {
        forall i | 0 <= i < |w[1..]| ensures ActionAt(w[1..][i..], delims, rules) == Keep {
          assert w[1..][i..] == w[i + 1..];
        }
      }
      AllKeepSingleToken(w[1..], delims, rules);
      assert [w[0]] + w[1..] == w;
    }
  }

  /** A letter followed by lower-case letters, none of them a delimiter, is one token. */
  lemma LowerTailKeeps(w: string, delims: set<char>, rules: RuleSet)
    requires |w| >= 1 && IsLetter(w[0])
    requires forall i :: 1 <= i < |w| ==> IsLower(w[i])
    requires forall i :: 0 <= i < |w| ==> w[i] !in delims
    ensures AllKeep(w, delims, rules)
  {
    forall i | 0 <= i < |w| ensures ActionAt(w[i..], delims, rules) == Keep {
      var t := w[i..];
      assert t[0] == w[i];
      assert |t| >= 2 ==> t[1] == w[i + 1];
    }
  }

  /** Capitals followed by digits, none of them a delimiter, are one token. */
  lemma UpperDigitsKeeps(u: string, d: string, delims: set<char>, rules: RuleSet)
    requires forall i :: 0 <= i < |u| ==> IsUpper(u[i])
    requires forall i :: 0 <= i < |d| ==> IsDigit(d[i])
    requires forall i :: 0 <= i < |u + d| ==> (u + d)[i] !in delims
    ensures AllKeep(u + d, delims, rules)
  {
    var w := u + d;
    forall i | 0 <= i < |w| ensures ActionAt(w[i..], delims, rules) == Keep {
      var t := w[i..];
      assert t[0] == w[i];
      assert |t| >= 2 ==> t[1] == w[i + 1];
      assert |t| >= 3 ==> t[2] == w[i + 2];
      assert forall k :: 0 <= k < |w| ==> IsUpper(w[k]) || IsDigit(w[k]);
      assert forall k :: 0 <= k < |w| && IsDigit(w[k]) && k + 1 < |w| ==> IsDigit(w[k + 1]);
    }
  }

  /** Without the digit->letter rule, capitals and digits in any order, none of them a
      delimiter, are one token. */
  lemma NoLowerKeeps(w: string, delims: set<char>)
    requires forall i :: 0 <= i < |w| ==> (IsUpper(w[i]) || IsDigit(w[i])) && w[i] !in delims
    ensures AllKeep(w, delims, WithoutDigitRule)
  {
    forall i | 0 <= i < |w| ensures ActionAt(w[i..], delims, WithoutDigitRule) == Keep {
      var t := w[i..];
      assert t[0] == w[i];
      assert |t| >= 2 ==> t[1] == w[i + 1];
      assert |t| >= 3 ==> t[2] == w[i + 2];
    }
  }

  /** No digit of `s` is immediately followed by a letter. */
  predicate NoDigitLetter(s: string) {
    forall i :: 0 <= i < |s| - 1 && IsDigit(s[i]) ==> !IsLetter(s[i + 1])
  }

  /** The digit->letter rule is the only difference between the two rule sets: where no digit
      is followed by a letter they give the same tokens. */
  lemma {:induction false} RuleSetsAgree(s: string, delims: set<char>)
    requires NoDigitLetter(s)
    ensures Tokens(s, delims, WithDigitRule) == Tokens(s, delims, WithoutDigitRule)
    decreases |s|
  {
    if s != [] {
      assert NoDigitLetter(s[1..]) by {
        forall i | 0 <= i < |s[1..]| - 1 && IsDigit(s[1..][i]) ensures !IsLetter(s[1..][i + 1]) {
          assert s[1..][i] == s[i + 1] && s[1..][i + 1] == s[i + 2];
        }
      }
      RuleSetsAgree(s[1..], delims);
      assert ActionAt(s, delims, WithDigitRule) == ActionAt(s, delims, WithoutDigitRule);
    }
  }
}
