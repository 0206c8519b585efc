/** The tokenize -> per-token transform -> join pipeline of types.ts, written as the source's
    recursive conditional types are: each accumulator of the source (`Acc`, `Tokens`, `A`, `J`)
    is a parameter of the function that carries it. */
module ChangeCaseTypes {
  import opened Ascii
  import opened TokenRules

  datatype Option<T> = None | Some(value: T)

  // ---------------------------------------------------------------------------------------
  // Split (types.ts:5-12)
  // ---------------------------------------------------------------------------------------

  /** `d` occurs in `s` starting at `j`. */
  predicate OccursAt(s: string, d: string, j: int) {
    0 <= j && j + |d| <= |s| && s[j..j + |d|] == d
  }

  /** The leftmost occurrence of a non-empty `d` in `s`: a template literal pattern
      `${infer T}${D}${infer U}` infers for T the shortest prefix that is followed by D. */
  function IndexOf(s: string, d: string): (r: Option<nat>)
    requires |d| > 0
    ensures r.Some? ==> OccursAt(s, d, r.value) && forall j :: 0 <= j < r.value ==> !OccursAt(s, d, j)
    ensures r.None? ==> forall j :: !OccursAt(s, d, j)
    decreases |s|
  {
    if |s| < |d| then None
    else if s[..|d|] == d then Some(0)
    else
      match IndexOf(s[1..], d)
      case None =>
        assert forall j :: OccursAt(s, d, j) ==> j == 0 || OccursAt(s[1..], d, j - 1) by {
          forall j | OccursAt(s, d, j) && j != 0 ensures OccursAt(s[1..], d, j - 1) {
            assert s[1..][j - 1..j - 1 + |d|] == s[j..j + |d|];
          }
        }
        None
      case Some(i) =>
        assert OccursAt(s, d, i + 1) by {
          assert s[1..][i..i + |d|] == s[i + 1..i + 1 + |d|];
        }
        assert forall j :: 0 < j < i + 1 && OccursAt(s, d, j) ==> OccursAt(s[1..], d, j - 1) by {
          forall j | 0 < j < i + 1 && OccursAt(s, d, j) ensures OccursAt(s[1..], d, j - 1) {
            assert s[1..][j - 1..j - 1 + |d|] == s[j..j + |d|];
          }
        }
        Some(i + 1)
  }

  /** `Split<S, D>`: the pieces of `s` between occurrences of `d`; with `d == ""` the single
      characters of `s`. An empty remainder yields no piece, so a trailing `d` leaves no empty
      last piece. */
  function Split(s: string, d: string): (r: seq<string>)
    decreases |s|
  {
    if s == [] then []
    else if d == [] then [[s[0]]] + Split(s[1..], d)
    else
      match IndexOf(s, d)
      case None => [s]
      case Some(i) => [s[..i]] + Split(s[i + |d|..], d)
  }

  /** `Split<S, "">` is the list of the characters of `s`. */
  lemma {:induction false} SplitIntoChars(s: string)
    ensures |Split(s, "")| == |s|
    ensures forall i :: 0 <= i < |s| ==> Split(s, "")[i] == [s[i]]
    decreases |s|
  {
    if s != [] {
      SplitIntoChars(s[1..]);
      var r := Split(s, "");
      assert r == [[s[0]]] + Split(s[1..], "");
      assert forall i :: 1 <= i < |s| ==> r[i] == Split(s[1..], "")[i - 1];
    }
  }

  /** `d` occurs nowhere in `t`. */
  ghost predicate Avoids(t: string, d: string) {
    forall j :: !OccursAt(t, d, j)
  }

  /** The part before the leftmost occurrence holds no occurrence. */
  lemma {:induction false} PrefixAvoids(s: string, d: string, i: nat)
    requires |d| > 0 && i <= |s|
    requires forall j :: 0 <= j < i ==> !OccursAt(s, d, j)
    ensures Avoids(s[..i], d)
  {
    forall j ensures !OccursAt(s[..i], d, j) {
      if OccursAt(s[..i], d, j) {
        assert s[j..j + |d|] == s[..i][j..j + |d|];
        assert OccursAt(s, d, j);
      }
    }
  }

  /** One step of `SplitPieces`: a piece before the leftmost occurrence, then the pieces of
      the remainder. */
  lemma {:induction false} SplitPiecesStep(s: string, d: string, i: nat, tail: seq<string>)
    requires |d| > 0 && OccursAt(s, d, i) && forall j :: 0 <= j < i ==> !OccursAt(s, d, j)
    requires forall k :: 0 <= k < |tail| ==> Avoids(tail[k], d)
    requires tail == [] ==> s[i + |d|..] == []
    requires tail != [] ==> Interleave(tail, d) == s[i + |d|..] || Interleave(tail, d) + d == s[i + |d|..]
    ensures forall k :: 0 <= k < |[s[..i]] + tail| ==> Avoids(([s[..i]] + tail)[k], d)
    ensures Interleave([s[..i]] + tail, d) == s || Interleave([s[..i]] + tail, d) + d == s
  {
    var prefix, rest := s[..i], s[i + |d|..];
    PrefixAvoids(s, d, i);
    var r := [prefix] + tail;
    assert forall k :: 1 <= k < |r| ==> r[k] == tail[k - 1];
    assert s == prefix + d + rest by {
      assert s[i..i + |d|] == d;
      assert s == s[..i] + s[i..i + |d|] + s[i + |d|..];
    }
    if tail == [] {
      assert r == [prefix];
    } else {
      InterleaveCons(prefix, tail, d);
    }
  }

  /** For a non-empty `d`: no piece contains `d`, and joining the pieces with `d` gives back
      `s`, except that a final `d` of `s` that ended the last piece is lost. */
  lemma {:induction false} SplitPieces(s: string, d: string)
    requires |d| > 0
    ensures forall i :: 0 <= i < |Split(s, d)| ==> Avoids(Split(s, d)[i], d)
    ensures Interleave(Split(s, d), d) == s || Interleave(Split(s, d), d) + d == s
    decreases |s|
  {
    if s != [] {
      match IndexOf(s, d)
      case None =>
        assert Split(s, d) == [s];
      case Some(i) =>
        var rest := s[i + |d|..];
        SplitPieces(rest, d);
        assert Split(rest, d) == [] ==> rest == [];
        assert Split(s, d) == [s[..i]] + Split(rest, d);
        SplitPiecesStep(s, d, i, Split(rest, d));
    }
  }

  // ---------------------------------------------------------------------------------------
  // Capitalize (types.ts:20-25)
  // ---------------------------------------------------------------------------------------

  /** The first character upper-cased, the rest lower-cased. Its contract fixes the result
      completely: same letters ignoring case, first not lower-case, rest not upper-case. */
  function Capitalize(s: string): (r: string)
    ensures |r| == |s|
    ensures Lowercase(r) == Lowercase(s)
    ensures |r| > 0 ==> !IsLower(r[0])
    ensures forall i :: 1 <= i < |r| ==> !IsUpper(r[i])
  {
    if s == [] then []
    else
      CaseRoundTrip(s[0]);
      LowercaseIdempotent(s[1..]);
      LowercaseAppend([ToUpper(s[0])], Lowercase(s[1..]));
      LowercaseAppend([s[0]], s[1..]);
      assert s == [s[0]] + s[1..];
      [ToUpper(s[0])] + Lowercase(s[1..])
  }

  // ---------------------------------------------------------------------------------------
  // Without / WithoutEmpty (types.ts:27-36)
  // ---------------------------------------------------------------------------------------

  /** `Without<S, P, A>`: appends to `a` the elements of `p` that differ from `x`. */
  function WithoutFrom(x: string, p: seq<string>, a: seq<string>): (r: seq<string>)
    ensures |a| <= |r| <= |a| + |p| && r[..|a|] == a
    ensures forall i :: |a| <= i < |r| ==> r[i] != x && r[i] in p
    decreases |p|
  {
    if p == [] then a
    else if p[0] == x then WithoutFrom(x, p[1..], a)
    else WithoutFrom(x, p[1..], a + [p[0]])
  }

  function Without(x: string, p: seq<string>): (r: seq<string>)
    ensures |r| <= |p|
    ensures forall i :: 0 <= i < |r| ==> r[i] != x && r[i] in p
  {
    WithoutFrom(x, p, [])
  }

  /** `WithoutEmpty<P>`. */
  function WithoutEmpty(p: seq<string>): (r: seq<string>)
    ensures |r| <= |p|
    ensures forall i :: 0 <= i < |r| ==> r[i] != "" && r[i] in p
  {
    Without("", p)
  }

  lemma {:induction false} WithoutFromAcc(x: string, p: seq<string>, a: seq<string>)
    ensures WithoutFrom(x, p, a) == a + WithoutFrom(x, p, [])
    decreases |p|
  {
    if p != [] {
      WithoutFromAcc(x, p[1..], a);
      if p[0] != x {
        WithoutFromAcc(x, p[1..], a + [p[0]]);
        WithoutFromAcc(x, p[1..], [p[0]]);
        assert [] + [p[0]] == [p[0]];
        assert WithoutFrom(x, p, []) == WithoutFrom(x, p[1..], [p[0]]);
      }
    }
  }

  /** Removing `x` from a one-element list. */
  lemma WithoutCons(x: string, e: string, p: seq<string>)
    ensures Without(x, [e] + p) == (if e == x then [] else [e]) + Without(x, p)
  {
    var q := [e] + p;
    assert q[0] == e && q[1..] == p;
    assert [] + [e] == [e];
    WithoutFromAcc(x, p, [e]);
    if e != x {
      assert Without(x, q) == WithoutFrom(x, p, [e]);
    } else {
      assert Without(x, q) == WithoutFrom(x, p, []);
    }
  }

  /** `Without` keeps exactly the elements different from `x`, in order: it distributes
      over concatenation. */
  lemma {:induction false} WithoutAppend(x: string, a: seq<string>, b: seq<string>)
    ensures Without(x, a + b) == Without(x, a) + Without(x, b)
    decreases |a|
  {
    if a == [] {
      assert a + b == b;
    } else {
      assert a + b == [a[0]] + (a[1..] + b);
      assert a == [a[0]] + a[1..];
      WithoutCons(x, a[0], a[1..] + b);
      WithoutCons(x, a[0], a[1..]);
      WithoutAppend(x, a[1..], b);
    }
  }

  /** Every element other than `x` keeps its number of occurrences; `x` has none left. */
  lemma {:induction false} WithoutCounts(x: string, p: seq<string>)
    ensures multiset(Without(x, p))[x] == 0
    ensures forall e :: e != x ==> multiset(Without(x, p))[e] == multiset(p)[e]
    decreases |p|
  {
    if p != [] {
      WithoutCounts(x, p[1..]);
      WithoutCons(x, p[0], p[1..]);
      assert p == [p[0]] + p[1..];
    }
  }

  /** Removing the empty strings does not change the concatenation. */
  lemma {:induction false} WithoutEmptyConcat(p: seq<string>)
    ensures Concat(WithoutEmpty(p)) == Concat(p)
    decreases |p|
  {
    if p != [] {
      WithoutEmptyConcat(p[1..]);
      WithoutCons("", p[0], p[1..]);
      assert p == [p[0]] + p[1..];
      ConcatCons(p[0], p[1..]);
      if p[0] != "" {
        ConcatCons(p[0], WithoutEmpty(p[1..]));
      }
    }
  }

  // ---------------------------------------------------------------------------------------
  // KeepChars / _KeepChars (types.ts:38-46)
  // ---------------------------------------------------------------------------------------

  /** `_KeepChars<S, C, A>`: appends to `a` each piece that is one character of `chars`. */
  function KeepCharsFrom(p: seq<string>, chars: set<char>, a: string): (r: string)
    ensures |a| <= |r| <= |a| + |p| && r[..|a|] == a
    ensures forall i :: |a| <= i < |r| ==> r[i] in chars
    decreases |p|
  {
    if p == [] then a
    else if |p[0]| == 1 && p[0][0] in chars then KeepCharsFrom(p[1..], chars, a + p[0])
    else KeepCharsFrom(p[1..], chars, a)
  }

  /** `KeepChars<S, C>`: the characters of `s` that lie in `chars`. */
  function KeepChars(s: string, chars: set<char>): (r: string)
    ensures |r| <= |s|
    ensures forall i :: 0 <= i < |r| ==> r[i] in chars
  {
    SplitIntoChars(s);
    KeepCharsFrom(Split(s, ""), chars, "")
  }

  lemma {:induction false} KeepCharsFromAcc(p: seq<string>, chars: set<char>, a: string)
    ensures KeepCharsFrom(p, chars, a) == a + KeepCharsFrom(p, chars, "")
    decreases |p|
  {
    if p != [] {
      KeepCharsFromAcc(p[1..], chars, a);
      if |p[0]| == 1 && p[0][0] in chars {
        KeepCharsFromAcc(p[1..], chars, a + p[0]);
        KeepCharsFromAcc(p[1..], chars, p[0]);
        assert "" + p[0] == p[0];
      }
    }
  }

  /** `KeepChars` looks at one character at a time: together with `KeepChars("") == ""` this
      fixes it as the order-preserving filter of `chars`. */
  lemma KeepCharsCons(c: char, s: string, chars: set<char>)
    ensures KeepChars([c] + s, chars) == (if c in chars then [c] else []) + KeepChars(s, chars)
  {
    var t := [c] + s;
    assert t[0] == c && t[1..] == s;
    var p := Split(t, "");
    assert p == [[c]] + Split(s, "");
    assert p[0] == [c] && p[1..] == Split(s, "");
    assert "" + [c] == [c];
    KeepCharsFromAcc(Split(s, ""), chars, [c]);
    if c in chars {
      assert KeepChars(t, chars) == KeepCharsFrom(Split(s, ""), chars, [c]);
    } else {
      assert KeepChars(t, chars) == KeepCharsFrom(Split(s, ""), chars, "");
    }
  }

  lemma {:induction false} KeepCharsAppend(a: string, b: string, chars: set<char>)
    ensures KeepChars(a + b, chars) == KeepChars(a, chars) + KeepChars(b, chars)
    decreases |a|
  {
    if a == [] {
      assert a + b == b;
    } else {
      assert a + b == [a[0]] + (a[1..] + b);
      assert a == [a[0]] + a[1..];
      KeepCharsCons(a[0], a[1..] + b, chars);
      KeepCharsCons(a[0], a[1..], chars);
      KeepCharsAppend(a[1..], b, chars);
    }
  }

  /** A string made only of characters of `chars` is kept whole. */
  lemma {:induction false} KeepCharsAll(s: string, chars: set<char>)
    requires forall i :: 0 <= i < |s| ==> s[i] in chars
    ensures KeepChars(s, chars) == s
    decreases |s|
  {
    if s != [] {
      assert s == [s[0]] + s[1..];
      KeepCharsCons(s[0], s[1..], chars);
      KeepCharsAll(s[1..], chars);
    }
  }

  lemma {:induction false} KeepCharsNone(s: string, chars: set<char>)
    requires forall i :: 0 <= i < |s| ==> s[i] !in chars
    ensures KeepChars(s, chars) == ""
    decreases |s|
  {
    if s != [] {
      assert s == [s[0]] + s[1..];
      KeepCharsCons(s[0], s[1..], chars);
      KeepCharsNone(s[1..], chars);
    } else {
      assert Split(s, "") == [];
    }
  }

  /** Each character of `chars` keeps its number of occurrences; no other character is left. */
  lemma {:induction false} KeepCharsCounts(s: string, chars: set<char>)
    ensures forall c :: c in chars ==> multiset(KeepChars(s, chars))[c] == multiset(s)[c]
    ensures forall c :: c !in chars ==> multiset(KeepChars(s, chars))[c] == 0
    decreases |s|
  {
    if s != [] {
      assert s == [s[0]] + s[1..];
      KeepCharsCons(s[0], s[1..], chars);
      KeepCharsCounts(s[1..], chars);
    }
  }

  /** Removing delimiters first changes nothing when no delimiter is kept anyway. */
  lemma {:induction false} KeepCharsRemoveChars(s: string, delims: set<char>, chars: set<char>)
    requires chars * delims == {}
    ensures KeepChars(RemoveChars(s, delims), chars) == KeepChars(s, chars)
    decreases |s|
  {
    if s != [] {
      assert s == [s[0]] + s[1..];
      KeepCharsCons(s[0], s[1..], chars);
      KeepCharsRemoveChars(s[1..], delims, chars);
      var head := if s[0] in delims then "" else [s[0]];
      assert RemoveChars(s, delims) == head + RemoveChars(s[1..], delims);
      KeepCharsAppend(head, RemoveChars(s[1..], delims), chars);
      if s[0] !in delims {
        KeepCharsCons(s[0], [], chars);
        assert [s[0]] + [] == [s[0]];
      } else {
        assert s[0] !in chars by {
          assert s[0] in delims && s[0] !in chars * delims;
        }
        assert head == "";
        assert KeepChars("", chars) == "";
      }
    }
  }

  // ---------------------------------------------------------------------------------------
  // PrependIfStartsWithDigit (types.ts:48-53)
  // ---------------------------------------------------------------------------------------

  /** `d + s` when `s` starts with a digit, otherwise `s` (and "" stays ""). With a prefix that
      does not itself start with a digit, the result never starts with a digit, and a prefix
      without letters or digits adds no alphanumeric character. */
  function PrependIfStartsWithDigit(s: string, d: string): (r: string)
    ensures r == s || r == d + s
    ensures (|s| > 0 && IsDigit(s[0])) ==> r == d + s
    ensures !(|s| > 0 && IsDigit(s[0])) ==> r == s
    ensures |d| > 0 && !IsDigit(d[0]) ==> r == [] || !IsDigit(r[0])
  {
    if s == [] then []
    else if IsDigit(s[0]) then d + s
    else s
  }

  // ---------------------------------------------------------------------------------------
  // The positional maps (types.ts:55-62)
  // ---------------------------------------------------------------------------------------

  function MapToLowercase(t: seq<string>): (r: seq<string>)
    ensures |r| == |t| && forall i :: 0 <= i < |t| ==> r[i] == Lowercase(t[i])
  {
    seq(|t|, i requires 0 <= i < |t| => Lowercase(t[i]))
  }

  function MapToUppercase(t: seq<string>): (r: seq<string>)
    ensures |r| == |t| && forall i :: 0 <= i < |t| ==> r[i] == Uppercase(t[i])
  {
    seq(|t|, i requires 0 <= i < |t| => Uppercase(t[i]))
  }

  function MapToCapital(t: seq<string>): (r: seq<string>)
    ensures |r| == |t| && forall i :: 0 <= i < |t| ==> r[i] == Capitalize(t[i])
  {
    seq(|t|, i requires 0 <= i < |t| => Capitalize(t[i]))
  }

  /** Token 0 lower-cased; every later token capitalized and, if it starts with a digit,
      prefixed with "_". */
  function MapToCamel(t: seq<string>): (r: seq<string>)
    ensures |r| == |t|
    ensures |t| > 0 ==> r[0] == Lowercase(t[0])
    ensures forall i :: 1 <= i < |t| ==> r[i] == PrependIfStartsWithDigit(Capitalize(t[i]), "_")
  {
    seq(|t|, i requires 0 <= i < |t| =>
      if i == 0 then Lowercase(t[i]) else PrependIfStartsWithDigit(Capitalize(t[i]), "_"))
  }

  /** Token 0 capitalized, every later token lower-cased. */
  function MapToSentence(t: seq<string>): (r: seq<string>)
    ensures |r| == |t|
    ensures |t| > 0 ==> r[0] == Capitalize(t[0])
    ensures forall i :: 1 <= i < |t| ==> r[i] == Lowercase(t[i])
  {
    seq(|t|, i requires 0 <= i < |t| => if i == 0 then Capitalize(t[i]) else Lowercase(t[i]))
  }

  /** Token 0 capitalized with no prefix; every later token capitalized and, if it starts with
      a digit, prefixed with "_". */
  function MapToPascal(t: seq<string>): (r: seq<string>)
    ensures |r| == |t|
    ensures |t| > 0 ==> r[0] == Capitalize(t[0])
    ensures forall i :: 1 <= i < |t| ==> r[i] == PrependIfStartsWithDigit(Capitalize(t[i]), "_")
  {
    seq(|t|, i requires 0 <= i < |t| =>
      if i == 0 then Capitalize(t[i]) else PrependIfStartsWithDigit(Capitalize(t[i]), "_"))
  }

  function MapToOnlyChars(t: seq<string>, chars: set<char>): (r: seq<string>)
    ensures |r| == |t| && forall i :: 0 <= i < |t| ==> r[i] == KeepChars(t[i], chars)
  {
    seq(|t|, i requires 0 <= i < |t| => KeepChars(t[i], chars))
  }

  // ---------------------------------------------------------------------------------------
  // Tokenize / _Tokenize (types.ts:64-84)
  // ---------------------------------------------------------------------------------------

  predicate IsLowerPiece(p: string) { |p| == 1 && IsLower(p[0]) }
  predicate IsUpperPiece(p: string) { |p| == 1 && IsUpper(p[0]) }
  predicate IsDigitPiece(p: string) { |p| == 1 && IsDigit(p[0]) }
  predicate IsDelimiterPiece(p: string, delims: set<char>) { |p| == 1 && p[0] in delims }

  /** `_Tokenize<S, D, Acc, Tokens>` over the pieces of `Split<S, "">`, with its five cases in
      the source's order. The final accumulator is always flushed, so the tokens so far are a
      prefix of the result and the result is one longer at least. */
  function TokenizeFrom(p: seq<string>, delims: set<char>, acc: string, tokens: seq<string>): (r: seq<string>)
    ensures |r| >= |tokens| + 1 && r[..|tokens|] == tokens
    decreases |p|
  {
    if p == [] then tokens + [acc]
    else if |p| >= 2 && IsLowerPiece(p[0]) && IsUpperPiece(p[1]) then
      TokenizeFrom(p[1..], delims, "", tokens + [acc + p[0]])
    else if |p| >= 2 && IsDigitPiece(p[0]) && (IsUpperPiece(p[1]) || IsLowerPiece(p[1])) then
      TokenizeFrom(p[1..], delims, "", tokens + [acc + p[0]])
    else if |p| >= 3 && IsUpperPiece(p[0]) && IsUpperPiece(p[1]) && IsLowerPiece(p[2]) then
      TokenizeFrom(p[1..], delims, "", tokens + [acc + p[0]])
    else if IsDelimiterPiece(p[0], delims) then
      TokenizeFrom(p[1..], delims, "", tokens + [acc])
    else
      TokenizeFrom(p[1..], delims, acc + p[0], tokens)
  }

  /** `Tokenize<S, D>`. */
  function Tokenize(s: string, delims: set<char>): (r: seq<string>)
    ensures |r| >= 1
  {
    TokenizeFrom(Split(s, ""), delims, "", [])
  }

  /** The accumulator form computes the reference token list: `_Tokenize` over the characters
      of `s`, started with `acc` and `tokens`, yields `tokens` followed by the tokens of `s`
      with `acc` in front of the first one. */
  lemma {:induction false} TokenizeFromIsTokens(p: seq<string>, s: string, delims: set<char>, acc: string, tokens: seq<string>)
    requires |p| == |s| && forall i :: 0 <= i < |s| ==> p[i] == [s[i]]
    ensures TokenizeFrom(p, delims, acc, tokens) == tokens + PrependFirst(acc, Tokens(s, delims, WithDigitRule))
    decreases |s|
  {
    if s == [] {
      assert acc + "" == acc;
    } else {
      var p', s' := p[1..], s[1..];
      assert forall i :: 0 <= i < |s'| ==> p'[i] == [s'[i]] by {
        forall i | 0 <= i < |s'| ensures p'[i] == [s'[i]] {
          assert p'[i] == p[i + 1];
        }
      }
      var rest := Tokens(s', delims, WithDigitRule);
      assert p[0] == [s[0]];
      if |s| >= 2 { assert p[1] == [s[1]]; }
      if |s| >= 3 { assert p[2] == [s[2]]; }
      match ActionAt(s, delims, WithDigitRule)
      case Close =>
        TokenizeFromIsTokens(p', s', delims, "", tokens + [acc + p[0]]);
        PrependFirstLaws(acc, "", [s[0]], rest);
        assert acc + "" == acc;
      case Drop =>
        TokenizeFromIsTokens(p', s', delims, "", tokens + [acc]);
        PrependFirstLaws(acc, "", "", rest);
        assert acc + "" == acc;
      case Keep =>
        TokenizeFromIsTokens(p', s', delims, acc + p[0], tokens);
        PrependFirstLaws(acc, [s[0]], "", rest);
    }
  }

  /** `Tokenize` is the reference scanner with the digit->letter rule. */
  lemma TokenizeIsTokens(s: string, delims: set<char>)
    ensures Tokenize(s, delims) == Tokens(s, delims, WithDigitRule)
  {
    SplitIntoChars(s);
    TokenizeFromIsTokens(Split(s, ""), s, delims, "", []);
    var t := Tokens(s, delims, WithDigitRule);
    PrependFirstLaws("", "", "", t);
  }

  /** The final accumulator is always flushed: at least one token, and "" for the empty input. */
  lemma TokenizeEmpty(delims: set<char>)
    ensures Tokenize("", delims) == [""]
  {
    TokenizeIsTokens("", delims);
  }

  /** "camelCase": a lower-case character followed by an upper-case one ends its token. */
  lemma TokenizeLowerUpper(x: string, y: string, delims: set<char>)
    requires |x| >= 1 && |y| >= 1
    requires IsLower(x[|x| - 1]) && IsUpper(y[0]) && x[|x| - 1] !in delims
    ensures Tokenize(x + y, delims) == Tokenize(x, delims) + Tokenize(y, delims)
  {
    TokenizeIsTokens(x + y, delims);
    TokenizeIsTokens(x, delims);
    TokenizeIsTokens(y, delims);
    LowerUpperSplits(x, y, delims, WithDigitRule);
  }

  /** "camel200Case": a digit followed by a letter ends its token. */
  lemma TokenizeDigitLetter(x: string, y: string, delims: set<char>)
    requires |x| >= 1 && |y| >= 1
    requires IsDigit(x[|x| - 1]) && IsLetter(y[0]) && x[|x| - 1] !in delims
    ensures Tokenize(x + y, delims) == Tokenize(x, delims) + Tokenize(y, delims)
  {
    TokenizeIsTokens(x + y, delims);
    TokenizeIsTokens(x, delims);
    TokenizeIsTokens(y, delims);
    DigitLetterSplits(x, y, delims);
  }

  /** "CAMELCase": in UPPER,UPPER,lower the first capital ends its token. */
  lemma TokenizeAcronym(x: string, y: string, delims: set<char>)
    requires |x| >= 1 && |y| >= 2
    requires IsUpper(x[|x| - 1]) && IsUpper(y[0]) && IsLower(y[1]) && x[|x| - 1] !in delims
    ensures Tokenize(x + y, delims) == Tokenize(x, delims) + Tokenize(y, delims)
  {
    TokenizeIsTokens(x + y, delims);
    TokenizeIsTokens(x, delims);
    TokenizeIsTokens(y, delims);
    AcronymSplits(x, y, delims, WithDigitRule);
  }

  /** "camel_case": a delimiter is consumed and closes the current token, even an empty one. */
  lemma TokenizeDelimiter(x: string, c: char, y: string, delims: set<char>)
    requires c in delims && !IsAlnum(c)
    ensures Tokenize(x + [c] + y, delims) == Tokenize(x, delims) + Tokenize(y, delims)
  {
    TokenizeIsTokens(x + [c] + y, delims);
    TokenizeIsTokens(x, delims);
    TokenizeIsTokens(y, delims);
    DelimiterSplits(x, c, y, delims, WithDigitRule);
  }

  /** Character conservation: no token contains a delimiter, and the tokens put together are
      the input without its delimiters. */
  lemma TokenizeConservesCharacters(s: string, delims: set<char>)
    requires NoAlnum(delims)
    ensures Concat(Tokenize(s, delims)) == RemoveChars(s, delims)
    ensures forall i :: 0 <= i < |Tokenize(s, delims)| ==> FreeOf(Tokenize(s, delims)[i], delims)
  {
    TokenizeIsTokens(s, delims);
    TokensConcat(s, delims, WithDigitRule);
    TokensFreeOfDelimiters(s, delims, WithDigitRule);
  }

  /** With a letter among the delimiters, the case rules win over the delimiter rule: the
      delimiter 'a' of "aB" is kept as a token of its own. */
  lemma AlnumDelimiterIsKept()
    ensures Tokenize("aB", {'a'}) == ["a", "B"]
  {
    TokenizeIsTokens("aB", {'a'});
    assert "aB"[1..] == "B";
    assert "B"[1..] == "";
    assert ActionAt("aB", {'a'}, WithDigitRule) == Close;
    assert ActionAt("B", {'a'}, WithDigitRule) == Keep;
    assert Tokens("B", {'a'}, WithDigitRule) == PrependFirst("B", [""]);
    assert "B" + "" == "B";
    assert Tokens("aB", {'a'}, WithDigitRule) == [['a']] + Tokens("B", {'a'}, WithDigitRule);
  }

  // ---------------------------------------------------------------------------------------
  // Join / _Join (types.ts:88-94)
  // ---------------------------------------------------------------------------------------

  /** The separator exactly between consecutive tokens, never leading or trailing. */
  function Interleave(p: seq<string>, d: string): string
    decreases |p|
  {
    if |p| == 0 then "" else if |p| == 1 then p[0] else p[0] + d + Interleave(p[1..], d)
  }

  lemma InterleaveCons(x: string, p: seq<string>, d: string)
    requires p != []
    ensures Interleave([x] + p, d) == x + d + Interleave(p, d)
  {
    assert ([x] + p)[1..] == p;
  }

  /** `_Join<P, D, J>`: while `J` is still "" the next token replaces it, afterwards the separator
      and the token are appended; so once `J` is non-empty the result is `J` and the remaining
      tokens with the separator between each pair. */
  function JoinFrom(p: seq<string>, d: string, j: string): (r: string)
    ensures j != "" ==> r == Interleave([j] + p, d)
    decreases |p|
  {
    if p == [] then
      assert [j] + p == [j];
      j
    else if j == "" then JoinFrom(p[1..], d, p[0])
    else
      var j' := j + d + p[0];
      assert j' != "";
      var r := JoinFrom(p[1..], d, j');
      assert r == Interleave([j'] + p[1..], d);
      assert [p[0]] + p[1..] == p;
      if p[1..] == [] then
        assert [j'] + p[1..] == [j'];
        InterleaveCons(j, p, d);
        r
      else
        InterleaveCons(j', p[1..], d);
        InterleaveCons(p[0], p[1..], d);
        InterleaveCons(j, p, d);
        r
  }

  /** `Join<P, D>`: "" for no tokens, the token itself for one, and the separator only between
      tokens when the first token is non-empty (which holds when every token is). */
  function Join(p: seq<string>, d: string): (r: string)
    ensures p == [] ==> r == ""
    ensures |p| == 1 ==> r == p[0]
    ensures |p| >= 1 && p[0] != "" ==> r == Interleave(p, d)
  {
    if |p| >= 1 && p[0] != "" then
      assert [p[0]] + p[1..] == p;
      JoinFrom(p, d, "")
    else
      assert |p| == 1 ==> p[1..] == [] && JoinFrom(p, d, "") == JoinFrom([], d, "");
      JoinFrom(p, d, "")
  }

  /** A leading empty token leaves no trace: `Join(["", "a"], "-")` is "a", not "-a". */
  lemma JoinSkipsLeadingEmpty(p: seq<string>, d: string)
    ensures Join([""] + p, d) == Join(p, d)
  {
    assert ([""] + p)[1..] == p;
  }

  /** With the empty separator `Join` is plain concatenation. */
  lemma {:induction false} JoinEmptySeparator(p: seq<string>)
    ensures Join(p, "") == Concat(p)
    decreases |p|
  {
    if p != [] {
      if p[0] == "" {
        JoinSkipsLeadingEmpty(p[1..], "");
        assert p == [""] + p[1..];
        JoinEmptySeparator(p[1..]);
        ConcatCons("", p[1..]);
      } else {
        InterleaveEmptySeparator(p);
      }
    }
  }

  lemma {:induction false} InterleaveEmptySeparator(p: seq<string>)
    ensures Interleave(p, "") == Concat(p)
    decreases |p|
  {
    if |p| == 1 {
      assert p == [p[0]] + [];
      ConcatCons(p[0], []);
    } else if |p| > 1 {
      InterleaveEmptySeparator(p[1..]);
      assert p == [p[0]] + p[1..];
      ConcatCons(p[0], p[1..]);
    }
  }

  // ---------------------------------------------------------------------------------------
  // SplitStrip (types.ts:86)
  // ---------------------------------------------------------------------------------------

  /** Every character of `t` is in `chars`. */
  predicate OnlyChars(t: string, chars: set<char>) {
    forall j :: 0 <= j < |t| ==> t[j] in chars
  }

  /** What `SplitStrip` yields with the default character set: non-empty alphanumeric words. */
  predicate Words(w: seq<string>) {
    forall i :: 0 <= i < |w| ==> w[i] != "" && OnlyChars(w[i], AlphanumericChars)
  }

  /** `SplitStrip<S, D, C>`: tokenize, keep only the characters of `chars` in each token, drop
      the tokens left empty. */
  function SplitStrip(s: string, delims: set<char>, chars: set<char>): (r: seq<string>)
    ensures forall i :: 0 <= i < |r| ==> r[i] != "" && OnlyChars(r[i], chars)
    ensures s == [] ==> r == []
  {
    var t := Tokenize(s, delims);
    if s == [] then
      TokenizeEmpty(delims);
      assert KeepChars("", chars) == "";
      assert MapToOnlyChars(t, chars) == [""];
      WithoutCons("", "", []);
      WithoutEmpty(MapToOnlyChars(t, chars))
    else
      WithoutEmpty(MapToOnlyChars(t, chars))
  }

  lemma {:induction false} ConcatMapToOnlyChars(t: seq<string>, chars: set<char>)
    ensures Concat(MapToOnlyChars(t, chars)) == KeepChars(Concat(t), chars)
    decreases |t|
  {
    if t == [] {
      assert KeepChars("", chars) == "";
    } else {
      ConcatMapToOnlyChars(t[1..], chars);
      assert MapToOnlyChars(t, chars) == [KeepChars(t[0], chars)] + MapToOnlyChars(t[1..], chars);
      ConcatCons(KeepChars(t[0], chars), MapToOnlyChars(t[1..], chars));
      assert t == [t[0]] + t[1..];
      ConcatCons(t[0], t[1..]);
      KeepCharsAppend(t[0], Concat(t[1..]), chars);
    }
  }

  /** Stripping tokens that hold the input without its delimiters keeps exactly the
      characters of `chars` in the input, in order. */
  lemma StripConcat(t: seq<string>, s: string, delims: set<char>, chars: set<char>)
    requires Concat(t) == RemoveChars(s, delims) && chars * delims == {}
    ensures Concat(WithoutEmpty(MapToOnlyChars(t, chars))) == KeepChars(s, chars)
  {
    WithoutEmptyConcat(MapToOnlyChars(t, chars));
    ConcatMapToOnlyChars(t, chars);
    KeepCharsRemoveChars(s, delims, chars);
  }

  /** Character conservation through stripping: the words put together are exactly the
      characters of `chars` in the input, in order. */
  lemma SplitStripConcat(s: string, delims: set<char>, chars: set<char>)
    requires NoAlnum(delims) && chars * delims == {}
    ensures Concat(SplitStrip(s, delims, chars)) == KeepChars(s, chars)
  {
    TokenizeConservesCharacters(s, delims);
    StripConcat(Tokenize(s, delims), s, delims, chars);
  }

  /** With the default delimiters and characters, the words are the letters and digits of the
      input. */
  lemma SplitStripDefaultConcat(s: string, delims: set<char>)
    requires NoAlnum(delims)
    ensures Concat(SplitStrip(s, delims, AlphanumericChars)) == KeepChars(s, AlphanumericChars)
  {
    assert AlphanumericChars * delims == {} by {
      forall c | c in AlphanumericChars * delims ensures false {
        AlphanumericCharsAre(c);
      }
    }
    SplitStripConcat(s, delims, AlphanumericChars);
  }

  /** Stripping treats every token on its own, so it distributes over concatenated token lists. */
  lemma StripAppend(a: seq<string>, b: seq<string>, chars: set<char>)
    ensures WithoutEmpty(MapToOnlyChars(a + b, chars)) == WithoutEmpty(MapToOnlyChars(a, chars)) + WithoutEmpty(MapToOnlyChars(b, chars))
  {
    assert MapToOnlyChars(a + b, chars) == MapToOnlyChars(a, chars) + MapToOnlyChars(b, chars);
    WithoutAppend("", MapToOnlyChars(a, chars), MapToOnlyChars(b, chars));
  }

  /** Case rules and delimiters split the input into parts that are stripped independently;
      `SplitStrip` of that concatenation is the concatenation of the parts' words. */
  lemma SplitStripAppend(x: string, y: string, z: string, delims: set<char>, chars: set<char>)
    requires Tokenize(z, delims) == Tokenize(x, delims) + Tokenize(y, delims)
    ensures SplitStrip(z, delims, chars) == SplitStrip(x, delims, chars) + SplitStrip(y, delims, chars)
  {
    StripAppend(Tokenize(x, delims), Tokenize(y, delims), chars);
  }

  /** A word in which no rule fires and every character is kept is its own single word. */
  lemma SplitStripWord(w: string, delims: set<char>, chars: set<char>)
    requires w != [] && AllKeep(w, delims, WithDigitRule) && OnlyChars(w, chars)
    ensures SplitStrip(w, delims, chars) == [w]
  {
    TokenizeIsTokens(w, delims);
    AllKeepSingleToken(w, delims, WithDigitRule);
    KeepCharsAll(w, chars);
    assert MapToOnlyChars([w], chars) == [w];
    WithoutCons("", w, []);
  }

  // ---------------------------------------------------------------------------------------
  // Building blocks for the conventions
  // ---------------------------------------------------------------------------------------

  const LowerOrDigit: set<char> := set c: char | IsLower(c) || IsDigit(c)
  const UpperOrDigit: set<char> := set c: char | IsUpper(c) || IsDigit(c)

  function CharsOf(t: string): set<char> {
    set c | c in t
  }

  lemma {:induction false} InterleaveOnlyChars(q: seq<string>, sep: string, chars: set<char>)
    requires forall i :: 0 <= i < |q| ==> OnlyChars(q[i], chars)
    requires OnlyChars(sep, chars)
    ensures OnlyChars(Interleave(q, sep), chars)
    decreases |q|
  {
    if |q| > 1 {
      InterleaveOnlyChars(q[1..], sep, chars);
      var r := Interleave(q, sep);
      assert r == q[0] + sep + Interleave(q[1..], sep);
      assert OnlyChars(q[0], chars);
    }
  }

  lemma {:induction false} KeepCharsInterleave(q: seq<string>, sep: string, chars: set<char>)
    requires forall j :: 0 <= j < |sep| ==> sep[j] !in chars
    ensures KeepChars(Interleave(q, sep), chars) == KeepChars(Concat(q), chars)
    decreases |q|
  {
    if |q| == 0 {
    } else if |q| == 1 {
      assert q == [q[0]] + [];
      ConcatCons(q[0], []);
      assert q[0] + "" == q[0];
    } else {
      KeepCharsInterleave(q[1..], sep, chars);
      assert q == [q[0]] + q[1..];
      ConcatCons(q[0], q[1..]);
      KeepCharsAppend(q[0] + sep, Interleave(q[1..], sep), chars);
      KeepCharsAppend(q[0], sep, chars);
      KeepCharsAppend(q[0], Concat(q[1..]), chars);
      KeepCharsNone(sep, chars);
    }
  }

  lemma {:induction false} LowercaseInterleave(q: seq<string>, sep: string)
    ensures Lowercase(Interleave(q, sep)) == Interleave(MapToLowercase(q), Lowercase(sep))
    decreases |q|
  {
    if |q| > 1 {
      LowercaseInterleave(q[1..], sep);
      assert MapToLowercase(q)[1..] == MapToLowercase(q[1..]);
      LowercaseAppend(q[0] + sep, Interleave(q[1..], sep));
      LowercaseAppend(q[0], sep);
    }
  }

  lemma {:induction false} LowercaseConcat(q: seq<string>)
    ensures Lowercase(Concat(q)) == Concat(MapToLowercase(q))
    decreases |q|
  {
    if q != [] {
      LowercaseConcat(q[1..]);
      assert MapToLowercase(q)[1..] == MapToLowercase(q[1..]);
      LowercaseAppend(q[0], Concat(q[1..]));
    }
  }

  lemma {:induction false} UppercaseConcat(q: seq<string>)
    ensures Uppercase(Concat(q)) == Concat(MapToUppercase(q))
    decreases |q|
  {
    if q != [] {
      UppercaseConcat(q[1..]);
      assert MapToUppercase(q)[1..] == MapToUppercase(q[1..]);
      UppercaseAppend(q[0], Concat(q[1..]));
    }
  }

  lemma {:induction false} ConcatOnlyChars(q: seq<string>, chars: set<char>)
    requires forall i :: 0 <= i < |q| ==> OnlyChars(q[i], chars)
    ensures OnlyChars(Concat(q), chars)
    decreases |q|
  {
    if q != [] {
      ConcatOnlyChars(q[1..], chars);
      assert OnlyChars(q[0], chars);
    }
  }

  /** Case mapping leaves letters letters and digits digits, so it commutes with keeping the
      alphanumeric characters. */
  lemma {:induction false} KeepAlnumLowercase(t: string)
    ensures KeepChars(Lowercase(t), AlphanumericChars) == Lowercase(KeepChars(t, AlphanumericChars))
    decreases |t|
  {
    if t != [] {
      KeepAlnumLowercase(t[1..]);
      assert t == [t[0]] + t[1..];
      LowercaseAppend([t[0]], t[1..]);
      assert Lowercase(t) == [ToLower(t[0])] + Lowercase(t[1..]);
      KeepCharsCons(ToLower(t[0]), Lowercase(t[1..]), AlphanumericChars);
      KeepCharsCons(t[0], t[1..], AlphanumericChars);
      AlphanumericCharsAre(t[0]);
      AlphanumericCharsAre(ToLower(t[0]));
      var head := if t[0] in AlphanumericChars then [t[0]] else [];
      LowercaseAppend(head, KeepChars(t[1..], AlphanumericChars));
    }
  }

  /** The transformed words, for a map that keeps every word alphanumeric and non-empty. */
  lemma LowercaseWords(w: seq<string>)
    requires Words(w)
    ensures forall i :: 0 <= i < |w| ==> MapToLowercase(w)[i] != "" && OnlyChars(MapToLowercase(w)[i], LowerOrDigit)
  {
    forall i, j | 0 <= i < |w| && 0 <= j < |w[i]| ensures MapToLowercase(w)[i][j] in LowerOrDigit {
      AlphanumericCharsAre(w[i][j]);
    }
  }

  lemma UppercaseWords(w: seq<string>)
    requires Words(w)
    ensures forall i :: 0 <= i < |w| ==> MapToUppercase(w)[i] != "" && OnlyChars(MapToUppercase(w)[i], UpperOrDigit)
  {
    forall i, j | 0 <= i < |w| && 0 <= j < |w[i]| ensures MapToUppercase(w)[i][j] in UpperOrDigit {
      AlphanumericCharsAre(w[i][j]);
    }
  }

  lemma CapitalWords(w: seq<string>)
    requires Words(w)
    ensures forall i :: 0 <= i < |w| ==> MapToCapital(w)[i] != "" && OnlyChars(MapToCapital(w)[i], AlphanumericChars)
    ensures MapToLowercase(MapToCapital(w)) == MapToLowercase(w)
  {
    forall i, j | 0 <= i < |w| && 0 <= j < |w[i]| ensures MapToCapital(w)[i][j] in AlphanumericChars {
      var t := w[i];
      AlphanumericCharsAre(t[j]);
      assert Lowercase(Capitalize(t))[j] == Lowercase(t)[j];
      AlphanumericCharsAre(Capitalize(t)[j]);
    }
  }

  /** Joining lower-cased words: the separator exactly between words, the output alphabet, and
      the letters and digits of the input, lower-cased. */
  lemma LowerJoinWords(w: seq<string>, sep: string)
    requires Words(w)
    ensures Join(MapToLowercase(w), sep) == Interleave(MapToLowercase(w), sep)
    ensures OnlyChars(Join(MapToLowercase(w), sep), LowerOrDigit + CharsOf(sep))
    ensures NoAlnum(CharsOf(sep)) ==> KeepChars(Join(MapToLowercase(w), sep), AlphanumericChars) == Lowercase(Concat(w))
  {
    var q := MapToLowercase(w);
    LowercaseWords(w);
    InterleaveOnlyChars(q, sep, LowerOrDigit + CharsOf(sep));
    if NoAlnum(CharsOf(sep)) {
      forall j | 0 <= j < |sep| ensures sep[j] !in AlphanumericChars {
        assert sep[j] in CharsOf(sep);
        AlphanumericCharsAre(sep[j]);
      }
      KeepCharsInterleave(q, sep, AlphanumericChars);
      LowercaseConcat(w);
      ConcatOnlyChars(w, AlphanumericChars);
      KeepCharsAll(Concat(w), AlphanumericChars);
      KeepAlnumLowercase(Concat(w));
    }
  }

  lemma {:induction false} KeepAlnumUppercase(t: string)
    ensures KeepChars(Uppercase(t), AlphanumericChars) == Uppercase(KeepChars(t, AlphanumericChars))
    decreases |t|
  {
    if t != [] {
      KeepAlnumUppercase(t[1..]);
      assert t == [t[0]] + t[1..];
      UppercaseAppend([t[0]], t[1..]);
      assert Uppercase(t) == [ToUpper(t[0])] + Uppercase(t[1..]);
      KeepCharsCons(ToUpper(t[0]), Uppercase(t[1..]), AlphanumericChars);
      KeepCharsCons(t[0], t[1..], AlphanumericChars);
      AlphanumericCharsAre(t[0]);
      AlphanumericCharsAre(ToUpper(t[0]));
      var head := if t[0] in AlphanumericChars then [t[0]] else [];
      UppercaseAppend(head, KeepChars(t[1..], AlphanumericChars));
    }
  }

  /** Case mapping keeps a separator free of letters and digits. */
  lemma LowercaseNoAlnum(sep: string)
    ensures NoAlnum(CharsOf(sep)) ==> NoAlnum(CharsOf(Lowercase(sep)))
  {
    forall c | NoAlnum(CharsOf(sep)) && c in CharsOf(Lowercase(sep)) ensures !IsAlnum(c) {
      var j :| 0 <= j < |sep| && Lowercase(sep)[j] == c;
      assert sep[j] in CharsOf(sep);
    }
  }

  /** Joining upper-cased words: the separator between words, the output alphabet, the
      letters and digits of the input upper-cased, and the same text as the lower-case join
      apart from case. */
  lemma UpperJoinWords(w: seq<string>, sep: string)
    requires Words(w)
    ensures Join(MapToUppercase(w), sep) == Interleave(MapToUppercase(w), sep)
    ensures OnlyChars(Join(MapToUppercase(w), sep), UpperOrDigit + CharsOf(sep))
    ensures NoAlnum(CharsOf(sep)) ==> KeepChars(Join(MapToUppercase(w), sep), AlphanumericChars) == Uppercase(Concat(w))
    ensures Lowercase(Join(MapToUppercase(w), sep)) == Join(MapToLowercase(w), Lowercase(sep))
  {
    var q := MapToUppercase(w);
    UppercaseWords(w);
    InterleaveOnlyChars(q, sep, UpperOrDigit + CharsOf(sep));
    if NoAlnum(CharsOf(sep)) {
      forall j | 0 <= j < |sep| ensures sep[j] !in AlphanumericChars {
        assert sep[j] in CharsOf(sep);
        AlphanumericCharsAre(sep[j]);
      }
      KeepCharsInterleave(q, sep, AlphanumericChars);
      UppercaseConcat(w);
      ConcatOnlyChars(w, AlphanumericChars);
      KeepCharsAll(Concat(w), AlphanumericChars);
      KeepAlnumUppercase(Concat(w));
    }
    LowercaseInterleave(q, sep);
    forall i | 0 <= i < |w| ensures MapToLowercase(q)[i] == MapToLowercase(w)[i] {
      LowercaseOfUppercase(w[i]);
    }
    assert MapToLowercase(q) == MapToLowercase(w);
    LowercaseWords(w);
  }

  /** Joining capitalized words: the separator between words, the output alphabet, and the
      same text as the lower-case join apart from case. */
  lemma CapitalJoinWords(w: seq<string>, sep: string)
    requires Words(w)
    ensures Join(MapToCapital(w), sep) == Interleave(MapToCapital(w), sep)
    ensures OnlyChars(Join(MapToCapital(w), sep), AlphanumericChars + CharsOf(sep))
    ensures Lowercase(Join(MapToCapital(w), sep)) == Join(MapToLowercase(w), Lowercase(sep))
  {
    var q := MapToCapital(w);
    CapitalWords(w);
    LowercaseWords(w);
    InterleaveOnlyChars(q, sep, AlphanumericChars + CharsOf(sep));
    LowercaseInterleave(q, sep);
  }

  /** After an upper-case-free head comes a separator without capitals and lower-case words:
      nothing but the head's first character can be upper-case. */
  lemma {:induction false} NoUpperAfterHead(h: string, q: seq<string>, sep: string)
    requires forall i :: 1 <= i < |h| ==> !IsUpper(h[i])
    requires forall j :: 0 <= j < |sep| ==> !IsUpper(sep[j])
    requires forall i :: 0 <= i < |q| ==> OnlyChars(q[i], LowerOrDigit + CharsOf(sep))
    ensures forall i :: 1 <= i < |h + sep + Interleave(q, sep)| ==> !IsUpper((h + sep + Interleave(q, sep))[i])
  {
    var chars := LowerOrDigit + CharsOf(sep);
    var rest := Interleave(q, sep);
    InterleaveOnlyChars(q, sep, chars);
    var r := h + sep + rest;
    forall i | 1 <= i < |r| ensures !IsUpper(r[i]) {
      if i >= |h| + |sep| {
        assert r[i] == rest[i - |h| - |sep|];
        assert rest[i - |h| - |sep|] in chars;
      } else if i >= |h| {
        assert r[i] == sep[i - |h|];
      }
    }
  }

  /** Joining with the first word capitalized and the rest lower-cased: the separator between
      words, the same text as the lower-case join apart from case, and no upper-case letter
      after the first character. */
  lemma {:induction false} SentenceJoinWords(w: seq<string>, sep: string)
    requires Words(w)
    requires forall j :: 0 <= j < |sep| ==> !IsUpper(sep[j])
    ensures Join(MapToSentence(w), sep) == Interleave(MapToSentence(w), sep)
    ensures Lowercase(Join(MapToSentence(w), sep)) == Join(MapToLowercase(w), Lowercase(sep))
    ensures forall i :: 1 <= i < |Join(MapToSentence(w), sep)| ==> !IsUpper(Join(MapToSentence(w), sep)[i])
  {
    var q := MapToSentence(w);
    LowercaseWords(w);
    if |w| > 0 {
      assert q[0] == Capitalize(w[0]) != "";
      forall i | 0 <= i < |w| ensures MapToLowercase(q)[i] == MapToLowercase(w)[i] {
        if i > 0 {
          LowercaseIdempotent(w[i]);
        }
      }
      assert MapToLowercase(q) == MapToLowercase(w);
      LowercaseInterleave(q, sep);
      if |w| > 1 {
        assert q[1..] == MapToLowercase(w[1..]);
        LowercaseWords(w[1..]);
        assert Interleave(q, sep) == q[0] + sep + Interleave(q[1..], sep);
        NoUpperAfterHead(q[0], q[1..], sep);
      }
    }
  }

  /** Each '_' is immediately followed by a digit. */
  predicate UnderscoresBeforeDigits(t: string) {
    forall i :: 0 <= i < |t| && t[i] == '_' ==> i + 1 < |t| && IsDigit(t[i + 1])
  }

  /** A later camel or pascal word: capitalized, and marked with '_' only when it starts with a
      digit; its letters and digits are the word's own. */
  lemma PrefixedCapital(t: string)
    requires t != "" && OnlyChars(t, AlphanumericChars)
    ensures PrependIfStartsWithDigit(Capitalize(t), "_") != ""
    ensures OnlyChars(PrependIfStartsWithDigit(Capitalize(t), "_"), AlphanumericChars + {'_'})
    ensures UnderscoresBeforeDigits(PrependIfStartsWithDigit(Capitalize(t), "_"))
    ensures Lowercase(KeepChars(PrependIfStartsWithDigit(Capitalize(t), "_"), AlphanumericChars)) == Lowercase(t)
  {
    var c := Capitalize(t);
    CapitalWords([t]);
    assert MapToCapital([t])[0] == c;
    assert OnlyChars(c, AlphanumericChars);
    KeepCharsAll(c, AlphanumericChars);
    AlphanumericCharsAre('_');
    forall i | 0 <= i < |c| ensures c[i] != '_' {
      AlphanumericCharsAre(c[i]);
    }
    if IsDigit(c[0]) {
      var u := "_" + c;
      assert u == ['_'] + c;
      KeepCharsCons('_', c, AlphanumericChars);
      assert [] + c == c;
    }
  }

  lemma {:induction false} ConcatUnderscores(q: seq<string>)
    requires forall i :: 0 <= i < |q| ==> UnderscoresBeforeDigits(q[i])
    ensures UnderscoresBeforeDigits(Concat(q))
    decreases |q|
  {
    if q != [] {
      ConcatUnderscores(q[1..]);
      assert UnderscoresBeforeDigits(q[0]);
      var r := Concat(q);
      assert r == q[0] + Concat(q[1..]);
      forall i | 0 <= i < |r| && r[i] == '_' ensures i + 1 < |r| && IsDigit(r[i + 1]) {
        if i < |q[0]| {
          assert q[0][i] == '_';
        } else {
          assert Concat(q[1..])[i - |q[0]|] == '_';
        }
      }
    }
  }

  /** Letters and digits, compared without case, survive a word-by-word transformation that
      keeps them in each word. */
  lemma {:induction false} ConcatKeepsAlnum(q: seq<string>, w: seq<string>)
    requires |q| == |w|
    requires forall i :: 0 <= i < |q| ==> Lowercase(KeepChars(q[i], AlphanumericChars)) == Lowercase(w[i])
    requires forall i :: 0 <= i < |w| ==> OnlyChars(w[i], AlphanumericChars)
    ensures Lowercase(KeepChars(Concat(q), AlphanumericChars)) == Lowercase(Concat(w))
    decreases |q|
  {
    if q == [] {
      assert KeepChars("", AlphanumericChars) == "";
    } else {
      ConcatKeepsAlnum(q[1..], w[1..]);
      KeepCharsAppend(q[0], Concat(q[1..]), AlphanumericChars);
      LowercaseAppend(KeepChars(q[0], AlphanumericChars), KeepChars(Concat(q[1..]), AlphanumericChars));
      LowercaseAppend(w[0], Concat(w[1..]));
    }
  }

  /** Camel joining: plain concatenation, the output alphabet, '_' only before a digit, no
      capital first character, and the letters and digits of the words apart from case. */
  lemma CamelJoinWords(w: seq<string>)
    requires Words(w)
    ensures Join(MapToCamel(w), "") == Concat(MapToCamel(w))
    ensures OnlyChars(Join(MapToCamel(w), ""), AlphanumericChars + {'_'})
    ensures UnderscoresBeforeDigits(Join(MapToCamel(w), ""))
    ensures |Join(MapToCamel(w), "")| > 0 ==> !IsUpper(Join(MapToCamel(w), "")[0])
    ensures Lowercase(KeepChars(Join(MapToCamel(w), ""), AlphanumericChars)) == Lowercase(Concat(w))
  {
    var q := MapToCamel(w);
    JoinEmptySeparator(q);
    LowercaseWords(w);
    forall i | 0 <= i < |q|
      ensures OnlyChars(q[i], AlphanumericChars + {'_'}) && UnderscoresBeforeDigits(q[i])
      ensures Lowercase(KeepChars(q[i], AlphanumericChars)) == Lowercase(w[i])
    {
      if i == 0 {
        assert OnlyChars(q[0], LowerOrDigit);
        forall j | 0 <= j < |q[0]| ensures q[0][j] in AlphanumericChars && q[0][j] != '_' {
          assert q[0][j] in LowerOrDigit;
        }
        KeepCharsAll(q[0], AlphanumericChars);
        LowercaseIdempotent(w[0]);
      } else {
        PrefixedCapital(w[i]);
      }
    }
    ConcatOnlyChars(q, AlphanumericChars + {'_'});
    ConcatUnderscores(q);
    ConcatKeepsAlnum(q, w);
    if |w| > 0 {
      assert q[0] != "";
      assert Concat(q) == q[0] + Concat(q[1..]);
      assert Concat(q)[0] == Lowercase(w[0])[0];
    }
  }

  /** Pascal joining: as camel joining, but with no lower-case first character. */
  lemma PascalJoinWords(w: seq<string>)
    requires Words(w)
    ensures Join(MapToPascal(w), "") == Concat(MapToPascal(w))
    ensures OnlyChars(Join(MapToPascal(w), ""), AlphanumericChars + {'_'})
    ensures UnderscoresBeforeDigits(Join(MapToPascal(w), ""))
    ensures |Join(MapToPascal(w), "")| > 0 ==> !IsLower(Join(MapToPascal(w), "")[0])
    ensures Lowercase(KeepChars(Join(MapToPascal(w), ""), AlphanumericChars)) == Lowercase(Concat(w))
  {
    var q := MapToPascal(w);
    JoinEmptySeparator(q);
    CapitalWords(w);
    forall i | 0 <= i < |q|
      ensures OnlyChars(q[i], AlphanumericChars + {'_'}) && UnderscoresBeforeDigits(q[i])
      ensures Lowercase(KeepChars(q[i], AlphanumericChars)) == Lowercase(w[i])
    {
      if i == 0 {
        assert q[0] == MapToCapital(w)[0];
        forall j | 0 <= j < |q[0]| ensures q[0][j] in AlphanumericChars && q[0][j] != '_' {
          AlphanumericCharsAre(q[0][j]);
        }
        KeepCharsAll(q[0], AlphanumericChars);
      } else {
        PrefixedCapital(w[i]);
      }
    }
    ConcatOnlyChars(q, AlphanumericChars + {'_'});
    ConcatUnderscores(q);
    ConcatKeepsAlnum(q, w);
    if |w| > 0 {
      assert q[0] != "";
      assert Concat(q) == q[0] + Concat(q[1..]);
      assert Concat(q)[0] == Capitalize(w[0])[0];
    }
  }

  // ---------------------------------------------------------------------------------------
  // The conventions (types.ts:96-110)
  // ---------------------------------------------------------------------------------------

  /** The default delimiter set: underscore, space, hyphen and dot. */
  const Delimiters: set<char> := {'_', ' ', '-', '.'}

  lemma DelimitersAreNotAlnum()
    ensures NoAlnum(Delimiters)
  {
  }

  /** The default `SplitStrip` yields words, and with non-alphanumeric delimiters they hold
      every letter and digit of the input in order. */
  lemma SplitStripWords(s: string, delims: set<char>)
    ensures Words(SplitStrip(s, delims, AlphanumericChars))
    ensures NoAlnum(delims) ==> Concat(SplitStrip(s, delims, AlphanumericChars)) == KeepChars(s, AlphanumericChars)
  {
    if NoAlnum(delims) {
      SplitStripDefaultConcat(s, delims);
    }
  }

  /** `SplitStripLowerJoin<S, D, J>`: the lower-cased words with `sep` between them. */
  function SplitStripLowerJoin(s: string, delims: set<char>, sep: string): (r: string)
    ensures r == Interleave(MapToLowercase(SplitStrip(s, delims, AlphanumericChars)), sep)
    ensures OnlyChars(r, LowerOrDigit + CharsOf(sep))
    ensures NoAlnum(delims) && NoAlnum(CharsOf(sep)) ==>
      KeepChars(r, AlphanumericChars) == Lowercase(KeepChars(s, AlphanumericChars))
  {
    var w := SplitStrip(s, delims, AlphanumericChars);
    SplitStripWords(s, delims);
    LowerJoinWords(w, sep);
    Join(MapToLowercase(w), sep)
  }

  /** `SplitStripCapitalJoin<S, D, J>`: the capitalized words with `sep` between them; apart
      from case it is the lower-case join. */
  function SplitStripCapitalJoin(s: string, delims: set<char>, sep: string): (r: string)
    ensures r == Interleave(MapToCapital(SplitStrip(s, delims, AlphanumericChars)), sep)
    ensures OnlyChars(r, AlphanumericChars + CharsOf(sep))
    ensures Lowercase(r) == SplitStripLowerJoin(s, delims, Lowercase(sep))
    ensures NoAlnum(delims) && NoAlnum(CharsOf(sep)) ==>
      Lowercase(KeepChars(r, AlphanumericChars)) == Lowercase(KeepChars(s, AlphanumericChars))
  {
    var w := SplitStrip(s, delims, AlphanumericChars);
    SplitStripWords(s, delims);
    CapitalJoinWords(w, sep);
    LowerJoinWords(w, Lowercase(sep));
    var r := Join(MapToCapital(w), sep);
    KeepAlnumLowercase(r);
    LowercaseNoAlnum(sep);
    r
  }

  lemma SeparatorFacts()
    ensures CharsOf(" ") == {' '} && CharsOf("-") == {'-'} && CharsOf(".") == {'.'}
    ensures CharsOf("_") == {'_'} && CharsOf("/") == {'/'}
    ensures NoAlnum({' '}) && NoAlnum({'-'}) && NoAlnum({'.'}) && NoAlnum({'_'}) && NoAlnum({'/'})
    ensures Lowercase(" ") == " " && Lowercase("-") == "-" && Lowercase("_") == "_"
  {
    assert Lowercase(" ")[0] == ' ';
    assert Lowercase("-")[0] == '-';
    assert Lowercase("_")[0] == '_';
  }

  /** `ParamCase`: lower-case words joined by '-'. */
  function ParamCase(s: string, delims: set<char>): (r: string)
    ensures r == Interleave(MapToLowercase(SplitStrip(s, delims, AlphanumericChars)), "-")
    ensures OnlyChars(r, LowerOrDigit + {'-'})
    ensures NoAlnum(delims) ==> KeepChars(r, AlphanumericChars) == Lowercase(KeepChars(s, AlphanumericChars))
  {
    SeparatorFacts();
    SplitStripLowerJoin(s, delims, "-")
  }

  /** `DotCase`: lower-case words joined by '.'. */
  function DotCase(s: string, delims: set<char>): (r: string)
    ensures r == Interleave(MapToLowercase(SplitStrip(s, delims, AlphanumericChars)), ".")
    ensures OnlyChars(r, LowerOrDigit + {'.'})
    ensures NoAlnum(delims) ==> KeepChars(r, AlphanumericChars) == Lowercase(KeepChars(s, AlphanumericChars))
  {
    SeparatorFacts();
    SplitStripLowerJoin(s, delims, ".")
  }

  /** `SnakeCase`: lower-case words joined by '_'. */
  function SnakeCase(s: string, delims: set<char>): (r: string)
    ensures r == Interleave(MapToLowercase(SplitStrip(s, delims, AlphanumericChars)), "_")
    ensures OnlyChars(r, LowerOrDigit + {'_'})
    ensures NoAlnum(delims) ==> KeepChars(r, AlphanumericChars) == Lowercase(KeepChars(s, AlphanumericChars))
  {
    SeparatorFacts();
    SplitStripLowerJoin(s, delims, "_")
  }

  /** `PathCase`: lower-case words joined by '/'. */
  function PathCase(s: string, delims: set<char>): (r: string)
    ensures r == Interleave(MapToLowercase(SplitStrip(s, delims, AlphanumericChars)), "/")
    ensures OnlyChars(r, LowerOrDigit + {'/'})
    ensures NoAlnum(delims) ==> KeepChars(r, AlphanumericChars) == Lowercase(KeepChars(s, AlphanumericChars))
  {
    SeparatorFacts();
    SplitStripLowerJoin(s, delims, "/")
  }

  /** `CapitalCase`: capitalized words joined by ' '; lower-cased it is the words joined by ' '. */
  function CapitalCase(s: string, delims: set<char>): (r: string)
    ensures r == Interleave(MapToCapital(SplitStrip(s, delims, AlphanumericChars)), " ")
    ensures OnlyChars(r, AlphanumericChars + {' '})
    ensures Lowercase(r) == SplitStripLowerJoin(s, delims, " ")
    ensures NoAlnum(delims) ==> Lowercase(KeepChars(r, AlphanumericChars)) == Lowercase(KeepChars(s, AlphanumericChars))
  {
    SeparatorFacts();
    SplitStripCapitalJoin(s, delims, " ")
  }

  /** `HeaderCase`: capitalized words joined by '-'; lower-cased it is `ParamCase`. */
  function HeaderCase(s: string, delims: set<char>): (r: string)
    ensures r == Interleave(MapToCapital(SplitStrip(s, delims, AlphanumericChars)), "-")
    ensures OnlyChars(r, AlphanumericChars + {'-'})
    ensures Lowercase(r) == ParamCase(s, delims)
    ensures NoAlnum(delims) ==> Lowercase(KeepChars(r, AlphanumericChars)) == Lowercase(KeepChars(s, AlphanumericChars))
  {
    SeparatorFacts();
    SplitStripCapitalJoin(s, delims, "-")
  }

  /** `ConstCase`: upper-case words joined by '_'; lower-cased it is `SnakeCase`. */
  function ConstCase(s: string, delims: set<char>): (r: string)
    ensures r == Interleave(MapToUppercase(SplitStrip(s, delims, AlphanumericChars)), "_")
    ensures OnlyChars(r, UpperOrDigit + {'_'})
    ensures Lowercase(r) == SnakeCase(s, delims)
    ensures NoAlnum(delims) ==> KeepChars(r, AlphanumericChars) == Uppercase(KeepChars(s, AlphanumericChars))
  {
    var w := SplitStrip(s, delims, AlphanumericChars);
    SplitStripWords(s, delims);
    SeparatorFacts();
    UpperJoinWords(w, "_");
    Join(MapToUppercase(w), "_")
  }

  /** `SentenceCase`: the first word capitalized, the others lower-cased, joined by ' '; only
      the first character can be a capital, and lower-cased it is the words joined by ' '. */
  function SentenceCase(s: string, delims: set<char>): (r: string)
    ensures r == Interleave(MapToSentence(SplitStrip(s, delims, AlphanumericChars)), " ")
    ensures forall i :: 1 <= i < |r| ==> !IsUpper(r[i])
    ensures Lowercase(r) == SplitStripLowerJoin(s, delims, " ")
    ensures NoAlnum(delims) ==> Lowercase(KeepChars(r, AlphanumericChars)) == Lowercase(KeepChars(s, AlphanumericChars))
  {
    var w := SplitStrip(s, delims, AlphanumericChars);
    SplitStripWords(s, delims);
    SeparatorFacts();
    SentenceJoinWords(w, " ");
    var r := Join(MapToSentence(w), " ");
    KeepAlnumLowercase(r);
    r
  }

  /** `CamelCase`: the words run together, the first lower-cased, every later one capitalized
      and marked with '_' when it starts with a digit. */
  function CamelCase(s: string, delims: set<char>): (r: string)
    ensures r == Concat(MapToCamel(SplitStrip(s, delims, AlphanumericChars)))
    ensures OnlyChars(r, AlphanumericChars + {'_'})
    ensures UnderscoresBeforeDigits(r)
    ensures |r| > 0 ==> !IsUpper(r[0])
    ensures NoAlnum(delims) ==> Lowercase(KeepChars(r, AlphanumericChars)) == Lowercase(KeepChars(s, AlphanumericChars))
  {
    var w := SplitStrip(s, delims, AlphanumericChars);
    SplitStripWords(s, delims);
    CamelJoinWords(w);
    Join(MapToCamel(w), "")
  }

  /** `PascalCase`: as `CamelCase`, with the first word capitalized too. */
  function PascalCase(s: string, delims: set<char>): (r: string)
    ensures r == Concat(MapToPascal(SplitStrip(s, delims, AlphanumericChars)))
    ensures OnlyChars(r, AlphanumericChars + {'_'})
    ensures UnderscoresBeforeDigits(r)
    ensures |r| > 0 ==> !IsLower(r[0])
    ensures NoAlnum(delims) ==> Lowercase(KeepChars(r, AlphanumericChars)) == Lowercase(KeepChars(s, AlphanumericChars))
  {
    var w := SplitStrip(s, delims, AlphanumericChars);
    SplitStripWords(s, delims);
    PascalJoinWords(w);
    Join(MapToPascal(w), "")
  }
}
