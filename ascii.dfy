/** Character classes and ASCII case mapping used by both tokenizers.
    The source builds its character unions from the literals "abcdefghijklmnopqrstuvwxyz"
    and "0123456789"; here they are predicates over `char`. */
module Ascii {

  predicate IsLower(c: char) { 'a' <= c <= 'z' }
  predicate IsUpper(c: char) { 'A' <= c <= 'Z' }
  predicate IsDigit(c: char) { '0' <= c <= '9' }
  predicate IsLetter(c: char) { IsLower(c) || IsUpper(c) }
  predicate IsAlnum(c: char) { IsLetter(c) || IsDigit(c) }

  /** The literals the source builds its character unions from. */
  const Alphabet: string := "abcdefghijklmnopqrstuvwxyz"
  const Digits: string := "0123456789"

  /** The union of upper-case letters, lower-case letters and digits. */
  const AlphanumericChars: set<char> := set c: char | IsAlnum(c)

  /** `LowercaseChars`: the characters of `Alphabet`. */
  lemma LowercaseCharsAre(c: char)
    ensures IsLower(c) <==> c in Alphabet
  {
    if IsLower(c) {
      assert Alphabet[c as int - 'a' as int] == c;
    }
  }

  /** `UppercaseChars`: the characters of `Uppercase<Alphabet>`. */
  lemma UppercaseCharsAre(c: char)
    ensures IsUpper(c) <==> c in Uppercase(Alphabet)
  {
    if IsUpper(c) {
      assert Uppercase(Alphabet)[c as int - 'A' as int] == ToUpper(Alphabet[c as int - 'A' as int]) == c;
    }
    if c in Uppercase(Alphabet) {
      var i :| 0 <= i < |Alphabet| && Uppercase(Alphabet)[i] == c;
      LowercaseCharsAre(Alphabet[i]);
    }
  }

  /** `DigitChars`: the characters of `Digits`. */
  lemma DigitCharsAre(c: char)
    ensures IsDigit(c) <==> c in Digits
  {
    if IsDigit(c) {
      assert Digits[c as int - '0' as int] == c;
    }
  }

  /** `AlphanumericChars` is the union of the three literal unions, and so exactly the ASCII
      letters and digits. */
  lemma AlphanumericCharsAre(c: char)
    ensures c in AlphanumericChars <==> c in Uppercase(Alphabet) || c in Alphabet || c in Digits
    ensures c in AlphanumericChars <==> IsAlnum(c)
  {
    LowercaseCharsAre(c);
    UppercaseCharsAre(c);
    DigitCharsAre(c);
  }

  /** A delimiter set that cannot collide with the case and digit rules. */
  predicate NoAlnum(delims: set<char>) {
    forall c :: c in delims ==> !IsAlnum(c)
  }

  /** Lower-casing of one character, restricted to ASCII letters. */
  function ToLower(c: char): (r: char)
    ensures IsLetter(r) == IsLetter(c) && IsDigit(r) == IsDigit(c)
    ensures !IsUpper(r)
    ensures IsLower(c) || !IsLetter(c) ==> r == c
  {
    if IsUpper(c) then (c as int + 32) as char else c
  }

  /** Upper-casing of one character, restricted to ASCII letters. */
  function ToUpper(c: char): (r: char)
    ensures IsLetter(r) == IsLetter(c) && IsDigit(r) == IsDigit(c)
    ensures !IsLower(r)
    ensures IsUpper(c) || !IsLetter(c) ==> r == c
  {
    if IsLower(c) then (c as int - 32) as char else c
  }

  lemma CaseRoundTrip(c: char)
    ensures ToLower(ToUpper(c)) == ToLower(c)
    ensures ToUpper(ToLower(c)) == ToUpper(c)
  {
  }

  /** TypeScript's intrinsic `Lowercase<S>`, for ASCII. */
  function Lowercase(s: string): (r: string)
    ensures |r| == |s|
    ensures forall i :: 0 <= i < |s| ==> r[i] == ToLower(s[i])
  {
    seq(|s|, i requires 0 <= i < |s| => ToLower(s[i]))
  }

  /** TypeScript's intrinsic `Uppercase<S>`, for ASCII. */
  function Uppercase(s: string): (r: string)
    ensures |r| == |s|
    ensures forall i :: 0 <= i < |s| ==> r[i] == ToUpper(s[i])
  {
    seq(|s|, i requires 0 <= i < |s| => ToUpper(s[i]))
  }

  lemma LowercaseAppend(a: string, b: string)
    ensures Lowercase(a + b) == Lowercase(a) + Lowercase(b)
  {
    assert Lowercase(a + b) == Lowercase(a) + Lowercase(b);
  }

  lemma UppercaseAppend(a: string, b: string)
    ensures Uppercase(a + b) == Uppercase(a) + Uppercase(b)
  {
    assert Uppercase(a + b) == Uppercase(a) + Uppercase(b);
  }

  lemma LowercaseIdempotent(s: string)
    ensures Lowercase(Lowercase(s)) == Lowercase(s)
  {
  }

  lemma UppercaseIdempotent(s: string)
    ensures Uppercase(Uppercase(s)) == Uppercase(s)
  {
  }

  lemma LowercaseOfUppercase(s: string)
    ensures Lowercase(Uppercase(s)) == Lowercase(s)
  {
    forall i | 0 <= i < |s| ensures Lowercase(Uppercase(s))[i] == Lowercase(s)[i] {
      CaseRoundTrip(s[i]);
    }
  }
}
