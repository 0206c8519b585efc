# ts-change-case, modelled in Dafny

The library converts a string literal type to one of ten case conventions at compile time:
capital, header, param, dot, snake, path, pascal, camel, sentence and const. Every conversion
is the same pipeline of recursive conditional types:

1. tokenize the string into words, at delimiters and at case and digit transitions;
2. reduce every token to letters and digits, and drop the tokens that become empty;
3. transform the words one by one (lower, upper, capitalized, or a first-word/other-word mix);
4. join them with a separator.

`types.ts` holds the current pipeline. `index.ts` holds an older variant with its own tokenizer
(`_CamelSplit`) and its own `To*` names.

The model is made of six modules, plus three of worked examples:

- `Ascii`: the letter and digit classes and the ASCII `Lowercase`/`Uppercase` intrinsics.
- `TokenRules`: an independent reference tokenizer, `Tokens(s, delims, rules)`. At each
  position, `ActionAt` decides whether the next character closes the token, is a dropped
  delimiter, or is kept. The two source tokenizers differ only in `RuleSet`: `WithDigitRule`
  (types.ts) adds the digit→letter split that `WithoutDigitRule` (index.ts) lacks. The
  splitting laws (at a lower→upper pair, at a digit→letter pair, at an acronym boundary, at a
  delimiter) are proved once here, for both tokenizers.
- `ChangeCaseTypes`: types.ts, one function per type. Every accumulator parameter of the source
  (`Acc`, `Tokens`, `A`, `J`) is a parameter of the function that carries it. `Tokenize` is
  proved equal to the reference tokenizer. Each convention is proved to emit only its own
  alphabet and to agree with its sibling conventions: lower-cased, header is param case, and
  lower-cased, const is snake case. When no delimiter is a letter or a digit, each convention is
  also proved to keep every letter and digit of the input in order (up to case).
- `ChangeCaseLegacy`: index.ts. The text that index.ts shares with types.ts (`Without`, `Join`,
  `Capitalize`, `PrependIfStartsWithDigit`, most of the maps) is reused from `ChangeCaseTypes`.
  Its own `KeepChars`, `MapToCamel` and `_CamelSplit` are modelled as written and related to the
  types.ts ones.
- `Idempotence`: converting a converted string again.
- `TypesExamples`, `LegacyExamples`, `IdempotenceExamples`: rows of the test tables in `test.ts`,
  and inputs that show where the two variants part and where a second conversion changes a
  string.

Delimiter sets are sets of characters. The source's `D` is a union of string literals, and
every member of the default `Delimiters` is one character long.

### How the code behaves where a reading of its intent might expect otherwise

The model follows the code in each of these cases.

- **Rule order.** The tokenizer tries the three transition rules first and the delimiter rule
  last (types.ts:70-80). A delimiter that is itself a letter can therefore be kept as text
  (`AlnumDelimiterIsKept`). With the default delimiters the order makes no difference
  (`TokenizeDelimiter` needs only a non-alphanumeric delimiter).
- **Pascal case.** `MapToPascal` leaves the first word without the `_` digit prefix, both in
  types.ts:61 and index.ts:68. Only later words get it.
- **Camel case in index.ts.** `MapToCamel` in index.ts:66 has no digit prefix at all, so
  "version 1.2.10" becomes "version1210" where types.ts gives "version_1_2_10".
- **No digit→letter split in index.ts.** `_CamelSplit` has no digit→letter rule, so
  "TERRIBLE2ERROR" stays one word there. Whenever no digit of the input is followed by a
  letter, the two variants agree on every convention, camel aside (`ConventionsAgree`).
- **Join.** `_Join` tests the accumulated string rather than the position, so leading empty
  words are skipped (`JoinSkipsLeadingEmpty`). The conventions never pass it empty words.
- **Idempotence.** Snake, param, dot and const are proved idempotent on inputs made only of
  letters, digits and delimiters. Outside that, a second conversion can change the result:
  - snake: "x2;b" → "x2b" → "x2_b", because removing ';' creates a digit→letter pair;
  - path: "a b" → "a/b" → "ab", because `/` is not a default delimiter;
  - camel: "a x y" → "aXY" → "aXy", with no digit involved.

## Model

| member | source | states |
|---|---|---|
| Ascii.LowercaseCharsAre | types.ts:1-16 | `LowercaseChars`, the union of the characters of "abcdefghijklmnopqrstuvwxyz", holds exactly the lower-case ASCII letters |
| Ascii.UppercaseCharsAre | types.ts:1-17 | `UppercaseChars`, the union of the characters of `Uppercase` of that alphabet, holds exactly the upper-case ASCII letters |
| Ascii.DigitCharsAre | types.ts:2-15 | `DigitChars`, the union of the characters of "0123456789", holds exactly the ASCII digits |
| Ascii.AlphanumericCharsAre | types.ts:18 | `AlphanumericChars` is the union of the three literal unions, and so exactly the ASCII letters and digits |
| Ascii.Lowercase | types.ts:24 | the `Lowercase` intrinsic maps each character by itself and keeps the length |
| Ascii.Uppercase | types.ts:24 | the `Uppercase` intrinsic maps each character by itself and keeps the length |
| Ascii.LowercaseIdempotent | types.ts:56 | lower-casing twice is lower-casing once |
| Ascii.LowercaseOfUppercase | types.ts:57 | lower-casing an upper-cased string forgets the upper-casing |
| TokenRules.Tokens | types.ts:64-84 | the reference tokenizer always yields at least one token, and yields one empty token for the empty string |
| TokenRules.TokensConcat | types.ts:64-84 | with non-alphanumeric delimiters, the tokens together are the input with its delimiters removed, in order |
| TokenRules.TokensFreeOfDelimiters | types.ts:79-80 | with non-alphanumeric delimiters, no token contains a delimiter |
| TokenRules.LowerUpperSplits | types.ts:70-71 | a lower letter followed by an upper letter ends a token, and the tokens of the two sides are concatenated |
| TokenRules.DigitLetterSplits | types.ts:73-74 | a digit followed by a letter ends a token |
| TokenRules.AcronymSplits | types.ts:76-77 | in upper, upper, lower the token ends after the first upper letter |
| TokenRules.DelimiterSplits | types.ts:79-80 | a non-alphanumeric delimiter ends a token and is dropped |
| TokenRules.AllKeepSingleToken | types.ts:82-83 | a string in which no rule fires is a single token |
| TokenRules.RuleSetsAgree | index.ts:72-88 | when no digit is followed by a letter, the tokenizers with and without the digit rule agree |
| ChangeCaseTypes.IndexOf | types.ts:10 | the pattern `${T}${D}${U}` matches at the leftmost occurrence of D, or nowhere when D does not occur |
| ChangeCaseTypes.SplitIntoChars | types.ts:5-12 | splitting at "" yields the characters of the string, one per piece |
| ChangeCaseTypes.SplitPieces | types.ts:5-12 | the pieces do not contain D, and joining them with D gives back the string, or the string without its trailing D |
| ChangeCaseTypes.Capitalize | types.ts:20-25 | same length, same letters up to case, the first character is not lower-case, the rest are not upper-case |
| ChangeCaseTypes.Without | types.ts:27-34 | the result is no longer than the list and holds only elements of the list other than the excluded one |
| ChangeCaseTypes.WithoutCounts | types.ts:27-34 | the excluded string is gone, and every other string occurs exactly as often as before |
| ChangeCaseTypes.WithoutAppend | types.ts:27-34 | removing from a concatenation is removing from each part |
| ChangeCaseTypes.WithoutEmpty | types.ts:36 | no remaining token is empty, and each came from the list |
| ChangeCaseTypes.WithoutEmptyConcat | types.ts:36 | dropping empty tokens does not change the text they spell |
| ChangeCaseTypes.KeepChars | types.ts:38-46 | the result is no longer than the input and holds only the kept characters |
| ChangeCaseTypes.KeepCharsCounts | types.ts:38-46 | each kept character occurs as often as in the input, and no other character occurs |
| ChangeCaseTypes.KeepCharsAppend | types.ts:38-46 | filtering a concatenation is filtering each part |
| ChangeCaseTypes.KeepCharsAll | types.ts:38-46 | a string made only of kept characters is unchanged |
| ChangeCaseTypes.KeepCharsNone | types.ts:38-46 | a string with no kept character becomes empty |
| ChangeCaseTypes.KeepCharsRemoveChars | types.ts:38-46 | removing delimiters first does not change the filtered result when no kept character is a delimiter |
| ChangeCaseTypes.PrependIfStartsWithDigit | types.ts:48-53 | the prefix is added exactly when the string starts with a digit; with a non-digit prefix the result never starts with a digit |
| ChangeCaseTypes.MapToLowercase | types.ts:56 | each word is lower-cased in place |
| ChangeCaseTypes.MapToUppercase | types.ts:57 | each word is upper-cased in place |
| ChangeCaseTypes.MapToCapital | types.ts:58 | each word is capitalized in place |
| ChangeCaseTypes.MapToCamel | types.ts:59 | the first word is lower-cased; every later word is capitalized and gets "_" before a leading digit |
| ChangeCaseTypes.MapToSentence | types.ts:60 | the first word is capitalized and every later word lower-cased |
| ChangeCaseTypes.MapToPascal | types.ts:61 | the first word is capitalized with no prefix; every later word is capitalized and gets "_" before a leading digit |
| ChangeCaseTypes.MapToOnlyChars | types.ts:62 | each token is filtered to the kept characters in place |
| ChangeCaseTypes.TokenizeFromIsTokens | types.ts:65-84 | the accumulator form of `_Tokenize` equals the reference tokenizer, with the pending token and the finished tokens in front |
| ChangeCaseTypes.TokenizeIsTokens | types.ts:64 | `Tokenize` equals the reference tokenizer with the digit rule |
| ChangeCaseTypes.TokenizeEmpty | types.ts:68 | the empty string yields one empty token |
| ChangeCaseTypes.TokenizeLowerUpper | types.ts:70-71 | "camelCase" splits after "camel": the tokens of both sides, concatenated |
| ChangeCaseTypes.TokenizeDigitLetter | types.ts:73-74 | "camel200Case" splits after "200" |
| ChangeCaseTypes.TokenizeAcronym | types.ts:76-77 | "CAMELCase" splits after "CAMEL" |
| ChangeCaseTypes.TokenizeDelimiter | types.ts:79-80 | a non-alphanumeric delimiter splits the string and is dropped |
| ChangeCaseTypes.TokenizeConservesCharacters | types.ts:64-84 | the tokens spell the input without its delimiters, and contain no delimiter |
| ChangeCaseTypes.AlnumDelimiterIsKept | types.ts:70-80 | a letter delimiter that also starts a lower→upper pair is kept as text, because the delimiter rule is tried last |
| ChangeCaseTypes.Join | types.ts:88-94 | no words give "", one word gives itself, and words with a non-empty first word are joined with one separator between neighbours |
| ChangeCaseTypes.JoinSkipsLeadingEmpty | types.ts:93 | a leading empty word leaves no separator behind |
| ChangeCaseTypes.JoinEmptySeparator | types.ts:88-94 | joining with "" is concatenation |
| ChangeCaseTypes.SplitStrip | types.ts:86 | every word is non-empty and made of kept characters; the empty string has no words |
| ChangeCaseTypes.SplitStripConcat | types.ts:86 | with non-alphanumeric delimiters, the words spell the kept characters of the input in order |
| ChangeCaseTypes.StripAppend | types.ts:86 | stripping a concatenation of token lists is stripping each list |
| ChangeCaseTypes.SplitStripWords | types.ts:86 | the words are non-empty and alphanumeric, and spell the alphanumerics of the input |
| ChangeCaseTypes.SplitStripLowerJoin | types.ts:99 | the lower-cased words joined by the separator: only lower letters, digits and separator characters, and the same alphanumerics as the input, lower-cased |
| ChangeCaseTypes.SplitStripCapitalJoin | types.ts:98 | the capitalized words joined by the separator, and its lower-case form is the lower-join with the same separator |
| ChangeCaseTypes.CapitalCase | types.ts:101 | capitalized words joined by " ", lower-casing to the " " lower-join, and keeping the input's alphanumerics up to case |
| ChangeCaseTypes.HeaderCase | types.ts:102 | capitalized words joined by "-", and its lower-case form is param case |
| ChangeCaseTypes.ParamCase | types.ts:103 | lower-case words joined by "-": only lower letters, digits and "-", and the input's alphanumerics lower-cased |
| ChangeCaseTypes.DotCase | types.ts:104 | lower-case words joined by ".": only lower letters, digits and ".", and the input's alphanumerics lower-cased |
| ChangeCaseTypes.SnakeCase | types.ts:105 | lower-case words joined by "_": only lower letters, digits and "_", and the input's alphanumerics lower-cased |
| ChangeCaseTypes.PathCase | types.ts:106 | lower-case words joined by "/": only lower letters, digits and "/", and the input's alphanumerics lower-cased |
| ChangeCaseTypes.PascalCase | types.ts:107 | the pascal-mapped words run together: alphanumerics and "_", every "_" before a digit, not starting lower-case, and keeping the input's alphanumerics up to case |
| ChangeCaseTypes.CamelCase | types.ts:108 | the camel-mapped words run together: alphanumerics and "_", every "_" before a digit, not starting upper-case, and keeping the input's alphanumerics up to case |
| ChangeCaseTypes.SentenceCase | types.ts:109 | sentence words joined by " ": no capital after the first character, lower-casing to the " " lower-join |
| ChangeCaseTypes.ConstCase | types.ts:110 | upper-case words joined by "_": only upper letters, digits and "_"; lower-casing gives snake case, and the input's alphanumerics are upper-cased |
| ChangeCaseLegacy.KeepCharsFromIsFilter | index.ts:46-53 | the string-level accumulator filter equals the accumulator followed by the types.ts filter |
| ChangeCaseLegacy.KeepChars | index.ts:46-53 | the index.ts filter over the string itself equals the types.ts filter over its single characters |
| ChangeCaseLegacy.MapToOnlyChars | index.ts:69 | equals the types.ts token filter |
| ChangeCaseLegacy.MapToCamel | index.ts:66 | the first word is lower-cased and every later word capitalized, with no digit prefix |
| ChangeCaseLegacy.CamelMapsAgree | index.ts:66 | the index.ts camel map equals the types.ts one exactly when no later word starts with a digit |
| ChangeCaseLegacy.CamelSplitFromIsTokens | index.ts:72-88 | the accumulator form of `_CamelSplit` equals the reference tokenizer without the digit rule, with the pending token and the finished tokens in front |
| ChangeCaseLegacy.CamelSplitIsTokens | index.ts:72-88 | `_CamelSplit` equals the reference tokenizer without the digit rule |
| ChangeCaseLegacy.CamelSplitEmpty | index.ts:75 | the empty string yields one empty token |
| ChangeCaseLegacy.CamelSplitLowerUpper | index.ts:77-78 | a lower letter followed by an upper letter ends a token |
| ChangeCaseLegacy.CamelSplitAcronym | index.ts:80-81 | in upper, upper, lower the token ends after the first upper letter |
| ChangeCaseLegacy.CamelSplitDelimiter | index.ts:83-84 | a non-alphanumeric delimiter splits the string and is dropped |
| ChangeCaseLegacy.CamelSplitNoLower | index.ts:72-88 | a run of upper letters and digits is one token, digits before letters included |
| ChangeCaseLegacy.CamelSplitConservesCharacters | index.ts:72-88 | the tokens spell the input without its delimiters, and contain no delimiter |
| ChangeCaseLegacy.CamelSplitAgrees | index.ts:72-88 | when no digit is followed by a letter, `_CamelSplit` equals the types.ts `Tokenize` |
| ChangeCaseLegacy.SplitStrip | index.ts:90 | every word is non-empty and made of kept characters; the empty string has no words |
| ChangeCaseLegacy.SplitStripConcat | index.ts:90 | with non-alphanumeric delimiters, the words spell the kept characters of the input in order |
| ChangeCaseLegacy.SplitStripAgrees | index.ts:90 | when no digit is followed by a letter, the words equal the types.ts words |
| ChangeCaseLegacy.SplitStripWords | index.ts:90 | the words are non-empty and alphanumeric, and spell the alphanumerics of the input |
| ChangeCaseLegacy.SplitStripLowerJoin | index.ts:104 | the lower-cased words joined by the separator, in the lower-join alphabet, keeping the input's alphanumerics lower-cased |
| ChangeCaseLegacy.SplitStripCapitalJoin | index.ts:103 | the capitalized words joined by the separator, lower-casing to the lower-join |
| ChangeCaseLegacy.ToCapital | index.ts:107 | capitalized words joined by " ", keeping the input's alphanumerics up to case |
| ChangeCaseLegacy.ToHeader | index.ts:108 | capitalized words joined by "-", and its lower-case form is `ToParam` |
| ChangeCaseLegacy.ToParam | index.ts:109 | lower-case words joined by "-", in lower letters, digits and "-" |
| ChangeCaseLegacy.ToDot | index.ts:110 | lower-case words joined by ".", in lower letters, digits and "." |
| ChangeCaseLegacy.ToSnake | index.ts:111 | lower-case words joined by "_", in lower letters, digits and "_" |
| ChangeCaseLegacy.ToPath | index.ts:112 | lower-case words joined by "/", in lower letters, digits and "/" |
| ChangeCaseLegacy.ToPascal | index.ts:113 | pascal-mapped words run together: alphanumerics and "_", every "_" before a digit, not starting lower-case |
| ChangeCaseLegacy.CamelJoinWords | index.ts:114 | camel words run together are purely alphanumeric, do not start upper-case, and lower-case to the words' own text |
| ChangeCaseLegacy.ToCamel | index.ts:114 | purely alphanumeric, not starting upper-case, and equal up to case to the alphanumerics of the input |
| ChangeCaseLegacy.ToSentence | index.ts:115 | sentence words joined by " ", with no capital after the first character |
| ChangeCaseLegacy.ToConst | index.ts:116 | upper-case words joined by "_", and its lower-case form is `ToSnake` |
| ChangeCaseLegacy.ConventionsAgree | index.ts:107-116 | when no digit is followed by a letter, every convention except camel equals its types.ts counterpart |
| ChangeCaseLegacy.CamelAgrees | index.ts:114 | when no digit is followed by a letter and no later word starts with a digit, `ToCamel` equals the types.ts `CamelCase` |
| Idempotence.TokensShape | types.ts:73-74 | no token has a digit followed by a letter, and tokens hold only characters of the input |
| Idempotence.WordsShape | types.ts:86 | on an input of letters, digits and delimiters, no word has a digit followed by a letter |
| Idempotence.SplitStripJoined | types.ts:86-94 | non-empty alphanumeric words on which no tokenizer rule fires (each is one token on its own), joined by a delimiter, split back into the same words |
| Idempotence.LowerJoinIdempotent | types.ts:99 | lower-joining by a delimiter twice is lower-joining once, on inputs of letters, digits and delimiters |
| Idempotence.SnakeCaseIdempotent | types.ts:105 | snake case is idempotent on inputs of letters, digits and default delimiters |
| Idempotence.ParamCaseIdempotent | types.ts:103 | param case is idempotent on those inputs |
| Idempotence.DotCaseIdempotent | types.ts:104 | dot case is idempotent on those inputs |
| Idempotence.ConstCaseIdempotent | types.ts:110 | const case is idempotent on those inputs |
| IdempotenceExamples.SnakeCaseNotIdempotent | types.ts:105 | snake case of "x2;b" is "x2b", whose snake case is "x2_b" |
| IdempotenceExamples.PathCaseNotIdempotent | types.ts:106 | path case of "a b" is "a/b", whose path case is "ab" |
| IdempotenceExamples.CamelCaseNotIdempotent | types.ts:108 | camel case of "a x y" is "aXY", whose camel case is "aXy" |
| TypesExamples.WordsOfEmpty | test.ts:16 | "" has no words |
| TypesExamples.WordsOfTestString | test.ts:18 | "test string" has the words "test", "string" |
| TypesExamples.WordsOfCapitalTestString | test.ts:19 | "Test String" has the words "Test", "String" |
| TypesExamples.WordsOfTestV2 | test.ts:20 | "TestV2" has the words "Test", "V2" |
| TypesExamples.WordsOfVersion1210 | test.ts:21 | "version 1.2.10" has the words "version", "1", "2", "10" |
| TypesExamples.WordsOfVersion1210Zero | test.ts:22 | "version 1.21.0" has the words "version", "1", "21", "0" |
| TypesExamples.WordsOfTerribleCondition | test.ts:23 | "some TERRIBLE2ERRORCondition___HOWSad" has the words "some", "TERRIBLE2", "ERROR", "Condition", "HOW", "Sad" |
| TypesExamples.TableRowTestV2 | test.ts:26-144 | the "TestV2" row of all ten tables: test_v2, testV2, TestV2, TEST_V2, test-v2, test.v2, Test v2, Test-V2, Test V2, test/v2 |
| TypesExamples.TableRowVersion1210 | test.ts:26-72 | the "version 1.2.10" row of the snake, camel, pascal and const tables |
| LegacyExamples.TableRowTestV2 | index.ts:107-116 | the index.ts conventions give the same "TestV2" row as the tables |
| LegacyExamples.TableRowVersion1210 | index.ts:113-114 | index.ts camel case gives "version1210" where types.ts gives "version_1_2_10"; pascal, snake and const agree |
| LegacyExamples.WordsOfTerribleCondition | index.ts:72-88 | index.ts splits "TERRIBLE2ERRORCondition" into two words where types.ts splits it into three |

## Left out

- Unicode: `Lowercase`, `Uppercase` and the character classes are ASCII only. The TypeScript
  intrinsics map every Unicode letter, but the library's own character unions are ASCII.
- Multi-character delimiters: delimiter sets are sets of characters. In types.ts the string is
  split into single characters first, so a longer member of `D` can never match there. In
  index.ts the template pattern could match one, and that case is not modelled.
- The `string extends S` branches (types.ts:6, types.ts:66, index.ts:73): they widen a
  non-literal `string` to `string[]`, so they give no literal result to model.
- `AsStringArray` and the mapped-type machinery are modelled as maps over sequences. `CharUnion`
  is modelled as the character-class predicates of `Ascii`, each proved equal to the set of
  characters of its literal (`LowercaseCharsAre`, `UppercaseCharsAre`, `DigitCharsAre`).
- `ToPascalAlphanumeric` (index.ts:106): it passes "" as a delimiter, so the delimiter rule
  matches without consuming a character and the recursion does not advance. It is not part of
  the core.
- types.ts:111-151: the `ChangeCase` namespace aliases (`ChangeCase.Snake` is `SnakeCase`, and
  so on), commented-out helpers, and the `IsLowercase`/`IsUppercase` filters. None of them
  changes a conversion.
- index.ts:118-170: the `UniqueString`, `SingleChars` and `Only*` filters, and the scratch
  evaluations `S2`, `CC2` and `CC3` of one sample string. None of them changes a conversion.
- change-case-typed.ts wraps an external runtime library, and mod.ts only re-exports. Neither
  is part of this model. Nor is the test harness of test.ts: only its tables are used, as values.
- Evaluation depth: the TypeScript compiler evaluates recursive conditional types only to a
  bounded depth. `Split` recurses outside tail position (types.ts:11), and the tail-recursive
  `_Tokenize`, `_KeepChars`, `_Join` and `_CamelSplit` are capped by the compiler's
  tail-recursion limit. On a long enough literal the source reports a compile error instead of
  a type. The model has no length bound: every function returns a value for every input.
- Default delimiters: every convention in the source defaults `D` to `Delimiters`
  (types.ts:101-110, index.ts:107-116). The model has no default parameter, so callers pass
  `ChangeCaseTypes.Delimiters` explicitly, as all the examples do.
- Test tables: the words of all eight test inputs are proved. Full table rows are proved for
  "TestV2" (all ten conventions) and for "version 1.2.10" (snake, camel, pascal, const). The
  other rows follow from the same word lemmas, but are not stated one by one.
- ChangeCaseTypes.Split: its own contract is empty. What it computes is stated by
  `SplitIntoChars` (splitting at "") and `SplitPieces` (splitting at a non-empty `D`).
- Idempotence: only the lower-case and upper-case conventions are proved idempotent. Path,
  camel and pascal are not, and the counterexamples above show that path and camel are not
  idempotent.
