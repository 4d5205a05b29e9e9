# STEP physical-file lexer (src/lexer.rs), modelled in Dafny

This project models the tokenizer of an ISO 10303-21 ("STEP physical file")
parser. The tokenizer is a logos-derived `Token` enum with thirteen regular
expressions, a skip rule for blanks and two priorities. A `Lexer` adapter
turns it into an iterator of `(start, token, end)` triples, and of
`Err(LexicalError::Todo)` where nothing matches.

The project is split into modules, one per layer of the tokenizer:

- `Tokens` holds the thirteen variants. For each one, a predicate on a whole
  word states the language its regular expression denotes. `Priority` holds
  the priorities that break ties.
- `Chars` holds the character classes and the maximal run of a class.
- `Matchers` gives each pattern a function for the length of its longest
  match at an offset. Each of these is proved to be the longest match of
  that language (`IsLongestMatch`).
- `Classifier` folds the thirteen matchers into `Classify`, which picks the
  longest match and breaks ties by priority. It is proved equal to the
  declarative maximal-munch rule `IsClassification`, stated on the languages
  alone.
- `Stream` models logos' `next`/`span`. `Step` skips blanks, classifies
  once, and advances past the match. When nothing matches, it advances past
  one character. `Scans` is the whole sequence of pulls.
- `LexerAdapter` has `class Lexer`, with the input and the cursor as fields.
  Its `Next` method proceeds step by step and is proved against `Step` and
  `Scans`.
- `SourceTests`, `SourceStreamTests` and `AdapterTests` state the unit tests
  of src/lexer.rs as lemmas and methods.

Offsets are character indices into a `seq<char>`. Every input in the tests is
ASCII, so they agree with the byte offsets Rust reports.

## Model

| member | source | states |
|---|---|---|
| Tokens.LexemeStart | src/lexer.rs:8-45 | every lexeme of every kind is non-empty, and its first character is one its pattern allows |
| Tokens.CanStartSolid | src/lexer.rs:6-45 | no pattern can start with a character of the skip rule |
| Tokens.BinaryBodyIsHex | src/lexer.rs:41 | the optional `[0-3]` of the binary pattern adds no words: every body is all hex digits |
| Tokens.OverlapsOnlyWithSignature | src/lexer.rs:8-45 | the only words two distinct patterns both match are those of StandardKeyword or Integer that SignatureContent also matches |
| Tokens.EqualPriorityDisjoint | src/lexer.rs:11-15 | no word is matched by two patterns of equal priority, which is the ambiguity logos rejects when it compiles the enum |
| Tokens.LexemeIsSolid | src/lexer.rs:6-45 | no lexeme other than a quoted string contains a character of the skip rule |
| Chars.RunLengthInClass | src/lexer.rs:11 | every character of the maximal run of a class is in the class |
| Chars.RunLengthUnique | src/lexer.rs:11 | a run of the class that stops at the end or at a character outside it is the maximal run |
| Matchers.StringEndSound | src/lexer.rs:20 | what lies between the opening quote and the closing quote the scan finds is a string body: plain characters or backslash pairs |
| Matchers.StringEndComplete | src/lexer.rs:20 | every string body that ends at a quote is the one the scan finds |
| Matchers.LongestUserDefinedKeyword | src/lexer.rs:8-9 | `PrefixedIdentifierLength(s, i, '!')` is the length of the longest `![A-Z][A-Z0-9]*` at `i`, or 0 when there is none |
| Matchers.LongestStandardKeyword | src/lexer.rs:11-12 | `IdentifierLength` is the longest `[A-Z][A-Z0-9]*` at `i`, or 0 |
| Matchers.LongestInteger | src/lexer.rs:14-15 | `SignedDigitsLength` is the longest `[+-]?[0-9]+` at `i`, or 0 |
| Matchers.LongestReal | src/lexer.rs:17-18 | `SignedRealLength` is the longest real with its optional exponent at `i`, or 0 |
| Matchers.LongestString | src/lexer.rs:20-21 | `StringLength` is the longest quoted string at `i`, and a string at `i` has no other length |
| Matchers.LongestEntityInstanceName | src/lexer.rs:23-24 | `PrefixedDigitsLength(s, i, '#')` is the longest `#[0-9]+` at `i`, or 0 |
| Matchers.LongestValueInstanceName | src/lexer.rs:26-27 | `PrefixedDigitsLength(s, i, '@')` is the longest `@[0-9]+` at `i`, or 0 |
| Matchers.LongestConstantEntityName | src/lexer.rs:29-30 | `PrefixedIdentifierLength(s, i, '#')` is the longest `#[A-Z][A-Z0-9]*` at `i`, or 0 |
| Matchers.LongestConstantValueName | src/lexer.rs:32-33 | `PrefixedIdentifierLength(s, i, '@')` is the longest `@[A-Z][A-Z0-9]*` at `i`, or 0 |
| Matchers.LongestResource | src/lexer.rs:35-36 | `ResourceLength` is the longest `<...>` resource at `i`, and a resource at `i` has no other length |
| Matchers.LongestEnumeration | src/lexer.rs:38-39 | `EnumerationLength` is the longest `.NAME.` at `i`, and an enumeration at `i` has no other length |
| Matchers.LongestBinary | src/lexer.rs:41-42 | `BinaryLength` is the longest `""hex""` at `i`, and a binary at `i` has no other length |
| Matchers.LongestSignatureContent | src/lexer.rs:44-45 | the maximal base64 run is the longest `[a-zA-Z0-9+/=]+` at `i`, or 0 |
| Classifier.MatchLengthLongest | src/lexer.rs:8-45 | for every kind, `MatchLength` is the longest match of that kind's pattern at `i` |
| Classifier.PreferCovers | src/lexer.rs:11-15 | one tie-break step keeps a candidate that beats or ties all seen so far: the longer match wins; at equal length the higher priority wins |
| Classifier.BestSpec | src/lexer.rs:5-46 | the fold over the kinds returns a candidate at least as long as every kind's match, with priority at least as high at equal length, and it is a real match |
| Classifier.ClassifyNoneSound | src/lexer.rs:5-46 | when Classify finds nothing, no pattern matches any window at `i` |
| Classifier.ClassifySomeSound | src/lexer.rs:5-46 | what Classify finds is a lexeme; no pattern matches a longer window; no pattern matching the same window has higher priority |
| Classifier.ClassifySound | src/lexer.rs:5-46 | both of the above: Classify implements longest match, then priority |
| Classifier.ClassifyNone | src/lexer.rs:5-46 | where no pattern matches, Classify returns None (the converse direction) |
| Classifier.ClassificationUnique | src/lexer.rs:5-46 | the maximal-munch-with-priority answer, when it exists, is unique |
| Classifier.ClassifyComplete | src/lexer.rs:5-46 | Classify returns exactly the classification the declarative rule picks |
| Classifier.SignatureNeverShadows | src/lexer.rs:11-15 | a window returned as SignatureContent is never an uppercase identifier or a possibly signed digit run |
| Classifier.ClassifyWholeLexeme | src/lexer.rs:8-45 | a lexeme that is the whole input is classified as one match of full length, of its own kind unless it is signature content that StandardKeyword or Integer is chosen over |
| Classifier.DelimitedIsLongest | src/lexer.rs:6-45 | no pattern matches past a blank that ends a lexeme, except a quoted string, whose length is fixed at its start |
| Classifier.ClassifyDelimited | src/lexer.rs:6-45 | a lexeme followed by a blank or by the end is classified as itself, except a shadowed signature run |
| Stream.SkipWhitespace | src/lexer.rs:6 | the skip rule stops at the first character that is not a space, tab, line feed or form feed, and everything before it is blank |
| Stream.Step | src/lexer.rs:5-6 | one pull returns None exactly when the rest of the input is blank; otherwise its span starts at the first non-blank character and is non-empty |
| Stream.Scans | src/lexer.rs:5-6 | the stream is empty exactly when the input is blank; every span is non-empty and lies inside the input |
| Stream.ScansTile | src/lexer.rs:6 | consecutive spans tile the input: only blanks lie before the first span, between two spans and after the last |
| Stream.ScansOrdered | src/lexer.rs:5-6 | spans come out in input order and never overlap |
| Stream.StepPulled | src/lexer.rs:5-6 | a pull is what the classifier finds at its start: the kind and length of a match, or one unmatched character where Classify finds nothing |
| Stream.ScansPulled | src/lexer.rs:5-6 | every pull of the stream, not only the first, is what the classifier finds at its start |
| Stream.PulledSound | src/lexer.rs:5-46 | such a pull is the maximal-munch-with-priority lexeme, or one character where no pattern matches |
| Stream.ScansSound | src/lexer.rs:5-46 | every scan of the stream is read back by the rule that produced it |
| Stream.MatchedSolid | src/lexer.rs:6-45 | a sound matched span of any kind but String contains no blank |
| Stream.ScansSolid | src/lexer.rs:6-45 | no token of the stream other than a quoted string contains a blank |
| Stream.SkipToNonBlank | src/lexer.rs:6 | skipping blanks from `p` stops exactly at the first non-blank offset |
| Stream.StepToken | src/lexer.rs:5-6 | after the blanks, a classified token becomes a matched pull with that kind and end |
| Stream.StepError | src/lexer.rs:5-6 | after the blanks, an offset Classify rejects becomes an unmatched one-character pull |
| Stream.ScansFirst | src/lexer.rs:5-6 | the stream from `p` is the pull from `p` followed by the stream from its end |
| Stream.ScansToken | src/lexer.rs:5-46 | blanks, then a lexeme ending at a blank or at the end, put that token first in the stream |
| Stream.ScansClassified | src/lexer.rs:5-46 | blanks up to `q`, then a classification at `q`, put that token first in the stream |
| Stream.ScansWholeLexeme | src/lexer.rs:5-46 | an input that is, as a whole, a lexeme yields exactly one token spanning it, except a shadowed signature run |
| Stream.ScansError | src/lexer.rs:5-46 | blanks, then an offset where nothing matches, put a one-character error first, and the stream goes on from the next character |
| Stream.MatchedReclassifies | src/lexer.rs:5-46 | the text of a matched span, lexed on its own, yields one token of the same kind spanning all of it |
| Stream.WholeWindowClassified | src/lexer.rs:5-46 | the classification of a span still holds for the span cut out as its own input |
| Stream.EndIsFinal | src/lexer.rs:5-6 | once a pull finds the end of the input, the stream is empty and stays at the end |
| LexerAdapter.Lexer.constructor | src/lexer.rs:214-218 | a new lexer starts at offset 0 over its input, having returned nothing |
| LexerAdapter.Lexer.Next | src/lexer.rs:224-243 | None exactly when the rest of the input is blank. Otherwise it returns the item of the next pull, an `Ok` triple with the span or `Err(Todo)`, and the cursor moves past it. What was returned and what remains stay the whole stream |
| LexerAdapter.SkipBlanks | src/lexer.rs:6 | the skip loop stops where the skip rule does |
| LexerAdapter.Advance | src/lexer.rs:224-243 | returning the next pull keeps the returned items a prefix of the stream |
| LexerAdapter.BlankRest | src/lexer.rs:238-239 | at a blank rest, what was returned is the whole stream |
| AdapterTests.NextOne | src/lexer.rs:224-243 | a call of Next returns the item of the first scan still to come, and the rest of the stream remains |
| AdapterTests.NextFour | src/lexer.rs:224-243 | four calls of Next return the items of a four-scan stream in order |
| AdapterTests.InvalidInputItems | src/lexer.rs:189-201 | through the adapter, "!HELLO @12345 @@123" gives `Ok((0, UserDefinedKeyword, 6))`, `Ok((7, ValueInstanceName, 13))`, `Err(Todo)`, then `Ok((15, ValueInstanceName, 19))` |
| AdapterTests.BlankInputItem | src/lexer.rs:238-239 | on a blank input the first call of Next already returns None |
| SourceTests.TokenAt | src/lexer.rs:5-46 | the composition rule for a token whose text is given |
| SourceTests.UserDefinedKeywordTest | src/lexer.rs:52-58 | "!HELLO" lexes as one UserDefinedKeyword spanning 0..6 |
| SourceTests.StandardKeywordTest | src/lexer.rs:60-66 | "HELLO" lexes as one StandardKeyword spanning 0..5 |
| SourceTests.IntegerTest | src/lexer.rs:68-74 | "12345" lexes as one Integer spanning 0..5 |
| SourceTests.RealTest | src/lexer.rs:76-81 | "123.45" lexes as one Real spanning 0..6 |
| SourceTests.RealExponentTest | src/lexer.rs:83-86 | "123.45E-6" lexes as one Real spanning 0..9 |
| SourceTests.StringTest | src/lexer.rs:89-94 | "'Hello'" lexes as one String spanning 0..7 |
| SourceTests.EscapedStringTest | src/lexer.rs:96-99 | the string with an escaped quote lexes as one String spanning 0..14 |
| SourceTests.EntityInstanceNameTest | src/lexer.rs:102-108 | "#12345" lexes as one EntityInstanceName spanning 0..6 |
| SourceTests.ValueInstanceNameTest | src/lexer.rs:110-116 | "@12345" lexes as one ValueInstanceName spanning 0..6 |
| SourceTests.ConstantEntityNameTest | src/lexer.rs:118-124 | "#CONSTANT1" lexes as one ConstantEntityName spanning 0..10 |
| SourceTests.ConstantValueNameTest | src/lexer.rs:126-132 | "@VALUE1" lexes as one ConstantValueName spanning 0..7 |
| SourceTests.ResourceTest | src/lexer.rs:134-140 | "<http://example.com>" lexes as one Resource spanning 0..20 |
| SourceTests.EnumerationTest | src/lexer.rs:142-148 | ".ENUM1." lexes as one Enumeration spanning 0..7 |
| SourceTests.BinaryTest | src/lexer.rs:150-156 | `""0012""` lexes as one Binary spanning 0..8 |
| SourceTests.SignatureContentTest | src/lexer.rs:158-164 | "dGVzdA==" lexes as one SignatureContent spanning 0..8 |
| SourceStreamTests.MultipleTokensTest | src/lexer.rs:166-187 | the six-token input lexes as UserDefinedKeyword, Integer, Real, String, EntityInstanceName and ConstantValueName, with their spans, and nothing else |
| SourceStreamTests.DoubledAtSign | src/lexer.rs:199-200 | no pattern matches at an `@` followed by another `@` |
| SourceStreamTests.InvalidInputTest | src/lexer.rs:189-201 | "!HELLO @12345 @@123" lexes as two tokens, a one-character error at 14..15 (the slice "@"), then a ValueInstanceName at 15..19 |
| SourceStreamTests.BlankInputTest | src/lexer.rs:238-239 | empty and all-blank inputs give an empty stream |

## Left out

- The logos code generator: `#[derive(Logos)]` compiles the patterns into a DFA. The model states each pattern as a predicate on words, computes longest matches directly, and proves the two agree.
- Tokens.Priority: only StandardKeyword and Integer declare a priority (3). The other values follow logos' default rule (2 per literal character, 1 per class, nothing for optional or starred parts). Only SignatureContent's 1 against those 3 ever decides a tie (OverlapsOnlyWithSignature).
- Stream.Step: the model does pure maximal munch that backs off to the longest complete match. On input such as "123." logos' DFA may report the error differently, and the tests do not pin it down. It is not modelled.
- Stream.Step: a failed pull consumes exactly one character, as in the tested case (`slice() == "@"`). Other error-span lengths logos might produce are not modelled.
- Stream.ScansSolid: stated for every kind but String, because a quoted string may contain blanks.
- Offsets are character indices, not UTF-8 byte offsets. The two agree on ASCII input, which covers every test.
- The `.` of the string pattern's `\\.` excludes a line feed, as in the regex crate's default syntax. A backslash followed by a line feed does not continue a string.
- LexerAdapter.Lexer.Next: `Err(LexicalError::Todo)` carries no position, as in the source. The error's span is still visible through `Scans`.
- The `loop` around the match in `Iterator::next` never repeats, since every arm returns. `Next` therefore has no loop of its own.
- The unused `CharIndices` import and the commented-out `chars` field have no behaviour.
- `slice()` in the tests has no member of its own. A span `a..b` stands for the slice `s[a..b]`, and the test lemmas state those slices (`MultipleText`, `InvalidText`).
