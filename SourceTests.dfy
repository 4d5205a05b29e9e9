/**
 * The expectations of the unit tests in src/lexer.rs, stated as lemmas about
 * the stream of scans. A single-token test lexes its whole input as one
 * token; the two longer inputs yield the listed tokens, spans and error.
 */
module SourceTests {
  import opened Chars
  import opened Tokens
  import opened Matchers
  import opened Classifier
  import opened Stream

  /** The composition rule for a token with its text spelled out. */
  lemma TokenAt(s: seq<char>, p: nat, q: nat, k: Token, w: seq<char>)
    requires Blank(s, p, q) && q + |w| <= |s| && s[q..q + |w|] == w && Lexeme(k, w)
    requires q + |w| == |s| || (q + |w| < |s| && IsWhitespace(s[q + |w|]))
    requires k == SignatureContent ==> !IsIdentifier(w) && !IsSignedDigits(w)
    ensures Scans(s, p) == [Matched(q, k, q + |w|)] + Scans(s, q + |w|)
  {
    ScansToken(s, p, q, k, |w|, q + |w|);
  }

  // Single-token inputs, src/lexer.rs:52-164.

  lemma UserDefinedKeywordTest()
    ensures Scans("!HELLO", 0) == [Matched(0, UserDefinedKeyword, 6)]
  {
    ScansWholeLexeme(UserDefinedKeyword, "!HELLO");
  }

  lemma StandardKeywordTest()
    ensures Scans("HELLO", 0) == [Matched(0, StandardKeyword, 5)]
  {
    ScansWholeLexeme(StandardKeyword, "HELLO");
  }

  lemma IntegerTest()
    ensures Scans("12345", 0) == [Matched(0, Integer, 5)]
  {
    ScansWholeLexeme(Integer, "12345");
  }

  lemma RealTest()
    ensures Scans("123.45", 0) == [Matched(0, Real, 6)]
  {
    RealLexeme();
    ScansWholeLexeme(Real, "123.45");
  }

  lemma RealLexeme()
    ensures Lexeme(Real, "123.45")
  {
    var w := "123.45";
    assert w[..3] == "123" && w[4..] == "45";
  }

  lemma RealExponentTest()
    ensures Scans("123.45E-6", 0) == [Matched(0, Real, 9)]
  {
    var w := "123.45E-6";
    assert w[..3] == "123" && w[4..] == "45E-6";
    var f := "45E-6";
    assert f[..2] == "45" && f[2..] == "E-6";
    assert IsExponent("E-6");
    ScansWholeLexeme(Real, w);
  }

  lemma StringTest()
    ensures Scans("'Hello'", 0) == [Matched(0, String, 7)]
  {
    StringLexeme();
    ScansWholeLexeme(String, "'Hello'");
  }

  lemma StringLexeme()
    ensures Lexeme(String, "'Hello'")
  {
    var w := "'Hello'";
    assert w[1..6] == "Hello";
    assert IsStringBody("Hello"[5..]);
  }

  lemma EscapedStringTest()
    ensures Scans("'It\\'s a test'", 0) == [Matched(0, String, 14)]
  {
    var w := "'It\\'s a test'";
    assert StringLength(w, 0) == 14;
    LongestString(w, 0);
    assert w[0..14] == w;
    ScansWholeLexeme(String, w);
  }

  lemma EntityInstanceNameTest()
    ensures Scans("#12345", 0) == [Matched(0, EntityInstanceName, 6)]
  {
    ScansWholeLexeme(EntityInstanceName, "#12345");
  }

  lemma ValueInstanceNameTest()
    ensures Scans("@12345", 0) == [Matched(0, ValueInstanceName, 6)]
  {
    ScansWholeLexeme(ValueInstanceName, "@12345");
  }

  lemma ConstantEntityNameTest()
    ensures Scans("#CONSTANT1", 0) == [Matched(0, ConstantEntityName, 10)]
  {
    ScansWholeLexeme(ConstantEntityName, "#CONSTANT1");
  }

  lemma ConstantValueNameTest()
    ensures Scans("@VALUE1", 0) == [Matched(0, ConstantValueName, 7)]
  {
    ScansWholeLexeme(ConstantValueName, "@VALUE1");
  }

  lemma ResourceTest()
    ensures Scans("<http://example.com>", 0) == [Matched(0, Resource, 20)]
  {
    ResourceLexeme();
    ScansWholeLexeme(Resource, "<http://example.com>");
  }

  lemma ResourceLexeme()
    ensures Lexeme(Resource, "<http://example.com>")
  {
    assert "<http://example.com>"[1..19] == "http://example.com";
    assert AllIn("http://example.com", ResourceChar);
  }

  lemma EnumerationTest()
    ensures Scans(".ENUM1.", 0) == [Matched(0, Enumeration, 7)]
  {
    var w := ".ENUM1.";
    assert w[1..6] == "ENUM1";
    ScansWholeLexeme(Enumeration, w);
  }

  lemma BinaryTest()
    ensures Scans("\"\"0012\"\"", 0) == [Matched(0, Binary, 8)]
  {
    var w := "\"\"0012\"\"";
    assert w[2..6] == "0012";
    ScansWholeLexeme(Binary, w);
  }

  lemma SignatureContentTest()
    ensures Scans("dGVzdA==", 0) == [Matched(0, SignatureContent, 8)]
  {
    ScansWholeLexeme(SignatureContent, "dGVzdA==");
  }
}

module SourceStreamTests {
  import opened Chars
  import opened Tokens
  import opened Matchers
  import opened Classifier
  import opened Stream
  import opened SourceTests

  /** The input "!HELLO 12345 123.45 'Hello' #12345 @VALUE1", written as its pieces. */
  const Multiple: seq<char> :=
    "!HELLO" + " " + "12345" + " " + "123.45" + " " + "'Hello'" + " " + "#12345" + " " + "@VALUE1"

  /** Chains six one-token steps into the whole stream. */
  lemma Chain6(r0: seq<Scan>, r1: seq<Scan>, r2: seq<Scan>, r3: seq<Scan>, r4: seq<Scan>, r5: seq<Scan>,
               a: Scan, b: Scan, c: Scan, d: Scan, e: Scan, f: Scan)
    requires r0 == [a] + r1 && r1 == [b] + r2 && r2 == [c] + r3
    requires r3 == [d] + r4 && r4 == [e] + r5 && r5 == [f]
    ensures r0 == [a, b, c, d, e, f]
  {
  }

  /** src/lexer.rs:166-187: six tokens in order, separated by single spaces. */
  lemma MultipleTokensTest(s: seq<char>)
    requires s == Multiple
    ensures Scans(s, 0) == [
      Matched(0, UserDefinedKeyword, 6), Matched(7, Integer, 12), Matched(13, Real, 19),
      Matched(20, String, 27), Matched(28, EntityInstanceName, 34), Matched(35, ConstantValueName, 42)]
  {
    MultipleStep1(s);
    MultipleStep2(s);
    MultipleStep3(s);
    MultipleStep4(s);
    MultipleStep5(s);
    MultipleStep6(s);
    Chain6(Scans(s, 0), Scans(s, 6), Scans(s, 12), Scans(s, 19), Scans(s, 27), Scans(s, 34),
      Matched(0, UserDefinedKeyword, 6), Matched(7, Integer, 12), Matched(13, Real, 19),
      Matched(20, String, 27), Matched(28, EntityInstanceName, 34), Matched(35, ConstantValueName, 42));
  }

  lemma MultipleText()
    ensures Multiple[0..6] == "!HELLO"
    ensures Multiple[7..12] == "12345"
    ensures Multiple[13..19] == "123.45"
    ensures Multiple[20..27] == "'Hello'"
    ensures Multiple[28..34] == "#12345"
    ensures Multiple[35..42] == "@VALUE1"
  {
  }

  lemma MultipleStep1(s: seq<char>)
    requires s == Multiple
    ensures Scans(s, 0) == [Matched(0, UserDefinedKeyword, 6)] + Scans(s, 6)
  {
    MultipleText();
    TokenAt(s, 0, 0, UserDefinedKeyword, "!HELLO");
  }

  lemma MultipleStep2(s: seq<char>)
    requires s == Multiple
    ensures Scans(s, 6) == [Matched(7, Integer, 12)] + Scans(s, 12)
  {
    MultipleText();
    TokenAt(s, 6, 7, Integer, "12345");
  }

  lemma MultipleStep3(s: seq<char>)
    requires s == Multiple
    ensures Scans(s, 12) == [Matched(13, Real, 19)] + Scans(s, 19)
  {
    MultipleText();
    RealLexeme();
    TokenAt(s, 12, 13, Real, "123.45");
  }

  lemma MultipleStep4(s: seq<char>)
    requires s == Multiple
    ensures Scans(s, 19) == [Matched(20, String, 27)] + Scans(s, 27)
  {
    MultipleText();
    StringLexeme();
    TokenAt(s, 19, 20, String, "'Hello'");
  }

  lemma MultipleStep5(s: seq<char>)
    requires s == Multiple
    ensures Scans(s, 27) == [Matched(28, EntityInstanceName, 34)] + Scans(s, 34)
  {
    MultipleText();
    TokenAt(s, 27, 28, EntityInstanceName, "#12345");
  }

  lemma MultipleStep6(s: seq<char>)
    requires s == Multiple
    ensures Scans(s, 34) == [Matched(35, ConstantValueName, 42)]
  {
    MultipleText();
    TokenAt(s, 34, 35, ConstantValueName, "@VALUE1");
    assert Scans(s, 42) == [];
  }

  /** The input "!HELLO @12345 @@123", written as its pieces. */
  const Invalid: seq<char> := "!HELLO" + " " + "@12345" + " " + "@" + "@123"

  /** The only lexemes that start with `@` continue with a digit or a capital. */
  lemma AtSignLexeme(k: Token, w: seq<char>)
    ensures Lexeme(k, w) && w[0..1] == "@" ==> |w| >= 2 && (IsDigit(w[1]) || IsUpper(w[1]))
  {
    if Lexeme(k, w) && w[0..1] == "@" {
      LexemeStart(k, w);
      assert w[0] == w[0..1][0];
      assert w[1..][0] == w[1];
    }
  }

  /** Nothing matches at an `@` that another `@` follows. */
  lemma DoubledAtSign(s: seq<char>, i: nat)
    requires i + 1 < |s| && s[i] == '@' && s[i + 1] == '@'
    ensures NoLexemeAt(s, i)
  {
    forall k: Token, m: nat ensures !LexemeAt(k, s, i, m) {
      if 1 <= m && i + m <= |s| {
        var w := s[i..i + m];
        assert w[0..1] == [s[i]];
        AtSignLexeme(k, w);
        if m >= 2 {
          assert w[1] == s[i + 1];
        }
      }
    }
  }

  /**
   * src/lexer.rs:189-201: the second `@` of `@@` is where nothing matches;
   * the error consumes the first `@` alone and lexing goes on after it.
   */
  lemma InvalidInputTest(s: seq<char>)
    requires s == Invalid
    ensures Scans(s, 0) == [
      Matched(0, UserDefinedKeyword, 6), Matched(7, ValueInstanceName, 13),
      Unmatched(14, 15), Matched(15, ValueInstanceName, 19)]
  {
    InvalidStep1(s);
    InvalidStep2(s);
    InvalidStep3(s);
    InvalidStep4(s);
    Chain4(Scans(s, 0), Scans(s, 6), Scans(s, 13), Scans(s, 15),
      Matched(0, UserDefinedKeyword, 6), Matched(7, ValueInstanceName, 13),
      Unmatched(14, 15), Matched(15, ValueInstanceName, 19));
  }

  lemma Chain4(r0: seq<Scan>, r1: seq<Scan>, r2: seq<Scan>, r3: seq<Scan>, a: Scan, b: Scan, c: Scan, d: Scan)
    requires r0 == [a] + r1 && r1 == [b] + r2 && r2 == [c] + r3 && r3 == [d]
    ensures r0 == [a, b, c, d]
  {
  }

  lemma InvalidText()
    ensures Invalid[0..6] == "!HELLO"
    ensures Invalid[7..13] == "@12345"
    ensures Invalid[15..19] == "@123"
  {
  }

  lemma InvalidStep1(s: seq<char>)
    requires s == Invalid
    ensures Scans(s, 0) == [Matched(0, UserDefinedKeyword, 6)] + Scans(s, 6)
  {
    InvalidText();
    TokenAt(s, 0, 0, UserDefinedKeyword, "!HELLO");
  }

  lemma InvalidStep2(s: seq<char>)
    requires s == Invalid
    ensures Scans(s, 6) == [Matched(7, ValueInstanceName, 13)] + Scans(s, 13)
  {
    InvalidText();
    TokenAt(s, 6, 7, ValueInstanceName, "@12345");
  }

  lemma InvalidStep3(s: seq<char>)
    requires s == Invalid
    ensures Scans(s, 13) == [Unmatched(14, 15)] + Scans(s, 15)
  {
    assert s[13] == ' ' && s[14] == '@' && s[15] == '@';
    DoubledAtSign(s, 14);
    ScansError(s, 13, 14, 15);
  }

  lemma InvalidStep4(s: seq<char>)
    requires s == Invalid
    ensures Scans(s, 15) == [Matched(15, ValueInstanceName, 19)]
  {
    InvalidText();
    TokenAt(s, 15, 15, ValueInstanceName, "@123");
    assert Scans(s, 19) == [];
  }

  /** Empty and all-blank inputs end the stream at once. */
  lemma BlankInputTest()
    ensures Scans("", 0) == []
    ensures Scans(" \t\n\U{000C} ", 0) == []
  {
    var b := " \t\n\U{000C} ";
    assert forall j :: 0 <= j < |b| ==> IsWhitespace(b[j]);
    assert Blank(b, 0, |b|);
  }
}
