/**
 * The thirteen token kinds of the STEP physical-file lexer and, for each, the
 * set of words its regular expression denotes, written as a predicate on a
 * whole word. These predicates are the reference definition the matchers and
 * the classifier are proved against.
 */
module Tokens {
  import opened Chars

  /** The variants of the `Token` enum, in declaration order. */
  datatype Token =
    | UserDefinedKeyword
    | StandardKeyword
    | Integer
    | Real
    | String
    | EntityInstanceName
    | ValueInstanceName
    | ConstantEntityName
    | ConstantValueName
    | Resource
    | Enumeration
    | Binary
    | SignatureContent

  /** `[A-Z][A-Z0-9]*` */
  predicate IsIdentifier(w: seq<char>) {
    |w| >= 1 && IsUpper(w[0]) && AllIn(w[1..], UpperAlnum)
  }

  /** `[0-9]+` */
  predicate IsDigits(w: seq<char>) {
    |w| >= 1 && AllIn(w, Digit)
  }

  /** `[+-]?[0-9]+` */
  predicate IsSignedDigits(w: seq<char>) {
    IsDigits(w) || (|w| >= 1 && IsSign(w[0]) && IsDigits(w[1..]))
  }

  /** `[eE][+-]?[0-9]+` */
  predicate IsExponent(w: seq<char>) {
    |w| >= 1 && (w[0] == 'e' || w[0] == 'E') && IsSignedDigits(w[1..])
  }

  /** `[0-9]+([eE][+-]?[0-9]+)?`: what follows the decimal point of a real. */
  predicate IsFraction(w: seq<char>) {
    IsDigits(w) || exists q :: 0 < q < |w| && IsDigits(w[..q]) && IsExponent(w[q..])
  }

  /** `[0-9]+\.[0-9]+([eE][+-]?[0-9]+)?` */
  predicate IsUnsignedReal(w: seq<char>) {
    exists p :: 0 < p < |w| && IsDigits(w[..p]) && w[p] == '.' && IsFraction(w[p + 1..])
  }

  /** A fraction with an exponent, given the split point. */
  lemma FractionIntro(w: seq<char>, q: nat)
    requires 0 < q < |w| && IsDigits(w[..q]) && IsExponent(w[q..])
    ensures IsFraction(w)
  {
  }

  /** An unsigned real, given the offset of its decimal point. */
  lemma UnsignedRealIntro(w: seq<char>, p: nat)
    requires 0 < p < |w| && IsDigits(w[..p]) && w[p] == '.' && IsFraction(w[p + 1..])
    ensures IsUnsignedReal(w)
  {
  }

  /** `[+-]?[0-9]+\.[0-9]+([eE][+-]?[0-9]+)?` */
  predicate IsReal(w: seq<char>) {
    IsUnsignedReal(w) || (|w| >= 1 && IsSign(w[0]) && IsUnsignedReal(w[1..]))
  }

  /**
   * `([^'\\]|\\.)*`: characters other than a quote or a backslash, and
   * backslash pairs. The regex `.` stands for any character except a line
   * feed, so a backslash followed by a line feed is not a pair.
   */
  predicate IsStringBody(b: seq<char>)
    decreases |b|
  {
    || b == []
    || (b[0] != '\'' && b[0] != '\\' && IsStringBody(b[1..]))
    || (|b| >= 2 && b[0] == '\\' && b[1] != '\n' && IsStringBody(b[2..]))
  }

  /** `'([^'\\]|\\.)*'` */
  predicate IsString(w: seq<char>) {
    |w| >= 2 && w[0] == '\'' && w[|w| - 1] == '\'' && IsStringBody(w[1..|w| - 1])
  }

  /** `<[a-zA-Z0-9:/?#\[\]@!$&'()*+,;=.%-]+>` */
  predicate IsResource(w: seq<char>) {
    |w| >= 3 && w[0] == '<' && w[|w| - 1] == '>' && AllIn(w[1..|w| - 1], ResourceChar)
  }

  /** `\.[A-Z][A-Z0-9]*\.` */
  predicate IsEnumeration(w: seq<char>) {
    |w| >= 3 && w[0] == '.' && w[|w| - 1] == '.' && IsIdentifier(w[1..|w| - 1])
  }

  /** `[0-3]?[0-9A-F]*` */
  predicate IsBinaryBody(b: seq<char>) {
    AllIn(b, Hex) || (|b| >= 1 && '0' <= b[0] <= '3' && AllIn(b[1..], Hex))
  }

  /** The optional leading `[0-3]` adds no words: it is itself a hex digit. */
  lemma BinaryBodyIsHex(b: seq<char>)
    requires IsBinaryBody(b)
    ensures AllIn(b, Hex)
  {
  }

  /** `""[0-3]?[0-9A-F]*""`: the body sits between two doubled double quotes. */
  predicate IsBinary(w: seq<char>) {
    && |w| >= 4
    && w[0] == '"' && w[1] == '"'
    && w[|w| - 2] == '"' && w[|w| - 1] == '"'
    && IsBinaryBody(w[2..|w| - 2])
  }

  /** `[a-zA-Z0-9+/=]+` */
  predicate IsSignature(w: seq<char>) {
    |w| >= 1 && AllIn(w, Base64)
  }

  /** `w` is, as a whole, matched by the pattern of kind `k`. */
  predicate Lexeme(k: Token, w: seq<char>) {
    match k
    case UserDefinedKeyword => |w| >= 1 && w[0] == '!' && IsIdentifier(w[1..])
    case StandardKeyword => IsIdentifier(w)
    case Integer => IsSignedDigits(w)
    case Real => IsReal(w)
    case String => IsString(w)
    case EntityInstanceName => |w| >= 1 && w[0] == '#' && IsDigits(w[1..])
    case ValueInstanceName => |w| >= 1 && w[0] == '@' && IsDigits(w[1..])
    case ConstantEntityName => |w| >= 1 && w[0] == '#' && IsIdentifier(w[1..])
    case ConstantValueName => |w| >= 1 && w[0] == '@' && IsIdentifier(w[1..])
    case Resource => IsResource(w)
    case Enumeration => IsEnumeration(w)
    case Binary => IsBinary(w)
    case SignatureContent => IsSignature(w)
  }

  /**
   * The priority that breaks a tie between patterns matching the same length.
   * StandardKeyword and Integer declare `priority=3`; every other value is the
   * default logos derives from the pattern: 2 per literal character, 1 per
   * character class, nothing for an optional or starred part, and the body of
   * a `+` counted once. Only the comparison of SignatureContent (1) with
   * StandardKeyword and Integer is ever consulted (see OverlapsOnlyWithSignature).
   */
  function Priority(k: Token): nat {
    match k
    case UserDefinedKeyword => 3
    case StandardKeyword => 3
    case Integer => 3
    case Real => 4
    case String => 4
    case EntityInstanceName => 3
    case ValueInstanceName => 3
    case ConstantEntityName => 3
    case ConstantValueName => 3
    case Resource => 5
    case Enumeration => 5
    case Binary => 8
    case SignatureContent => 1
  }

  /** The characters a lexeme of kind `k` can start with. */
  predicate CanStart(k: Token, c: char) {
    match k
    case UserDefinedKeyword => c == '!'
    case StandardKeyword => IsUpper(c)
    case Integer => IsSign(c) || IsDigit(c)
    case Real => IsSign(c) || IsDigit(c)
    case String => c == '\''
    case EntityInstanceName => c == '#'
    case ValueInstanceName => c == '@'
    case ConstantEntityName => c == '#'
    case ConstantValueName => c == '@'
    case Resource => c == '<'
    case Enumeration => c == '.'
    case Binary => c == '"'
    case SignatureContent => InClass(c, Base64)
  }

  lemma UnsignedRealStart(w: seq<char>)
    requires IsUnsignedReal(w)
    ensures |w| >= 1 && IsDigit(w[0]) && '.' in w
  {
    var p :| 0 < p < |w| && IsDigits(w[..p]) && w[p] == '.' && IsFraction(w[p + 1..]);
    assert w[..p][0] == w[0];
  }

  /** No lexeme starts with a blank. */
  lemma CanStartSolid(k: Token, c: char)
    requires CanStart(k, c)
    ensures !IsWhitespace(c)
  {
  }

  /** Every lexeme is non-empty and starts with a character its kind allows. */
  lemma LexemeStart(k: Token, w: seq<char>)
    requires Lexeme(k, w)
    ensures |w| >= 1 && CanStart(k, w[0])
  {
    match k
    case StandardKeyword =>
    case Real =>
      if IsUnsignedReal(w) {
        UnsignedRealStart(w);
      }
    case Integer =>
      if IsDigits(w) {
        assert InClass(w[0], Digit);
      }
    case SignatureContent =>
      assert InClass(w[0], Base64);
    case _ =>
  }

  /** Every real contains a decimal point. */
  lemma RealHasDot(w: seq<char>)
    requires IsReal(w)
    ensures '.' in w
  {
    if IsUnsignedReal(w) {
      UnsignedRealStart(w);
    } else {
      UnsignedRealStart(w[1..]);
      var j :| 0 <= j < |w[1..]| && w[1..][j] == '.';
      assert w[j + 1] == '.';
    }
  }

  /** Neither an integer nor a signature run contains a decimal point. */
  lemma NoDot(k: Token, w: seq<char>)
    requires k == Integer || k == SignatureContent
    requires Lexeme(k, w)
    ensures '.' !in w
  {
    forall j | 0 <= j < |w| ensures w[j] != '.' {
      if k == SignatureContent {
        assert InClass(w[j], Base64);
      } else if IsDigits(w) {
        assert InClass(w[j], Digit);
      } else if j > 0 {
        assert InClass(w[1..][j - 1], Digit);
      }
    }
  }

  /**
   * The only words two different patterns both match are uppercase
   * identifiers and signed or unsigned digit runs, which SignatureContent
   * also matches.
   */
  lemma OverlapsOnlyWithSignature(k1: Token, k2: Token, w: seq<char>)
    requires k1 != k2 && Lexeme(k1, w) && Lexeme(k2, w)
    ensures || (k1 == SignatureContent && (k2 == StandardKeyword || k2 == Integer))
            || (k2 == SignatureContent && (k1 == StandardKeyword || k1 == Integer))
  {
    LexemeStart(k1, w);
    LexemeStart(k2, w);
    if |w| >= 2 {
      assert w[1..][0] == w[1];
    }
    if k1 == Real || k2 == Real {
      RealHasDot(w);
      if k1 == Integer || k1 == SignatureContent {
        NoDot(k1, w);
      } else if k2 == Integer || k2 == SignatureContent {
        NoDot(k2, w);
      }
    }
  }

  /**
   * The ambiguity check logos performs when it compiles the enum: no word is
   * matched by two different patterns of equal priority.
   */
  lemma EqualPriorityDisjoint(k1: Token, k2: Token, w: seq<char>)
    requires k1 != k2 && Priority(k1) == Priority(k2)
    ensures !(Lexeme(k1, w) && Lexeme(k2, w))
  {
    if Lexeme(k1, w) && Lexeme(k2, w) {
      OverlapsOnlyWithSignature(k1, k2, w);
    }
  }

  // ------------------------------------------------------------ whitespace

  /** `w` contains no character of the skip rule. */
  predicate Solid(w: seq<char>) {
    forall j :: 0 <= j < |w| ==> !IsWhitespace(w[j])
  }

  lemma ClassIsSolid(w: seq<char>, k: CharClass)
    requires AllIn(w, k)
    ensures Solid(w)
  {
    forall j | 0 <= j < |w| ensures !IsWhitespace(w[j]) {
      assert InClass(w[j], k);
      assert ' ' !in ":/?#[]@!$&'()*+,;=.%-";
    }
  }

  lemma SolidCons(w: seq<char>)
    requires |w| >= 1 && !IsWhitespace(w[0]) && Solid(w[1..])
    ensures Solid(w)
  {
    forall j | 1 <= j < |w| ensures !IsWhitespace(w[j]) {
      assert w[j] == w[1..][j - 1];
    }
  }

  lemma SolidSplit(w: seq<char>, p: nat)
    requires p <= |w| && Solid(w[..p]) && Solid(w[p..])
    ensures Solid(w)
  {
    forall j | 0 <= j < |w| ensures !IsWhitespace(w[j]) {
      if j < p {
        assert w[j] == w[..p][j];
      } else {
        assert w[j] == w[p..][j - p];
      }
    }
  }

  /** A word framed by two non-blank characters around a solid middle is solid. */
  lemma SolidFrame(w: seq<char>)
    requires |w| >= 2 && !IsWhitespace(w[0]) && !IsWhitespace(w[|w| - 1]) && Solid(w[1..|w| - 1])
    ensures Solid(w)
  {
    forall j | 1 <= j < |w| - 1 ensures !IsWhitespace(w[j]) {
      assert w[j] == w[1..|w| - 1][j - 1];
    }
  }

  lemma IdentifierIsSolid(w: seq<char>)
    requires IsIdentifier(w)
    ensures Solid(w)
  {
    ClassIsSolid(w[1..], UpperAlnum);
    SolidCons(w);
  }

  lemma SignedDigitsIsSolid(w: seq<char>)
    requires IsSignedDigits(w)
    ensures Solid(w)
  {
    if IsDigits(w) {
      ClassIsSolid(w, Digit);
    } else {
      ClassIsSolid(w[1..], Digit);
      SolidCons(w);
    }
  }

  lemma FractionIsSolid(f: seq<char>)
    requires IsFraction(f)
    ensures Solid(f)
  {
    if IsDigits(f) {
      ClassIsSolid(f, Digit);
    } else {
      var q :| 0 < q < |f| && IsDigits(f[..q]) && IsExponent(f[q..]);
      ClassIsSolid(f[..q], Digit);
      var e := f[q..];
      SignedDigitsIsSolid(e[1..]);
      SolidCons(e);
      SolidSplit(f, q);
    }
  }

  lemma UnsignedRealIsSolid(w: seq<char>)
    requires IsUnsignedReal(w)
    ensures Solid(w)
  {
    var p :| 0 < p < |w| && IsDigits(w[..p]) && w[p] == '.' && IsFraction(w[p + 1..]);
    ClassIsSolid(w[..p], Digit);
    var t := w[p..];
    assert t[1..] == w[p + 1..];
    FractionIsSolid(t[1..]);
    SolidCons(t);
    SolidSplit(w, p);
  }

  lemma BinaryIsSolid(w: seq<char>)
    requires IsBinary(w)
    ensures Solid(w)
  {
    var b := w[2..|w| - 2];
    BinaryBodyIsHex(b);
    ClassIsSolid(b, Hex);
    forall j | 2 <= j < |w| - 2 ensures !IsWhitespace(w[j]) {
      assert w[j] == b[j - 2];
    }
  }

  /** Only a quoted string can have a blank inside it. */
  lemma LexemeIsSolid(k: Token, w: seq<char>)
    requires Lexeme(k, w) && k != String
    ensures Solid(w)
  {
    match k
    case StandardKeyword => IdentifierIsSolid(w);
    case Integer => SignedDigitsIsSolid(w);
    case Real =>
      if IsUnsignedReal(w) {
        UnsignedRealIsSolid(w);
      } else {
        UnsignedRealIsSolid(w[1..]);
        SolidCons(w);
      }
    case Resource =>
      ClassIsSolid(w[1..|w| - 1], ResourceChar);
      SolidFrame(w);
    case Enumeration =>
      IdentifierIsSolid(w[1..|w| - 1]);
      SolidFrame(w);
    case Binary => BinaryIsSolid(w);
    case SignatureContent => ClassIsSolid(w, Base64);
    case EntityInstanceName =>
      ClassIsSolid(w[1..], Digit);
      SolidCons(w);
    case ValueInstanceName =>
      ClassIsSolid(w[1..], Digit);
      SolidCons(w);
    case UserDefinedKeyword =>
      IdentifierIsSolid(w[1..]);
      SolidCons(w);
    case ConstantEntityName =>
      IdentifierIsSolid(w[1..]);
      SolidCons(w);
    case ConstantValueName =>
      IdentifierIsSolid(w[1..]);
      SolidCons(w);
  }
}
