/**
 * One matcher per token pattern: the length of the longest window of the
 * input, starting at a given offset, that the pattern matches (0 when there
 * is none). Each matcher is proved against the word-level definition in
 * Tokens.
 */
module Matchers {
  import opened Wrappers
  import opened Chars
  import opened Tokens

  /** The window of length `m` at offset `i` of `s` is a whole lexeme of kind `k`. */
  predicate LexemeAt(k: Token, s: seq<char>, i: nat, m: nat) {
    i + m <= |s| && Lexeme(k, s[i..i + m])
  }

  /** `n` is the length of the longest lexeme of kind `k` at offset `i`, or 0 when there is none. */
  ghost predicate IsLongestMatch(k: Token, s: seq<char>, i: nat, n: nat) {
    && i + n <= |s|
    && (n > 0 ==> LexemeAt(k, s, i, n))
    && forall m: nat :: LexemeAt(k, s, i, m) ==> m <= n
  }

  lemma Window(s: seq<char>, i: nat, m: nat)
    requires i < |s| && 0 < m && i + m <= |s|
    ensures s[i..i + m][0] == s[i] && s[i..i + m][1..] == s[i + 1..i + m]
  {
  }

  /** A slice of a window is a window. */
  lemma SubWindow(s: seq<char>, i: nat, m: nat, a: nat, b: nat)
    requires i + m <= |s| && a <= b <= m
    ensures s[i..i + m][a..b] == s[i + a..i + b]
  {
    var w := s[i..i + m];
    assert forall j | 0 <= j < b - a :: w[a..b][j] == w[a + j] == s[i + a + j];
  }

  /** A window given by its bounds is the window given by its length. */
  lemma Rebase(s: seq<char>, a: nat, b: nat)
    requires a <= b <= |s|
    ensures s[a..a + (b - a)] == s[a..b]
  {
  }

  /** A prefix of a window is a window. */
  lemma TakeWindow(s: seq<char>, i: nat, m: nat, p: nat)
    requires i + m <= |s| && p <= m
    ensures s[i..i + m][..p] == s[i..i + p]
  {
  }

  /** A suffix of a window is a window. */
  lemma DropWindow(s: seq<char>, i: nat, m: nat, p: nat)
    requires i + m <= |s| && p <= m
    ensures s[i..i + m][p..] == s[i + p..i + m]
  {
  }

  /** The windows at `i` wholly inside class `k` are exactly the prefixes of the maximal run. */
  lemma AllInWindow(s: seq<char>, i: nat, k: CharClass, m: nat)
    requires i + m <= |s|
    ensures AllIn(s[i..i + m], k) <==> m <= RunLength(s, i, k)
  {
    var r := RunLength(s, i, k);
    if m <= r {
      RunLengthInClass(s, i, k);
      var w, v := s[i..i + m], s[i..i + r];
      forall j | 0 <= j < m ensures InClass(w[j], k) {
        assert w[j] == s[i + j] == v[j];
        assert InClass(v[j], k);
      }
    } else {
      RunLengthMaximal(s, i, k, m);
    }
  }

  // ---------------------------------------------------------------- pieces

  /** Length of the identifier `[A-Z][A-Z0-9]*` at offset `i`, 0 if none. */
  function IdentifierLength(s: seq<char>, i: nat): (n: nat)
    requires i <= |s|
    ensures i + n <= |s|
  {
    if i < |s| && IsUpper(s[i]) then 1 + RunLength(s, i + 1, UpperAlnum) else 0
  }

  lemma IdentifierWindow(s: seq<char>, i: nat, m: nat)
    requires i + m <= |s|
    ensures IsIdentifier(s[i..i + m]) <==> 0 < m <= IdentifierLength(s, i)
  {
    if m > 0 {
      Window(s, i, m);
      AllInWindow(s, i + 1, UpperAlnum, m - 1);
    }
  }

  lemma DigitsWindow(s: seq<char>, i: nat, m: nat)
    requires i + m <= |s|
    ensures IsDigits(s[i..i + m]) <==> 0 < m <= RunLength(s, i, Digit)
  {
    AllInWindow(s, i, Digit, m);
  }

  /** Length of `c[A-Z][A-Z0-9]*` at offset `i`, 0 if none. */
  function PrefixedIdentifierLength(s: seq<char>, i: nat, c: char): (n: nat)
    requires i <= |s|
    ensures i + n <= |s|
  {
    if i < |s| && s[i] == c && IdentifierLength(s, i + 1) > 0 then 1 + IdentifierLength(s, i + 1) else 0
  }

  lemma PrefixedIdentifierWindow(s: seq<char>, i: nat, c: char, m: nat)
    requires i + m <= |s|
    ensures (|s[i..i + m]| >= 1 && s[i..i + m][0] == c && IsIdentifier(s[i..i + m][1..]))
            <==> 1 < m <= PrefixedIdentifierLength(s, i, c)
  {
    if m > 0 {
      Window(s, i, m);
      IdentifierWindow(s, i + 1, m - 1);
    }
  }

  /** Length of `c[0-9]+` at offset `i`, 0 if none. */
  function PrefixedDigitsLength(s: seq<char>, i: nat, c: char): (n: nat)
    requires i <= |s|
    ensures i + n <= |s|
  {
    if i < |s| && s[i] == c && RunLength(s, i + 1, Digit) > 0 then 1 + RunLength(s, i + 1, Digit) else 0
  }

  lemma PrefixedDigitsWindow(s: seq<char>, i: nat, c: char, m: nat)
    requires i + m <= |s|
    ensures (|s[i..i + m]| >= 1 && s[i..i + m][0] == c && IsDigits(s[i..i + m][1..]))
            <==> 1 < m <= PrefixedDigitsLength(s, i, c)
  {
    if m > 0 {
      Window(s, i, m);
      DigitsWindow(s, i + 1, m - 1);
    }
  }

  /** Length of `[+-]?[0-9]+` at offset `i`, 0 if none. */
  function SignedDigitsLength(s: seq<char>, i: nat): (n: nat)
    requires i <= |s|
    ensures i + n <= |s|
  {
    if i < |s| && IsSign(s[i]) then
      var d := RunLength(s, i + 1, Digit);
      if d > 0 then d + 1 else 0
    else
      RunLength(s, i, Digit)
  }

  lemma SignedDigitsMaximal(s: seq<char>, i: nat, m: nat)
    requires i + m <= |s| && IsSignedDigits(s[i..i + m])
    ensures 0 < m <= SignedDigitsLength(s, i)
  {
    var w := s[i..i + m];
    Window(s, i, m);
    if IsDigits(w) {
      assert InClass(w[0], Digit);
      DigitsWindow(s, i, m);
    } else {
      Rebase(s, i + 1, i + m);
      DigitsWindow(s, i + 1, m - 1);
    }
  }

  /** A prefix of the maximal digit run at `a` is a digit window. */
  lemma DigitsRun(s: seq<char>, a: nat, b: nat)
    requires a < b <= |s| && b - a <= RunLength(s, a, Digit)
    ensures IsDigits(s[a..b])
  {
    DigitsWindow(s, a, b - a);
    Rebase(s, a, b);
  }

  /** The first character and the rest of a window given by its bounds. */
  lemma Tail(s: seq<char>, a: nat, b: nat)
    requires a < b <= |s|
    ensures s[a..b][0] == s[a] && s[a..b][1..] == s[a + 1..b]
  {
  }

  lemma SignedDigitsLongest(s: seq<char>, a: nat, b: nat)
    requires a <= b <= |s| && b - a == SignedDigitsLength(s, a) > 0
    ensures IsSignedDigits(s[a..b])
  {
    if a < |s| && IsSign(s[a]) {
      DigitsRun(s, a + 1, b);
      Tail(s, a, b);
    } else {
      DigitsRun(s, a, b);
    }
  }

  lemma SignedDigitsWindow(s: seq<char>, i: nat, m: nat)
    requires i + m <= |s|
    ensures IsSignedDigits(s[i..i + m]) ==> 0 < m <= SignedDigitsLength(s, i)
    ensures SignedDigitsLength(s, i) > 0 ==> IsSignedDigits(s[i..i + SignedDigitsLength(s, i)])
  {
    if IsSignedDigits(s[i..i + m]) {
      SignedDigitsMaximal(s, i, m);
    }
    if SignedDigitsLength(s, i) > 0 {
      SignedDigitsLongest(s, i, i + SignedDigitsLength(s, i));
    }
  }

  /** Length of `[eE][+-]?[0-9]+` at offset `i`, 0 if none. */
  function ExponentLength(s: seq<char>, i: nat): (n: nat)
    requires i <= |s|
    ensures i + n <= |s|
  {
    if i < |s| && (s[i] == 'e' || s[i] == 'E') && SignedDigitsLength(s, i + 1) > 0 then
      1 + SignedDigitsLength(s, i + 1)
    else
      0
  }

  lemma ExponentHead(s: seq<char>, a: nat, b: nat)
    requires a <= b <= |s| && IsExponent(s[a..b])
    ensures a < b && (s[a] == 'e' || s[a] == 'E')
  {
    assert s[a..b][0] == s[a];
  }

  lemma ExponentMaximal(s: seq<char>, i: nat, m: nat)
    requires i + m <= |s| && IsExponent(s[i..i + m])
    ensures 0 < m <= ExponentLength(s, i)
  {
    Window(s, i, m);
    Rebase(s, i + 1, i + m);
    SignedDigitsMaximal(s, i + 1, m - 1);
  }

  lemma ExponentLongest(s: seq<char>, a: nat, b: nat)
    requires a <= b <= |s| && b - a == ExponentLength(s, a) > 0
    ensures IsExponent(s[a..b])
  {
    SignedDigitsLongest(s, a + 1, b);
    Tail(s, a, b);
  }

  /** Length of `[0-9]+([eE][+-]?[0-9]+)?` at offset `j`, 0 if none. */
  function FractionLength(s: seq<char>, j: nat): (n: nat)
    requires j <= |s|
    ensures j + n <= |s|
  {
    var d := RunLength(s, j, Digit);
    if d == 0 then 0 else d + ExponentLength(s, j + d)
  }

  lemma FractionLengthAt(s: seq<char>, j: nat, d: nat)
    requires j + d <= |s| && 0 < d && RunLength(s, j, Digit) == d
    ensures FractionLength(s, j) == d + ExponentLength(s, j + d)
  {
  }

  /** The split point of a fraction window with an exponent, read off the input. */
  lemma FractionParts(s: seq<char>, j: nat, m: nat) returns (q: nat)
    requires j + m <= |s| && IsFraction(s[j..j + m]) && !IsDigits(s[j..j + m])
    ensures 0 < q < m && IsDigits(s[j..j + q]) && IsExponent(s[j + q..j + m])
  {
    var w := s[j..j + m];
    q :| 0 < q < |w| && IsDigits(w[..q]) && IsExponent(w[q..]);
    TakeWindow(s, j, m, q);
    DropWindow(s, j, m, q);
  }

  lemma FractionMaximal(s: seq<char>, j: nat, m: nat)
    requires j + m <= |s| && IsFraction(s[j..j + m])
    ensures 0 < m <= FractionLength(s, j)
  {
    if IsDigits(s[j..j + m]) {
      DigitsWindow(s, j, m);
    } else {
      var q := FractionParts(s, j, m);
      FractionSplit(s, j, m, q);
    }
  }

  /** In a fraction with an exponent, the digits before the exponent are the maximal digit run. */
  lemma FractionSplit(s: seq<char>, j: nat, m: nat, q: nat)
    requires j + m <= |s| && 0 < q < m
    requires IsDigits(s[j..j + q]) && IsExponent(s[j + q..j + m])
    ensures m <= FractionLength(s, j)
  {
    ExponentHead(s, j + q, j + m);
    RunLengthUnique(s, j, Digit, q);
    Rebase(s, j + q, j + m);
    ExponentMaximal(s, j + q, m - q);
    FractionLengthAt(s, j, q);
  }

  lemma FractionFromParts(s: seq<char>, a: nat, c: nat, b: nat)
    requires a < c < b <= |s|
    requires IsDigits(s[a..c]) && IsExponent(s[c..b])
    ensures IsFraction(s[a..b])
  {
    var f := s[a..b];
    assert f[..c - a] == s[a..c];
    assert f[c - a..] == s[c..b];
    FractionIntro(f, c - a);
  }

  lemma FractionFound(s: seq<char>, a: nat, c: nat, b: nat)
    requires a < c <= b <= |s| && c - a <= RunLength(s, a, Digit)
    requires b - c == ExponentLength(s, c)
    ensures IsFraction(s[a..b])
  {
    if c < b {
      DigitsRun(s, a, c);
      ExponentLongest(s, c, b);
      FractionFromParts(s, a, c, b);
    } else {
      DigitsRun(s, a, b);
    }
  }

  lemma FractionLongest(s: seq<char>, a: nat, b: nat)
    requires a <= b <= |s| && b - a == FractionLength(s, a) > 0
    ensures IsFraction(s[a..b])
  {
    var d := RunLength(s, a, Digit);
    FractionLengthAt(s, a, d);
    FractionFound(s, a, a + d, b);
  }

  /** Length of `[0-9]+\.[0-9]+([eE][+-]?[0-9]+)?` at offset `i`, 0 if none. */
  function UnsignedRealLength(s: seq<char>, i: nat): (n: nat)
    requires i <= |s|
    ensures i + n <= |s|
  {
    var d := RunLength(s, i, Digit);
    if d > 0 && i + d < |s| && s[i + d] == '.' && FractionLength(s, i + d + 1) > 0 then
      d + 1 + FractionLength(s, i + d + 1)
    else
      0
  }

  lemma UnsignedRealLengthAt(s: seq<char>, a: nat, c: nat)
    requires a < c < |s| && RunLength(s, a, Digit) == c - a && s[c] == '.'
    requires FractionLength(s, c + 1) > 0
    ensures UnsignedRealLength(s, a) == c + 1 - a + FractionLength(s, c + 1)
  {
  }

  /** The split point of an unsigned real window, read off the input. */
  lemma UnsignedRealParts(s: seq<char>, i: nat, m: nat) returns (p: nat)
    requires i + m <= |s| && IsUnsignedReal(s[i..i + m])
    ensures 0 < p < m && IsDigits(s[i..i + p]) && s[i + p] == '.' && IsFraction(s[i + p + 1..i + m])
  {
    var w := s[i..i + m];
    p :| 0 < p < |w| && IsDigits(w[..p]) && w[p] == '.' && IsFraction(w[p + 1..]);
    TakeWindow(s, i, m, p);
    DropWindow(s, i, m, p + 1);
    assert w[p] == s[i + p];
  }

  /** Digits in `[a, c)`, the point at `c` and a fraction in `[d, b)`, where `d` is `c + 1`. */
  lemma UnsignedRealMaximalAt(s: seq<char>, a: nat, c: nat, d: nat, b: nat)
    requires a < c && d == c + 1 && d < b <= |s|
    requires IsDigits(s[a..c]) && s[c] == '.' && IsFraction(s[d..b])
    ensures b - a <= UnsignedRealLength(s, a)
  {
    Rebase(s, a, c);
    RunLengthUnique(s, a, Digit, c - a);
    Rebase(s, d, b);
    FractionMaximal(s, d, b - d);
    UnsignedRealLengthAt(s, a, c);
  }

  lemma UnsignedRealMaximal(s: seq<char>, i: nat, m: nat)
    requires i + m <= |s| && IsUnsignedReal(s[i..i + m])
    ensures 0 < m <= UnsignedRealLength(s, i)
  {
    var p := UnsignedRealParts(s, i, m);
    UnsignedRealMaximalAt(s, i, i + p, i + p + 1, i + m);
  }

  lemma UnsignedRealFromParts(s: seq<char>, a: nat, c: nat, b: nat)
    requires a < c && c + 1 < b <= |s|
    requires IsDigits(s[a..c]) && s[c] == '.' && IsFraction(s[c + 1..b])
    ensures IsUnsignedReal(s[a..b])
  {
    var v := s[a..b];
    var p := c - a;
    assert v[..p] == s[a..c];
    assert v[p + 1..] == s[c + 1..b];
    assert v[p] == s[c];
    UnsignedRealIntro(v, p);
  }

  lemma UnsignedRealFound(s: seq<char>, a: nat, c: nat, b: nat)
    requires a < c < b <= |s| && c - a <= RunLength(s, a, Digit) && s[c] == '.'
    requires b - (c + 1) == FractionLength(s, c + 1) > 0
    ensures IsUnsignedReal(s[a..b])
  {
    DigitsRun(s, a, c);
    FractionLongest(s, c + 1, b);
    UnsignedRealFromParts(s, a, c, b);
  }

  lemma UnsignedRealLongest(s: seq<char>, a: nat, b: nat)
    requires a <= b <= |s| && b - a == UnsignedRealLength(s, a) > 0
    ensures IsUnsignedReal(s[a..b])
  {
    var d := RunLength(s, a, Digit);
    UnsignedRealLengthAt(s, a, a + d);
    UnsignedRealFound(s, a, a + d, b);
  }

  /** A backslash pair or plain characters up to the closing quote: its offset. */
  function StringEnd(s: seq<char>, j: nat): (r: Option<nat>)
    requires j <= |s|
    ensures r.Some? ==> j <= r.value < |s| && s[r.value] == '\''
    decreases |s| - j
  {
    if j == |s| then None
    else if s[j] == '\'' then Some(j)
    else if s[j] == '\\' then
      if j + 1 < |s| && s[j + 1] != '\n' then StringEnd(s, j + 2) else None
    else
      StringEnd(s, j + 1)
  }

  /** What lies between `j` and the quote StringEnd finds is a string body. */
  lemma {:induction false} StringEndSound(s: seq<char>, j: nat)
    requires j <= |s| && StringEnd(s, j).Some?
    ensures IsStringBody(s[j..StringEnd(s, j).value])
    decreases |s| - j
  {
    var e := StringEnd(s, j).value;
    if s[j] == '\'' {
      assert s[j..e] == [];
    } else if s[j] == '\\' {
      StringEndSound(s, j + 2);
      assert s[j..e][2..] == s[j + 2..e];
    } else {
      StringEndSound(s, j + 1);
      assert s[j..e][1..] == s[j + 1..e];
    }
  }

  /** Every string body that ends at a quote is the one StringEnd finds. */
  lemma {:induction false} StringEndComplete(s: seq<char>, j: nat, e: nat)
    requires j <= e < |s| && s[e] == '\'' && IsStringBody(s[j..e])
    ensures StringEnd(s, j) == Some(e)
    decreases e - j
  {
    if j < e {
      var b := s[j..e];
      assert b[0] == s[j];
      if s[j] == '\\' {
        assert b[2..] == s[j + 2..e];
        StringEndComplete(s, j + 2, e);
      } else if s[j] != '\'' {
        assert b[1..] == s[j + 1..e];
        StringEndComplete(s, j + 1, e);
      }
    }
  }

  // -------------------------------------------------------------- matchers

  /** `![A-Z][A-Z0-9]*`: the length function finds the longest match at `i`. */
  lemma LongestUserDefinedKeyword(s: seq<char>, i: nat)
    requires i <= |s|
    ensures IsLongestMatch(UserDefinedKeyword, s, i, PrefixedIdentifierLength(s, i, '!'))
  {
    var n := PrefixedIdentifierLength(s, i, '!');
    forall m: nat | LexemeAt(UserDefinedKeyword, s, i, m) ensures m <= n {
      PrefixedIdentifierWindow(s, i, '!', m);
    }
    PrefixedIdentifierWindow(s, i, '!', n);
  }

  /** `[A-Z][A-Z0-9]*`: the length function finds the longest match at `i`. */
  lemma LongestStandardKeyword(s: seq<char>, i: nat)
    requires i <= |s|
    ensures IsLongestMatch(StandardKeyword, s, i, IdentifierLength(s, i))
  {
    var n := IdentifierLength(s, i);
    forall m: nat | LexemeAt(StandardKeyword, s, i, m) ensures m <= n {
      IdentifierWindow(s, i, m);
    }
    IdentifierWindow(s, i, n);
  }

  /** `[+-]?[0-9]+`: the length function finds the longest match at `i`. */
  lemma LongestInteger(s: seq<char>, i: nat)
    requires i <= |s|
    ensures IsLongestMatch(Integer, s, i, SignedDigitsLength(s, i))
  {
    var n := SignedDigitsLength(s, i);
    forall m: nat | LexemeAt(Integer, s, i, m) ensures m <= n {
      SignedDigitsWindow(s, i, m);
    }
    SignedDigitsWindow(s, i, n);
  }

  /** Length of a real, sign included, at offset `i`, 0 if none. */
  function SignedRealLength(s: seq<char>, i: nat): (n: nat)
    requires i <= |s|
    ensures i + n <= |s|
  {
    if i < |s| && IsSign(s[i]) then
      var u := UnsignedRealLength(s, i + 1);
      if u > 0 then u + 1 else 0
    else
      UnsignedRealLength(s, i)
  }

  lemma RealMaximal(s: seq<char>, i: nat, m: nat)
    requires LexemeAt(Real, s, i, m)
    ensures m <= SignedRealLength(s, i)
  {
    var w := s[i..i + m];
    LexemeStart(Real, w);
    Window(s, i, m);
    if IsUnsignedReal(w) {
      UnsignedRealStart(w);
      UnsignedRealMaximal(s, i, m);
    } else {
      UnsignedRealMaximal(s, i + 1, m - 1);
    }
  }

  lemma SignedRealIntro(w: seq<char>)
    requires |w| >= 1 && IsSign(w[0]) && IsUnsignedReal(w[1..])
    ensures Lexeme(Real, w)
  {
  }

  lemma RealLongest(s: seq<char>, i: nat)
    requires i <= |s| && SignedRealLength(s, i) > 0
    ensures LexemeAt(Real, s, i, SignedRealLength(s, i))
  {
    var n := SignedRealLength(s, i);
    if i < |s| && IsSign(s[i]) {
      UnsignedRealLongest(s, i + 1, i + n);
      Tail(s, i, i + n);
      SignedRealIntro(s[i..i + n]);
    } else {
      UnsignedRealLongest(s, i, i + n);
    }
  }

  /** `[+-]?[0-9]+\.[0-9]+([eE][+-]?[0-9]+)?`: the length function finds the longest match at `i`. */
  lemma LongestReal(s: seq<char>, i: nat)
    requires i <= |s|
    ensures IsLongestMatch(Real, s, i, SignedRealLength(s, i))
  {
    var n := SignedRealLength(s, i);
    forall m: nat | LexemeAt(Real, s, i, m) ensures m <= n {
      RealMaximal(s, i, m);
    }
    if n > 0 {
      RealLongest(s, i);
    }
  }

  /** Length of `'([^'\\]|\\.)*'` at offset `i`, 0 if none. */
  function StringLength(s: seq<char>, i: nat): (n: nat)
    requires i <= |s|
    ensures i + n <= |s|
  {
    if i < |s| && s[i] == '\'' then
      match StringEnd(s, i + 1)
      case Some(e) => e + 1 - i
      case None => 0
    else
      0
  }

  lemma StringUnique(s: seq<char>, i: nat, m: nat)
    requires LexemeAt(String, s, i, m)
    ensures m == StringLength(s, i)
  {
    Frame(s, i, m);
    StringEndComplete(s, i + 1, i + m - 1);
  }

  lemma StringFound(s: seq<char>, i: nat)
    requires i <= |s| && StringLength(s, i) > 0
    ensures LexemeAt(String, s, i, StringLength(s, i))
  {
    StringEndSound(s, i + 1);
    Frame(s, i, StringLength(s, i));
  }

  /** `'([^'\\]|\\.)*'`: the length function finds the longest match at `i`. A string lexeme has only one possible length. */
  lemma LongestString(s: seq<char>, i: nat)
    requires i <= |s|
    ensures IsLongestMatch(String, s, i, StringLength(s, i))
    ensures forall m: nat :: LexemeAt(String, s, i, m) ==> m == StringLength(s, i)
  {
    var n := StringLength(s, i);
    forall m: nat | LexemeAt(String, s, i, m) ensures m == n {
      StringUnique(s, i, m);
    }
    if n > 0 {
      StringFound(s, i);
    }
  }

  /** `#[0-9]+`: the length function finds the longest match at `i`. */
  lemma LongestEntityInstanceName(s: seq<char>, i: nat)
    requires i <= |s|
    ensures IsLongestMatch(EntityInstanceName, s, i, PrefixedDigitsLength(s, i, '#'))
  {
    var n := PrefixedDigitsLength(s, i, '#');
    forall m: nat | LexemeAt(EntityInstanceName, s, i, m) ensures m <= n {
      PrefixedDigitsWindow(s, i, '#', m);
    }
    PrefixedDigitsWindow(s, i, '#', n);
  }

  /** `@[0-9]+`: the length function finds the longest match at `i`. */
  lemma LongestValueInstanceName(s: seq<char>, i: nat)
    requires i <= |s|
    ensures IsLongestMatch(ValueInstanceName, s, i, PrefixedDigitsLength(s, i, '@'))
  {
    var n := PrefixedDigitsLength(s, i, '@');
    forall m: nat | LexemeAt(ValueInstanceName, s, i, m) ensures m <= n {
      PrefixedDigitsWindow(s, i, '@', m);
    }
    PrefixedDigitsWindow(s, i, '@', n);
  }

  /** `#[A-Z][A-Z0-9]*`: the length function finds the longest match at `i`. */
  lemma LongestConstantEntityName(s: seq<char>, i: nat)
    requires i <= |s|
    ensures IsLongestMatch(ConstantEntityName, s, i, PrefixedIdentifierLength(s, i, '#'))
  {
    var n := PrefixedIdentifierLength(s, i, '#');
    forall m: nat | LexemeAt(ConstantEntityName, s, i, m) ensures m <= n {
      PrefixedIdentifierWindow(s, i, '#', m);
    }
    PrefixedIdentifierWindow(s, i, '#', n);
  }

  /** `@[A-Z][A-Z0-9]*`: the length function finds the longest match at `i`. */
  lemma LongestConstantValueName(s: seq<char>, i: nat)
    requires i <= |s|
    ensures IsLongestMatch(ConstantValueName, s, i, PrefixedIdentifierLength(s, i, '@'))
  {
    var n := PrefixedIdentifierLength(s, i, '@');
    forall m: nat | LexemeAt(ConstantValueName, s, i, m) ensures m <= n {
      PrefixedIdentifierWindow(s, i, '@', m);
    }
    PrefixedIdentifierWindow(s, i, '@', n);
  }

  /** The first and last characters of a window and what lies between them. */
  lemma Frame(s: seq<char>, i: nat, m: nat)
    requires i + m <= |s| && m >= 2
    ensures s[i..i + m][0] == s[i] && s[i..i + m][m - 1] == s[i + m - 1]
    ensures s[i..i + m][1..m - 1] == s[i + 1..i + m - 1]
  {
    SubWindow(s, i, m, 1, m - 1);
  }

  /** The identifier at `a..b`, read off the input. */
  lemma IdentifierParts(s: seq<char>, a: nat, b: nat)
    requires a <= b <= |s| && IsIdentifier(s[a..b])
    ensures a < b && IsUpper(s[a]) && AllIn(s[a + 1..b], UpperAlnum)
  {
    assert s[a..b][0] == s[a] && s[a..b][1..] == s[a + 1..b];
  }

  /** Length of `<[a-zA-Z0-9:/?#\[\]@!$&'()*+,;=.%-]+>` at offset `i`, 0 if none. */
  function ResourceLength(s: seq<char>, i: nat): (n: nat)
    requires i <= |s|
    ensures i + n <= |s|
  {
    if i < |s| && s[i] == '<' then
      var r := RunLength(s, i + 1, ResourceChar);
      if r > 0 && i + 1 + r < |s| && s[i + 1 + r] == '>' then r + 2 else 0
    else
      0
  }

  /** A resource window, read off the input: `<`, a run of resource characters, `>`. */
  lemma ResourceWindow(s: seq<char>, i: nat, m: nat)
    requires LexemeAt(Resource, s, i, m)
    ensures m >= 3 && s[i] == '<' && s[i + m - 1] == '>'
    ensures AllIn(s[i + 1..i + m - 1], ResourceChar)
  {
    Frame(s, i, m);
  }

  lemma ResourceUnique(s: seq<char>, i: nat, m: nat)
    requires LexemeAt(Resource, s, i, m)
    ensures m == ResourceLength(s, i)
  {
    ResourceWindow(s, i, m);
    assert !InClass('>', ResourceChar);
    Rebase(s, i + 1, i + m - 1);
    RunLengthUnique(s, i + 1, ResourceChar, m - 2);
  }

  lemma ResourceFound(s: seq<char>, i: nat)
    requires i <= |s| && ResourceLength(s, i) > 0
    ensures LexemeAt(Resource, s, i, ResourceLength(s, i))
  {
    var n := ResourceLength(s, i);
    var r := RunLength(s, i + 1, ResourceChar);
    RunLengthInClass(s, i + 1, ResourceChar);
    assert s[i + 1..i + 1 + r] == s[i + 1..i + n - 1];
    Frame(s, i, n);
  }

  /** `<[a-zA-Z0-9:/?#\[\]@!$&'()*+,;=.%-]+>`: the length function finds the longest match at `i`. A resource has only one possible length. */
  lemma LongestResource(s: seq<char>, i: nat)
    requires i <= |s|
    ensures IsLongestMatch(Resource, s, i, ResourceLength(s, i))
    ensures forall m: nat :: LexemeAt(Resource, s, i, m) ==> m == ResourceLength(s, i)
  {
    var n := ResourceLength(s, i);
    forall m: nat | LexemeAt(Resource, s, i, m) ensures m == n {
      ResourceUnique(s, i, m);
    }
    if n > 0 {
      ResourceFound(s, i);
    }
  }

  /** Length of `\.[A-Z][A-Z0-9]*\.` at offset `i`, 0 if none. */
  function EnumerationLength(s: seq<char>, i: nat): (n: nat)
    requires i <= |s|
    ensures i + n <= |s|
  {
    if i < |s| && s[i] == '.' then
      var d := IdentifierLength(s, i + 1);
      if d > 0 && i + 1 + d < |s| && s[i + 1 + d] == '.' then d + 2 else 0
    else
      0
  }

  /** An enumeration window, read off the input: `.`, an identifier, `.`. */
  lemma EnumerationWindow(s: seq<char>, i: nat, m: nat)
    requires LexemeAt(Enumeration, s, i, m)
    ensures m >= 3 && s[i] == '.' && s[i + m - 1] == '.'
    ensures IsUpper(s[i + 1]) && AllIn(s[i + 2..i + m - 1], UpperAlnum)
  {
    Frame(s, i, m);
    IdentifierParts(s, i + 1, i + m - 1);
  }

  lemma EnumerationUnique(s: seq<char>, i: nat, m: nat)
    requires LexemeAt(Enumeration, s, i, m)
    ensures m == EnumerationLength(s, i)
  {
    EnumerationWindow(s, i, m);
    Rebase(s, i + 2, i + m - 1);
    RunLengthUnique(s, i + 2, UpperAlnum, m - 3);
  }

  lemma EnumerationFound(s: seq<char>, i: nat)
    requires i <= |s| && EnumerationLength(s, i) > 0
    ensures LexemeAt(Enumeration, s, i, EnumerationLength(s, i))
  {
    var n := EnumerationLength(s, i);
    var d := IdentifierLength(s, i + 1);
    IdentifierWindow(s, i + 1, d);
    assert s[i + 1..i + 1 + d] == s[i + 1..i + n - 1];
    Frame(s, i, n);
  }

  /** `\.[A-Z][A-Z0-9]*\.`: the length function finds the longest match at `i`. An enumeration has only one possible length. */
  lemma LongestEnumeration(s: seq<char>, i: nat)
    requires i <= |s|
    ensures IsLongestMatch(Enumeration, s, i, EnumerationLength(s, i))
    ensures forall m: nat :: LexemeAt(Enumeration, s, i, m) ==> m == EnumerationLength(s, i)
  {
    var n := EnumerationLength(s, i);
    forall m: nat | LexemeAt(Enumeration, s, i, m) ensures m == n {
      EnumerationUnique(s, i, m);
    }
    if n > 0 {
      EnumerationFound(s, i);
    }
  }

  /** Length of `""[0-3]?[0-9A-F]*""` at offset `i`, 0 if none. */
  function BinaryLength(s: seq<char>, i: nat): (n: nat)
    requires i <= |s|
    ensures i + n <= |s|
  {
    if i + 1 < |s| && s[i] == '"' && s[i + 1] == '"' then
      var h := RunLength(s, i + 2, Hex);
      if i + 3 + h < |s| && s[i + 2 + h] == '"' && s[i + 3 + h] == '"' then h + 4 else 0
    else
      0
  }

  /** The two characters at each end of a window and what lies between them. */
  lemma DoubleFrame(s: seq<char>, i: nat, m: nat)
    requires i + m <= |s| && m >= 4
    ensures s[i..i + m][0] == s[i] && s[i..i + m][1] == s[i + 1]
    ensures s[i..i + m][m - 2] == s[i + m - 2] && s[i..i + m][m - 1] == s[i + m - 1]
    ensures s[i..i + m][2..m - 2] == s[i + 2..i + m - 2]
  {
    SubWindow(s, i, m, 2, m - 2);
  }

  /** A binary window, read off the input: two quotes, hex digits, two quotes. */
  lemma BinaryWindow(s: seq<char>, i: nat, m: nat)
    requires LexemeAt(Binary, s, i, m)
    ensures m >= 4 && s[i] == '"' && s[i + 1] == '"' && s[i + m - 2] == '"' && s[i + m - 1] == '"'
    ensures AllIn(s[i + 2..i + m - 2], Hex)
  {
    DoubleFrame(s, i, m);
    BinaryBodyIsHex(s[i + 2..i + m - 2]);
  }

  lemma BinaryUnique(s: seq<char>, i: nat, m: nat)
    requires LexemeAt(Binary, s, i, m)
    ensures m == BinaryLength(s, i)
  {
    BinaryWindow(s, i, m);
    Rebase(s, i + 2, i + m - 2);
    RunLengthUnique(s, i + 2, Hex, m - 4);
  }

  lemma BinaryFound(s: seq<char>, i: nat)
    requires i <= |s| && BinaryLength(s, i) > 0
    ensures LexemeAt(Binary, s, i, BinaryLength(s, i))
  {
    var n := BinaryLength(s, i);
    var h := RunLength(s, i + 2, Hex);
    RunLengthInClass(s, i + 2, Hex);
    assert s[i + 2..i + 2 + h] == s[i + 2..i + n - 2];
    DoubleFrame(s, i, n);
  }

  /** `""[0-3]?[0-9A-F]*""`: the length function finds the longest match at `i`. A binary has only one possible length. */
  lemma LongestBinary(s: seq<char>, i: nat)
    requires i <= |s|
    ensures IsLongestMatch(Binary, s, i, BinaryLength(s, i))
    ensures forall m: nat :: LexemeAt(Binary, s, i, m) ==> m == BinaryLength(s, i)
  {
    var n := BinaryLength(s, i);
    forall m: nat | LexemeAt(Binary, s, i, m) ensures m == n {
      BinaryUnique(s, i, m);
    }
    if n > 0 {
      BinaryFound(s, i);
    }
  }

  /** `[a-zA-Z0-9+/=]+`: the length function finds the longest match at `i`. */
  lemma LongestSignatureContent(s: seq<char>, i: nat)
    requires i <= |s|
    ensures IsLongestMatch(SignatureContent, s, i, RunLength(s, i, Base64))
  {
    var n := RunLength(s, i, Base64);
    forall m: nat | LexemeAt(SignatureContent, s, i, m) ensures m <= n {
      AllInWindow(s, i, Base64, m);
    }
    AllInWindow(s, i, Base64, n);
  }
}
