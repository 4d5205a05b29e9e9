/** Character classes of the token patterns and of the whitespace skip rule. */
module Chars {

  /** The skip rule `[ \t\n\f]+`: space, tab, line feed and form feed, nothing else. */
  predicate IsWhitespace(c: char) {
    c == ' ' || c == '\t' || c == '\n' || c == '\U{000C}'
  }

  predicate IsUpper(c: char) { 'A' <= c <= 'Z' }

  predicate IsLower(c: char) { 'a' <= c <= 'z' }

  predicate IsDigit(c: char) { '0' <= c <= '9' }

  /** `[+-]` */
  predicate IsSign(c: char) { c == '+' || c == '-' }

  /** The bracketed classes that occur under a repetition in the patterns. */
  datatype CharClass =
    | Digit         // [0-9]
    | UpperAlnum    // [A-Z0-9]
    | Hex           // [0-9A-F]
    | ResourceChar  // [a-zA-Z0-9:/?#\[\]@!$&'()*+,;=.%-]
    | Base64        // [a-zA-Z0-9+/=]

  /** The punctuation of the resource class: `:/?#[]@!$&'()*+,;=.%-`. */
  predicate IsResourcePunct(c: char) {
    || c == ':' || c == '/' || c == '?' || c == '#' || c == '[' || c == ']' || c == '@'
    || c == '!' || c == '$' || c == '&' || c == '\'' || c == '(' || c == ')' || c == '*'
    || c == '+' || c == ',' || c == ';' || c == '=' || c == '.' || c == '%' || c == '-'
  }

  predicate InClass(c: char, k: CharClass) {
    match k
    case Digit => IsDigit(c)
    case UpperAlnum => IsUpper(c) || IsDigit(c)
    case Hex => IsDigit(c) || 'A' <= c <= 'F'
    case ResourceChar => IsLower(c) || IsUpper(c) || IsDigit(c) || IsResourcePunct(c)
    case Base64 => IsLower(c) || IsUpper(c) || IsDigit(c) || c == '+' || c == '/' || c == '='
  }

  /** Every character of `w` belongs to class `k`. */
  predicate AllIn(w: seq<char>, k: CharClass) {
    forall j :: 0 <= j < |w| ==> InClass(w[j], k)
  }

  /** Length of the maximal run of class-`k` characters starting at offset `i`. */
  function RunLength(s: seq<char>, i: nat, k: CharClass): (n: nat)
    requires i <= |s|
    ensures i + n <= |s|
    ensures i + n == |s| || !InClass(s[i + n], k)
    decreases |s| - i
  {
    if i < |s| && InClass(s[i], k) then 1 + RunLength(s, i + 1, k) else 0
  }

  /** Every character of the run is in the class. */
  lemma {:induction false} RunLengthInClass(s: seq<char>, i: nat, k: CharClass)
    requires i <= |s|
    ensures AllIn(s[i..i + RunLength(s, i, k)], k)
    decreases |s| - i
  {
    var n := RunLength(s, i, k);
    if n > 0 {
      RunLengthInClass(s, i + 1, k);
      var t := s[i + 1..i + 1 + RunLength(s, i + 1, k)];
      var u := s[i..i + n];
      assert InClass(s[i], k) && n == 1 + |t| && AllIn(t, k);
      forall j | 0 <= j < |u| ensures InClass(u[j], k) {
        if j == 0 {
          assert u[j] == s[i];
        } else {
          assert u[j] == t[j - 1];
        }
      }
    }
  }

  /** No longer window starting at `i` lies wholly inside the class. */
  lemma RunLengthMaximal(s: seq<char>, i: nat, k: CharClass, m: nat)
    requires i <= |s| && RunLength(s, i, k) < m <= |s| - i
    ensures !AllIn(s[i..i + m], k)
  {
    var n := RunLength(s, i, k);
    assert s[i..i + m][n] == s[i + n];
  }

  /** A run that stops at a character outside the class is the maximal run. */
  lemma {:induction false} RunLengthUnique(s: seq<char>, i: nat, k: CharClass, n: nat)
    requires i + n <= |s|
    requires AllIn(s[i..i + n], k)
    requires i + n == |s| || !InClass(s[i + n], k)
    ensures n == RunLength(s, i, k)
    decreases n
  {
    if n > 0 {
      var u := s[i..i + n];
      var t := s[i + 1..i + n];
      assert u[0] == s[i];
      forall j | 0 <= j < |t| ensures InClass(t[j], k) {
        assert t[j] == u[j + 1];
      }
      RunLengthUnique(s, i + 1, k, n - 1);
    }
  }
}
