/**
 * The classifier logos generates from the `Token` enum: at an offset, the
 * longest match over all thirteen patterns wins, and a tie in length goes to
 * the higher priority.
 */
module Classifier {
  import opened Wrappers
  import opened Chars
  import opened Tokens
  import opened Matchers

  /** The token kinds in declaration order: `KindAt(j)` is the `j`-th variant. */
  function KindAt(j: nat): Token {
    match j
    case 0 => UserDefinedKeyword
    case 1 => StandardKeyword
    case 2 => Integer
    case 3 => Real
    case 4 => String
    case 5 => EntityInstanceName
    case 6 => ValueInstanceName
    case 7 => ConstantEntityName
    case 8 => ConstantValueName
    case 9 => Resource
    case 10 => Enumeration
    case 11 => Binary
    case _ => SignatureContent
  }

  /** The position of `k` in declaration order. */
  function Ordinal(k: Token): (j: nat)
    ensures j < Kinds && KindAt(j) == k
  {
    match k
    case UserDefinedKeyword => 0
    case StandardKeyword => 1
    case Integer => 2
    case Real => 3
    case String => 4
    case EntityInstanceName => 5
    case ValueInstanceName => 6
    case ConstantEntityName => 7
    case ConstantValueName => 8
    case Resource => 9
    case Enumeration => 10
    case Binary => 11
    case SignatureContent => 12
  }

  /** The number of token kinds. */
  const Kinds := 13

  /** Declaration order lists every kind exactly once. */
  lemma OrdinalOfKindAt(j: nat)
    requires j < Kinds
    ensures Ordinal(KindAt(j)) == j
  {
  }

  /** The length the pattern of kind `k` matches at offset `i`, 0 if none. */
  function MatchLength(k: Token, s: seq<char>, i: nat): (n: nat)
    requires i <= |s|
    ensures i + n <= |s|
  {
    match k
    case UserDefinedKeyword => PrefixedIdentifierLength(s, i, '!')
    case StandardKeyword => IdentifierLength(s, i)
    case Integer => SignedDigitsLength(s, i)
    case Real => SignedRealLength(s, i)
    case String => StringLength(s, i)
    case EntityInstanceName => PrefixedDigitsLength(s, i, '#')
    case ValueInstanceName => PrefixedDigitsLength(s, i, '@')
    case ConstantEntityName => PrefixedIdentifierLength(s, i, '#')
    case ConstantValueName => PrefixedIdentifierLength(s, i, '@')
    case Resource => ResourceLength(s, i)
    case Enumeration => EnumerationLength(s, i)
    case Binary => BinaryLength(s, i)
    case SignatureContent => RunLength(s, i, Base64)
  }

  /** Each kind's matcher finds that kind's longest lexeme. */
  lemma MatchLengthLongest(k: Token, s: seq<char>, i: nat)
    requires i <= |s|
    ensures IsLongestMatch(k, s, i, MatchLength(k, s, i))
  {
    match k
    case UserDefinedKeyword => LongestUserDefinedKeyword(s, i);
    case StandardKeyword => LongestStandardKeyword(s, i);
    case Integer => LongestInteger(s, i);
    case Real => LongestReal(s, i);
    case String => LongestString(s, i);
    case EntityInstanceName => LongestEntityInstanceName(s, i);
    case ValueInstanceName => LongestValueInstanceName(s, i);
    case ConstantEntityName => LongestConstantEntityName(s, i);
    case ConstantValueName => LongestConstantValueName(s, i);
    case Resource => LongestResource(s, i);
    case Enumeration => LongestEnumeration(s, i);
    case Binary => LongestBinary(s, i);
    case SignatureContent => LongestSignatureContent(s, i);
  }

  /**
   * `r` wins against a match of length `n` of kind `k`: the match is empty,
   * or `r` is longer, or as long and of no lower priority.
   */
  predicate Covers(r: Option<(Token, nat)>, k: Token, n: nat) {
    n == 0 || (r.Some? && (n < r.value.1 || (n == r.value.1 && Priority(k) <= Priority(r.value.0))))
  }

  /** The winner between a match of length `n` of kind `k` and the best of the rest. */
  function Prefer(k: Token, n: nat, rest: Option<(Token, nat)>): Option<(Token, nat)> {
    if n == 0 then rest
    else if || rest.None?
            || n > rest.value.1
            || (n == rest.value.1 && Priority(k) > Priority(rest.value.0)) then
      Some((k, n))
    else
      rest
  }

  /**
   * The winner wins against both contenders, and against everything the best
   * of the rest wins against; it is one of the two.
   */
  lemma PreferCovers(k: Token, n: nat, rest: Option<(Token, nat)>)
    ensures Covers(Prefer(k, n, rest), k, n)
    ensures forall k': Token, n': nat :: Covers(rest, k', n') ==> Covers(Prefer(k, n, rest), k', n')
    ensures Prefer(k, n, rest) == rest || (n > 0 && Prefer(k, n, rest) == Some((k, n)))
  {
  }

  /**
   * The winner among the kinds from the `j`-th on, at offset `i`. (The input
   * heads the termination measure, so the verifier unrolls the recursion in
   * one go only on a literal input.)
   */
  function Best(s: seq<char>, i: nat, j: nat): (r: Option<(Token, nat)>)
    requires i <= |s|
    ensures r.Some? ==> 0 < r.value.1 <= |s| - i
    decreases s, Kinds - j
  {
    if j >= Kinds then None
    else
      var k := KindAt(j);
      var n := MatchLength(k, s, i);
      var rest := Best(s, i, j + 1);
      PreferCovers(k, n, rest);
      Prefer(k, n, rest)
  }

  /** Best wins against every kind from the `j`-th on, and what it returns is one of their matches. */
  lemma {:induction false} BestSpec(s: seq<char>, i: nat, j: nat)
    requires i <= |s|
    ensures forall k :: j <= Ordinal(k) ==> Covers(Best(s, i, j), k, MatchLength(k, s, i))
    ensures Best(s, i, j).Some? ==>
              && j <= Ordinal(Best(s, i, j).value.0)
              && 0 < Best(s, i, j).value.1 == MatchLength(Best(s, i, j).value.0, s, i)
    decreases Kinds - j
  {
    if j < Kinds {
      BestSpec(s, i, j + 1);
      PreferCovers(KindAt(j), MatchLength(KindAt(j), s, i), Best(s, i, j + 1));
      OrdinalOfKindAt(j);
      forall k | j <= Ordinal(k) ensures k == KindAt(j) || j + 1 <= Ordinal(k) {
      }
    }
  }

  /** No pattern matches anything at offset `i`. */
  ghost predicate NoLexemeAt(s: seq<char>, i: nat) {
    forall k: Token, m: nat :: !LexemeAt(k, s, i, m)
  }

  /**
   * Maximal munch with priorities, stated on the patterns' languages: the
   * window of length `n` is a lexeme of kind `k`, no pattern matches a longer
   * window at `i`, and no pattern matching this window has a higher priority.
   */
  ghost predicate IsClassification(s: seq<char>, i: nat, k: Token, n: nat) {
    && 0 < n
    && LexemeAt(k, s, i, n)
    && (forall k': Token, m: nat :: LexemeAt(k', s, i, m) ==> m <= n)
    && (forall k': Token :: LexemeAt(k', s, i, n) ==> Priority(k') <= Priority(k))
  }

  /** The classification at offset `i`, or None when nothing matches there. */
  function Classify(s: seq<char>, i: nat): (r: Option<(Token, nat)>)
    requires i <= |s|
    ensures r.Some? ==> 0 < r.value.1 <= |s| - i
  {
    Best(s, i, 0)
  }

  /** Where Classify finds nothing, no pattern matches. */
  lemma ClassifyNoneSound(s: seq<char>, i: nat)
    requires i <= |s| && Classify(s, i).None?
    ensures NoLexemeAt(s, i)
  {
    BestSpec(s, i, 0);
    forall k: Token, m: nat | LexemeAt(k, s, i, m) ensures false {
      MatchLengthLongest(k, s, i);
      assert MatchLength(k, s, i) == 0;
      LexemeStart(k, s[i..i + m]);
    }
  }

  /** What Classify finds is the maximal-munch winner. */
  lemma ClassifySomeSound(s: seq<char>, i: nat)
    requires i <= |s| && Classify(s, i).Some?
    ensures IsClassification(s, i, Classify(s, i).value.0, Classify(s, i).value.1)
  {
    BestSpec(s, i, 0);
    var k, n := Classify(s, i).value.0, Classify(s, i).value.1;
    MatchLengthLongest(k, s, i);
    forall k': Token, m: nat | LexemeAt(k', s, i, m) ensures m <= n {
      MatchLengthLongest(k', s, i);
      assert m <= MatchLength(k', s, i);
    }
    forall k': Token | LexemeAt(k', s, i, n) ensures Priority(k') <= Priority(k) {
      MatchLengthLongest(k', s, i);
      assert n <= MatchLength(k', s, i);
    }
  }

  /** Classify finds nothing exactly where nothing matches, and otherwise the maximal-munch winner. */
  lemma ClassifySound(s: seq<char>, i: nat)
    requires i <= |s|
    ensures Classify(s, i).None? ==> NoLexemeAt(s, i)
    ensures Classify(s, i).Some? ==> IsClassification(s, i, Classify(s, i).value.0, Classify(s, i).value.1)
  {
    if Classify(s, i).None? {
      ClassifyNoneSound(s, i);
    } else {
      ClassifySomeSound(s, i);
    }
  }

  /** Where no pattern matches, nothing is classified. */
  lemma ClassifyNone(s: seq<char>, i: nat)
    requires i <= |s| && NoLexemeAt(s, i)
    ensures Classify(s, i).None?
  {
    ClassifySound(s, i);
  }

  /** The classification, when there is one, is unique. */
  lemma ClassificationUnique(s: seq<char>, i: nat, k1: Token, n1: nat, k2: Token, n2: nat)
    requires IsClassification(s, i, k1, n1) && IsClassification(s, i, k2, n2)
    ensures k1 == k2 && n1 == n2
  {
    assert n1 <= n2 && n2 <= n1;
    if k1 != k2 {
      EqualPriorityDisjoint(k1, k2, s[i..i + n1]);
    }
  }

  /** Classify returns exactly the classification the declarative rule picks. */
  lemma ClassifyComplete(s: seq<char>, i: nat, k: Token, n: nat)
    requires IsClassification(s, i, k, n)
    ensures Classify(s, i) == Some((k, n))
  {
    ClassifySound(s, i);
    var r := Classify(s, i);
    if r.Some? {
      ClassificationUnique(s, i, k, n, r.value.0, r.value.1);
    }
  }

  /**
   * The declared priorities do their work: a window returned as
   * SignatureContent is never an uppercase identifier or a (signed) digit run.
   */
  lemma SignatureNeverShadows(s: seq<char>, i: nat)
    requires i <= |s| && Classify(s, i).Some? && Classify(s, i).value.0 == SignatureContent
    ensures !IsIdentifier(s[i..i + Classify(s, i).value.1])
    ensures !IsSignedDigits(s[i..i + Classify(s, i).value.1])
  {
    ClassifySound(s, i);
    var n := Classify(s, i).value.1;
    assert !LexemeAt(StandardKeyword, s, i, n);
    assert !LexemeAt(Integer, s, i, n);
  }

  /**
   * A lexeme taken as the whole input is classified as one token spanning all
   * of it, of its own kind unless a higher-priority pattern also matches it.
   */
  lemma ClassifyWholeLexeme(k: Token, w: seq<char>)
    requires Lexeme(k, w)
    ensures Classify(w, 0).Some? && Classify(w, 0).value.1 == |w|
    ensures Classify(w, 0).value.0 == k ||
            (k == SignatureContent && Classify(w, 0).value.0 in {StandardKeyword, Integer})
  {
    assert w[0..|w|] == w;
    assert LexemeAt(k, w, 0, |w|);
    ClassifySound(w, 0);
    var r := Classify(w, 0);
    var k' := r.value.0;
    if k' != k {
      OverlapsOnlyWithSignature(k, k', w[0..r.value.1]);
    }
  }

  /** No lexeme at `i` extends across a blank, except a quoted string, whose length is fixed. */
  lemma DelimitedIsLongest(s: seq<char>, i: nat, k: Token, n: nat, k': Token, m: nat)
    requires LexemeAt(k, s, i, n) && LexemeAt(k', s, i, m)
    requires i + n == |s| || IsWhitespace(s[i + n])
    ensures m <= n
  {
    var v := s[i..i + n];
    var w := s[i..i + m];
    if k' == String {
      LexemeStart(k, v);
      LexemeStart(String, w);
      assert v[0] == s[i] == w[0];
      LongestString(s, i);
      assert m == StringLength(s, i);
      assert n == StringLength(s, i);
    } else if m > n {
      assert w[n] == s[i + n];
      LexemeIsSolid(k', w);
    }
  }

  /**
   * A lexeme followed by a blank or by the end of the input is classified as
   * itself, unless it is a signature run that a keyword or an integer
   * pattern also matches.
   */
  lemma ClassifyDelimited(s: seq<char>, i: nat, k: Token, n: nat)
    requires LexemeAt(k, s, i, n)
    requires i + n == |s| || IsWhitespace(s[i + n])
    requires k == SignatureContent ==> !IsIdentifier(s[i..i + n]) && !IsSignedDigits(s[i..i + n])
    ensures Classify(s, i) == Some((k, n))
  {
    LexemeStart(k, s[i..i + n]);
    forall k': Token, m: nat | LexemeAt(k', s, i, m) ensures m <= n {
      DelimitedIsLongest(s, i, k, n, k', m);
    }
    forall k': Token | LexemeAt(k', s, i, n) ensures Priority(k') <= Priority(k) {
      if k' != k {
        OverlapsOnlyWithSignature(k, k', s[i..i + n]);
      }
    }
    ClassifyComplete(s, i, k, n);
  }
}
