/**
 * The sequence of pulls the logos lexer produces over one input: skip the
 * blanks, classify once, advance past the match, or past one character when
 * nothing matches. A pull reports the span it consumed, as `span()` does.
 */
module Stream {
  import opened Wrappers
  import opened Chars
  import opened Tokens
  import opened Matchers
  import opened Classifier

  /** One pull: a classified span, or the one-character span nothing matched. */
  datatype Scan =
    | Matched(start: nat, kind: Token, end: nat)
    | Unmatched(start: nat, end: nat)

  /** Offset of the first non-blank character at or after `p`, or `|s|`. */
  function SkipWhitespace(s: seq<char>, p: nat): (q: nat)
    requires p <= |s|
    ensures p <= q <= |s|
    ensures forall j :: p <= j < q ==> IsWhitespace(s[j])
    ensures q == |s| || !IsWhitespace(s[q])
    decreases |s| - p
  {
    if p < |s| && IsWhitespace(s[p]) then SkipWhitespace(s, p + 1) else p
  }

  /** The span from `a` to `b` holds blanks only. */
  ghost predicate Blank(s: seq<char>, a: nat, b: nat) {
    a <= b <= |s| && forall j :: a <= j < b ==> IsWhitespace(s[j])
  }

  /** What a scan says about the input: the rule that produced it, read back. */
  ghost predicate Sound(s: seq<char>, x: Scan) {
    match x
    case Matched(a, k, b) => a < b <= |s| && IsClassification(s, a, k, b - a)
    case Unmatched(a, b) => b == a + 1 <= |s| && NoLexemeAt(s, a)
  }

  /** One pull from offset `p`; None at the end of the input. */
  function Step(s: seq<char>, p: nat): (r: Option<Scan>)
    requires p <= |s|
    ensures r.None? <==> Blank(s, p, |s|)
    ensures r.Some? ==> p <= r.value.start < r.value.end <= |s|
    ensures r.Some? ==> Blank(s, p, r.value.start) && !IsWhitespace(s[r.value.start])
  {
    var q := SkipWhitespace(s, p);
    if q == |s| then
      None
    else
      var c := Classify(s, q);
      if c.Some? then Some(Matched(q, c.value.0, q + c.value.1)) else Some(Unmatched(q, q + 1))
  }

  /** Every pull from offset `p` until the end of the input. */
  function Scans(s: seq<char>, p: nat): (r: seq<Scan>)
    requires p <= |s|
    ensures |r| <= |s| - p
    ensures r == [] <==> Blank(s, p, |s|)
    ensures forall j :: 0 <= j < |r| ==> p <= r[j].start < r[j].end <= |s|
    decreases |s| - p
  {
    var y := Step(s, p);
    if y.None? then
      []
    else
      var x := y.value;
      var rest := Scans(s, x.end);
      ConsBounds(s, p, x, rest);
      [x] + rest
  }

  lemma ConsBounds(s: seq<char>, p: nat, x: Scan, rest: seq<Scan>)
    requires p <= x.start < x.end <= |s|
    requires forall j :: 0 <= j < |rest| ==> x.end <= rest[j].start < rest[j].end <= |s|
    ensures forall j :: 0 <= j < |[x] + rest| ==> p <= ([x] + rest)[j].start < ([x] + rest)[j].end <= |s|
  {
    forall j | 0 < j < |[x] + rest| ensures ([x] + rest)[j] == rest[j - 1] {
    }
  }

  /**
   * The scans tile the input from `p`: each span is non-empty, what lies
   * before the first span and between two spans is blank, and so is what
   * follows the last one.
   */
  ghost predicate Tiles(s: seq<char>, p: nat, r: seq<Scan>)
    decreases |r|
  {
    if r == [] then
      Blank(s, p, |s|)
    else
      && r[0].start < r[0].end
      && Blank(s, p, r[0].start)
      && Tiles(s, r[0].end, r[1..])
  }

  lemma ScansUnfold(s: seq<char>, p: nat)
    requires p <= |s|
    ensures Step(s, p).None? ==> Scans(s, p) == []
    ensures Step(s, p).Some? ==> Scans(s, p) == [Step(s, p).value] + Scans(s, Step(s, p).value.end)
  {
  }

  lemma {:induction false} ScansTile(s: seq<char>, p: nat)
    requires p <= |s|
    ensures Tiles(s, p, Scans(s, p))
    decreases |s| - p
  {
    ScansUnfold(s, p);
    if Step(s, p).Some? {
      var x := Step(s, p).value;
      ScansTile(s, x.end);
      assert Scans(s, p)[1..] == Scans(s, x.end);
    }
  }

  /** Spans that tile the input come out in input order and never overlap. */
  lemma {:induction false} TilesOrdered(s: seq<char>, p: nat, r: seq<Scan>, j1: nat, j2: nat)
    requires Tiles(s, p, r) && j1 < j2 < |r|
    ensures p <= r[j1].start < r[j1].end <= r[j2].start
    decreases |r|
  {
    if j1 == 0 {
      if j2 > 1 {
        TilesOrdered(s, r[0].end, r[1..], 0, j2 - 1);
      } else {
        TilesStart(s, r[0].end, r[1..]);
      }
    } else {
      TilesOrdered(s, r[0].end, r[1..], j1 - 1, j2 - 1);
    }
  }

  lemma TilesStart(s: seq<char>, p: nat, r: seq<Scan>)
    requires Tiles(s, p, r) && r != []
    ensures p <= r[0].start
  {
  }

  lemma ScansOrdered(s: seq<char>, p: nat, j1: nat, j2: nat)
    requires p <= |s| && j1 < j2 < |Scans(s, p)|
    ensures p <= Scans(s, p)[j1].start < Scans(s, p)[j1].end <= Scans(s, p)[j2].start
  {
    ScansTile(s, p);
    TilesOrdered(s, p, Scans(s, p), j1, j2);
  }

  /** The classifier, run again at the start of `x`, gives back `x`. */
  predicate Pulled(s: seq<char>, x: Scan) {
    && x.start < x.end <= |s|
    && match x
       case Matched(a, k, b) => Classify(s, a).Some? && Classify(s, a).value.0 == k && Classify(s, a).value.1 == b - a
       case Unmatched(a, b) => b == a + 1 && Classify(s, a).None?
  }

  lemma StepPulled(s: seq<char>, p: nat)
    requires p <= |s| && Step(s, p).Some?
    ensures Pulled(s, Step(s, p).value)
  {
  }

  lemma {:induction false} ScansPulled(s: seq<char>, p: nat, j: nat)
    requires p <= |s| && j < |Scans(s, p)|
    ensures Pulled(s, Scans(s, p)[j])
    decreases j
  {
    ScansUnfold(s, p);
    var x := Step(s, p).value;
    if j == 0 {
      StepPulled(s, p);
    } else {
      ScansPulled(s, x.end, j - 1);
      assert Scans(s, p)[j] == Scans(s, x.end)[j - 1];
    }
  }

  lemma PulledSound(s: seq<char>, x: Scan)
    requires Pulled(s, x)
    ensures Sound(s, x)
  {
    ClassifySound(s, x.start);
  }

  /** Every scan of the stream is read back by the rule that produced it. */
  lemma ScansSound(s: seq<char>, p: nat, j: nat)
    requires p <= |s| && j < |Scans(s, p)|
    ensures Sound(s, Scans(s, p)[j])
  {
    ScansPulled(s, p, j);
    PulledSound(s, Scans(s, p)[j]);
  }

  /** A blank can only appear inside the span of a quoted string. */
  lemma MatchedSolid(s: seq<char>, x: Scan)
    requires x.Matched? && Sound(s, x) && x.kind != String
    ensures forall j :: x.start <= j < x.end ==> !IsWhitespace(s[j])
  {
    LexemeIsSolid(x.kind, s[x.start..x.end]);
    forall j | x.start <= j < x.end ensures !IsWhitespace(s[j]) {
      assert s[j] == s[x.start..x.end][j - x.start];
    }
  }

  lemma ScansSolid(s: seq<char>, p: nat, j: nat)
    requires p <= |s| && j < |Scans(s, p)|
    requires Scans(s, p)[j].Matched? && Scans(s, p)[j].kind != String
    ensures forall x :: Scans(s, p)[j].start <= x < Scans(s, p)[j].end ==> !IsWhitespace(s[x])
  {
    ScansSound(s, p, j);
    var x := Scans(s, p)[j];
    MatchedSolid(s, x);
  }

  /** Skipping from `p` stops at the first non-blank character. */
  lemma {:induction false} SkipToNonBlank(s: seq<char>, p: nat, q: nat)
    requires Blank(s, p, q) && (q == |s| || !IsWhitespace(s[q]))
    ensures SkipWhitespace(s, p) == q
    decreases q - p
  {
    if p < q {
      SkipToNonBlank(s, p + 1, q);
    }
  }

  /** The pull from `p` when a token is classified after the blanks. */
  lemma StepToken(s: seq<char>, p: nat, q: nat, k: Token, n: nat)
    requires p <= q < |s| && SkipWhitespace(s, p) == q && Classify(s, q) == Some((k, n))
    ensures Step(s, p).Some? && Step(s, p).value.Matched?
    ensures Step(s, p).value.start == q && Step(s, p).value.kind == k && Step(s, p).value.end == q + n
  {
  }

  /** The pull from `p` when nothing is classified after the blanks. */
  lemma StepError(s: seq<char>, p: nat, q: nat)
    requires p <= q < |s| && SkipWhitespace(s, p) == q && Classify(s, q).None?
    ensures Step(s, p).Some? && Step(s, p).value.Unmatched?
    ensures Step(s, p).value.start == q && Step(s, p).value.end == q + 1
  {
  }

  /** Two scans that agree field by field are equal. */
  lemma SameScan(x: Scan, y: Scan)
    requires x.Matched? == y.Matched? && x.start == y.start && x.end == y.end
    requires x.Matched? ==> x.kind == y.kind
    ensures x == y
  {
  }

  /** The stream from `p` starts with the pull from `p`. */
  lemma ScansFirst(s: seq<char>, p: nat, x: Scan, e: nat)
    requires p <= |s| && Step(s, p).Some? && Step(s, p).value == x && x.end == e
    ensures e <= |s| && Scans(s, p) == [x] + Scans(s, e)
  {
    ScansUnfold(s, p);
  }

  /**
   * Composition rule: blanks from `p` to `q`, then a lexeme of kind `k` and
   * length `n` ending at offset `e`, at the end of the input or at a blank,
   * give that token first.
   */
  lemma ScansToken(s: seq<char>, p: nat, q: nat, k: Token, n: nat, e: nat)
    requires Blank(s, p, q) && LexemeAt(k, s, q, n) && e == q + n
    requires e == |s| || IsWhitespace(s[e])
    requires k == SignatureContent ==> !IsIdentifier(s[q..e]) && !IsSignedDigits(s[q..e])
    ensures Scans(s, p) == [Matched(q, k, e)] + Scans(s, e)
  {
    LexemeStart(k, s[q..e]);
    assert s[q..e][0] == s[q];
    CanStartSolid(k, s[q]);
    SkipToNonBlank(s, p, q);
    ClassifyDelimited(s, q, k, n);
    ScansClassified(s, p, q, k, n, e);
  }

  /** The pull after the blanks that end at `q` takes the classification at `q`. */
  lemma ScansClassified(s: seq<char>, p: nat, q: nat, k: Token, n: nat, e: nat)
    requires p <= q < |s| && SkipWhitespace(s, p) == q && Classify(s, q) == Some((k, n)) && e == q + n
    ensures Scans(s, p) == [Matched(q, k, e)] + Scans(s, e)
  {
    StepToken(s, p, q, k, n);
    SameScan(Step(s, p).value, Matched(q, k, e));
    ScansFirst(s, p, Matched(q, k, e), e);
  }

  /**
   * An input that is, as a whole, a lexeme yields exactly that one token,
   * unless it is signature content that a keyword or an integer shadows.
   */
  lemma ScansWholeLexeme(k: Token, w: seq<char>)
    requires Lexeme(k, w)
    requires k == SignatureContent ==> !IsIdentifier(w) && !IsSignedDigits(w)
    ensures Scans(w, 0) == [Matched(0, k, |w|)]
  {
    var e := |w|;
    assert w[0..e] == w;
    ScansToken(w, 0, 0, k, e, e);
    EndIsFinal(w, e);
  }

  /** Composition rule: blanks, then an offset `q` where nothing matches, ending at `e`. */
  lemma ScansError(s: seq<char>, p: nat, q: nat, e: nat)
    requires Blank(s, p, q) && q < |s| && !IsWhitespace(s[q]) && NoLexemeAt(s, q) && e == q + 1
    ensures Scans(s, p) == [Unmatched(q, e)] + Scans(s, e)
  {
    SkipToNonBlank(s, p, q);
    ClassifyNone(s, q);
    StepError(s, p, q);
    SameScan(Step(s, p).value, Unmatched(q, e));
    ScansFirst(s, p, Unmatched(q, e), e);
  }

  /**
   * Self-consistency: the text of a matched span, lexed on its own, yields
   * one token of the same kind spanning all of it.
   */
  lemma MatchedReclassifies(s: seq<char>, x: Scan)
    requires x.Matched? && Sound(s, x)
    ensures Scans(s[x.start..x.end], 0) == [Matched(0, x.kind, x.end - x.start)]
  {
    var w := s[x.start..x.end];
    var k := x.kind;
    WholeWindowClassified(s, x);
    ClassifyComplete(w, 0, k, |w|);
    LexemeStart(k, w);
    CanStartSolid(k, w[0]);
    SkipToNonBlank(w, 0, 0);
    var e := x.end - x.start;
    ScansClassified(w, 0, 0, k, e, e);
    EndIsFinal(w, e);
  }

  lemma WholeWindowClassified(s: seq<char>, x: Scan)
    requires x.Matched? && Sound(s, x)
    ensures IsClassification(s[x.start..x.end], 0, x.kind, x.end - x.start)
  {
    var w := s[x.start..x.end];
    assert w[0..|w|] == w;
    forall k': Token, m: nat | LexemeAt(k', w, 0, m) ensures m <= |w| {
    }
    forall k': Token | LexemeAt(k', w, 0, |w|) ensures Priority(k') <= Priority(x.kind) {
      assert LexemeAt(k', s, x.start, x.end - x.start);
    }
  }

  /** Once a pull has found the end of the input, every later pull does too. */
  lemma EndIsFinal(s: seq<char>, p: nat)
    requires p <= |s| && Step(s, p).None?
    ensures Step(s, |s|).None? && Scans(s, p) == []
  {
  }
}
