/**
 * The `Lexer` adapter of src/lexer.rs:204-243: an iterator over an input
 * that yields `(start, token, end)` triples, and `Err(Todo)` where nothing
 * matches.
 */
module LexerAdapter {
  import opened Wrappers
  import opened Chars
  import opened Tokens
  import opened Matchers
  import opened Classifier
  import opened Stream

  /** The error the adapter reports: it carries no position. */
  datatype LexicalError = Todo

  type Item = Result<(nat, Token, nat), LexicalError>

  /** The item a scan turns into. */
  function ToItem(x: Scan): Item {
    match x
    case Matched(a, k, b) => Ok((a, k, b))
    case Unmatched(_, _) => Err(Todo)
  }

  class Lexer {
    const input: seq<char>
    var pos: nat
    /** The scans returned so far. */
    ghost var Emitted: seq<Scan>

    /** What was returned, followed by what is still to come, is the whole stream. */
    ghost predicate Valid()
      reads this
    {
      pos <= |input| && Scans(input, 0) == Emitted + Scans(input, pos)
    }

    constructor (input: seq<char>)
      ensures Valid() && this.input == input && pos == 0 && Emitted == []
    {
      this.input := input;
      pos := 0;
      Emitted := [];
    }

    /**
     * The next item: skip blanks, classify once, and advance past the match,
     * or past one character when nothing matches. None at the end of input.
     */
    method Next() returns (r: Option<Item>)
      requires Valid()
      modifies this
      ensures Valid()
      ensures r.None? <==> Blank(input, old(pos), |input|)
      ensures r.None? ==> pos == |input| && Emitted == old(Emitted)
      ensures r.Some? ==> old(pos) < pos && pos == Step(input, old(pos)).value.end
      ensures r.Some? ==> Scans(input, old(pos)) == [Step(input, old(pos)).value] + Scans(input, pos)
      ensures r.Some? ==> Emitted == old(Emitted) + [Step(input, old(pos)).value]
      ensures r.Some? ==> r.value == ToItem(Step(input, old(pos)).value)
    {
      var p := SkipBlanks(input, pos);
      if p == |input| {
        BlankRest(input, Emitted, pos);
        pos := p;
        r := None;
        return;
      }
      Advance(input, Emitted, pos);
      ScansUnfold(input, pos);
      var c := Classify(input, p);
      var x: Scan;
      if c.Some? {
        var k, n := c.value.0, c.value.1;
        StepToken(input, pos, p, k, n);
        x := Matched(p, k, p + n);
      } else {
        StepError(input, pos, p);
        x := Unmatched(p, p + 1);
      }
      SameScan(Step(input, pos).value, x);
      r := Some(ToItem(x));
      pos := x.end;
      Emitted := Emitted + [x];
    }
  }

  /** The skip rule: the offset of the first non-blank character at or after `p`. */
  method SkipBlanks(s: seq<char>, p: nat) returns (q: nat)
    requires p <= |s|
    ensures q == SkipWhitespace(s, p)
  {
    q := p;
    while q < |s| && IsWhitespace(s[q])
      invariant p <= q <= |s|
      invariant Blank(s, p, q)
      decreases |s| - q
    {
      q := q + 1;
    }
    SkipToNonBlank(s, p, q);
  }

  /** Returning the next scan keeps the emitted scans a prefix of the stream. */
  lemma Advance(s: seq<char>, done: seq<Scan>, p: nat)
    requires p <= |s| && Step(s, p).Some? && Scans(s, 0) == done + Scans(s, p)
    ensures Scans(s, 0) == (done + [Step(s, p).value]) + Scans(s, Step(s, p).value.end)
  {
    ScansUnfold(s, p);
    var x := Step(s, p).value;
    assert done + ([x] + Scans(s, x.end)) == (done + [x]) + Scans(s, x.end);
  }

  lemma BlankRest(s: seq<char>, done: seq<Scan>, p: nat)
    requires p <= |s| && Scans(s, 0) == done + Scans(s, p) && Blank(s, p, |s|)
    ensures Scans(s, 0) == done + Scans(s, |s|)
  {
  }
}

module AdapterTests {
  import opened Wrappers
  import opened Tokens
  import opened Stream
  import opened LexerAdapter
  import opened SourceStreamTests

  lemma SameHead(a: seq<Scan>, x: Scan, b: seq<Scan>, y: Scan, c: seq<Scan>)
    requires a == [x] + b && a == [y] + c
    ensures x == y && b == c
  {
    assert a[0] == x && a[0] == y;
    assert a[1..] == b && a[1..] == c;
  }

  /** A call of `Next` returns the item of the first scan still to come. */
  method NextOne(lex: Lexer, x: Scan, rest: seq<Scan>) returns (r: Option<Item>)
    requires lex.Valid() && Scans(lex.input, lex.pos) == [x] + rest
    modifies lex
    ensures r == Some(ToItem(x))
    ensures lex.Valid() && Scans(lex.input, lex.pos) == rest
  {
    var s := lex.input;
    var p := lex.pos;
    r := lex.Next();
    SameHead(Scans(s, p), Step(s, p).value, Scans(s, lex.pos), x, rest);
  }

  lemma Nest4(a: Scan, b: Scan, c: Scan, d: Scan)
    ensures [a, b, c, d] == [a] + ([b] + ([c] + ([d] + [])))
  {
  }

  /** Four calls of `Next` return the items of a four-scan stream, one by one. */
  method NextFour(lex: Lexer, x1: Scan, x2: Scan, x3: Scan, x4: Scan)
      returns (r1: Option<Item>, r2: Option<Item>, r3: Option<Item>, r4: Option<Item>)
    requires lex.Valid() && Scans(lex.input, lex.pos) == [x1] + ([x2] + ([x3] + ([x4] + [])))
    modifies lex
    ensures r1 == Some(ToItem(x1)) && r2 == Some(ToItem(x2))
    ensures r3 == Some(ToItem(x3)) && r4 == Some(ToItem(x4))
  {
    r1 := NextOne(lex, x1, [x2] + ([x3] + ([x4] + [])));
    r2 := NextOne(lex, x2, [x3] + ([x4] + []));
    r3 := NextOne(lex, x3, [x4] + []);
    r4 := NextOne(lex, x4, []);
  }

  /** src/lexer.rs:189-201 through the adapter: two tokens, an error, then a token again. */
  method InvalidInputItems() returns (r1: Option<Item>, r2: Option<Item>, r3: Option<Item>, r4: Option<Item>)
    ensures r1 == Some(Ok((0, UserDefinedKeyword, 6)))
    ensures r2 == Some(Ok((7, ValueInstanceName, 13)))
    ensures r3 == Some(Err(Todo))
    ensures r4 == Some(Ok((15, ValueInstanceName, 19)))
  {
    var lex := new Lexer(Invalid);
    InvalidInputTest(lex.input);
    Nest4(Matched(0, UserDefinedKeyword, 6), Matched(7, ValueInstanceName, 13), Unmatched(14, 15), Matched(15, ValueInstanceName, 19));
    r1, r2, r3, r4 := NextFour(lex, Matched(0, UserDefinedKeyword, 6), Matched(7, ValueInstanceName, 13),
      Unmatched(14, 15), Matched(15, ValueInstanceName, 19));
  }

  /** src/lexer.rs:238-239: on empty or all-blank input the first call already returns None. */
  method BlankInputItem(s: seq<char>) returns (r: Option<Item>)
    requires Blank(s, 0, |s|)
    ensures r == None
  {
    var lex := new Lexer(s);
    r := lex.Next();
  }
}
