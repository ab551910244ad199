/** The earlier lexer of the compiler (src/Tokenize.hpp). It knows three
    tokens only: the keyword `exit`, integer literals and `;`. Every other
    word and every other character is consumed without producing anything,
    so this scan never fails. */
module EarlyTokenizer {
  import opened Outcomes
  import opened Ascii

  datatype TokenType = Exit | IntLit | Semi

  datatype Token = Token(kind: TokenType, value: Option<string>)

  /** What the scan yields for the text `s`: the reference definition the
      imperative scan is proved against. Each token consumes at least one
      character, so there are never more tokens than characters. */
  function LexEarly(s: string): (r: seq<Token>)
    ensures |r| <= |s|
    decreases |s|
  {
    if s == [] then []
    else if IsAlpha(s[0]) then
      var w := Span(s, IsAlnum);
      (if w == "exit" then [Token(Exit, None)] else []) + LexEarly(s[|w|..])
    else if IsDigit(s[0]) then
      var w := Span(s, IsDigit);
      [Token(IntLit, Some(w))] + LexEarly(s[|w|..])
    else if s[0] == ';' then
      [Token(Semi, None)] + LexEarly(s[1..])
    else
      LexEarly(s[1..])
  }

  /** Only literals carry text, and that text is a non-empty digit string. */
  predicate WellFormed(t: Token) {
    (t.kind == IntLit <==> t.value.Some?) && (t.value.Some? ==> IsNumeral(t.value.value))
  }

  lemma {:induction false} LexEarlyWellFormed(s: string)
    ensures forall i :: 0 <= i < |LexEarly(s)| ==> WellFormed(LexEarly(s)[i])
  {
    if s == [] {
    } else if IsAlpha(s[0]) {
      LexEarlyWellFormed(s[|Span(s, IsAlnum)|..]);
    } else if IsDigit(s[0]) {
      LexEarlyWellFormed(s[|Span(s, IsDigit)|..]);
    } else {
      LexEarlyWellFormed(s[1..]);
    }
  }

  lemma StepWord(s: string)
    requires s != [] && IsAlpha(s[0])
    ensures LexEarly(s) == (if Span(s, IsAlnum) == "exit" then [Token(Exit, None)] else [])
                           + LexEarly(s[|Span(s, IsAlnum)|..])
  {
  }

  lemma StepDigits(s: string)
    requires s != [] && IsDigit(s[0])
    ensures LexEarly(s) == [Token(IntLit, Some(Span(s, IsDigit)))] + LexEarly(s[|Span(s, IsDigit)|..])
  {
  }

  lemma StepSemi(s: string)
    requires s != [] && s[0] == ';'
    ensures LexEarly(s) == [Token(Semi, None)] + LexEarly(s[1..])
  {
  }

  lemma StepSkip(s: string)
    requires s != [] && !IsAlnum(s[0]) && s[0] != ';'
    ensures LexEarly(s) == LexEarly(s[1..])
  {
  }

  /** Where a run over `x + y` stops when it stops inside `x`, or at the
      first character of `y` that does not continue it. */
  lemma SpanConcat(x: string, y: string, p: char -> bool)
    requires |Span(x, p)| < |x| || (y != [] && !p(y[0]))
    ensures Span(x + y, p) == Span(x, p)
  {
    var w := Span(x, p);
    assert w <= x + y;
    if |w| == |x| {
      assert (x + y)[|w|] == y[0];
    } else {
      assert (x + y)[|w|] == x[|w|];
    }
    SpanUnique(x + y, p, w);
  }

  /** A word inside `a` is scanned the same whatever follows `a`, as long as
      what follows does not continue it. */
  lemma WordThen(a: string, t: string)
    requires a != [] && IsAlpha(a[0]) && t != [] && !IsAlnum(t[0])
    ensures LexEarly(a + t) == (if Span(a, IsAlnum) == "exit" then [Token(Exit, None)] else [])
                               + LexEarly(a[|Span(a, IsAlnum)|..] + t)
  {
    var w := Span(a, IsAlnum);
    SpanConcat(a, t, IsAlnum);
    assert (a + t)[0] == a[0];
    assert (a + t)[|w|..] == a[|w|..] + t;
    StepWord(a + t);
  }

  /** The same for a literal inside `a`. */
  lemma DigitsThen(a: string, t: string)
    requires a != [] && IsDigit(a[0]) && t != [] && !IsDigit(t[0])
    ensures LexEarly(a + t) == [Token(IntLit, Some(Span(a, IsDigit)))] + LexEarly(a[|Span(a, IsDigit)|..] + t)
  {
    var w := Span(a, IsDigit);
    SpanConcat(a, t, IsDigit);
    assert (a + t)[0] == a[0];
    assert (a + t)[|w|..] == a[|w|..] + t;
    StepDigits(a + t);
  }

  /** A single-character step at the head of `a`, whatever follows `a`. */
  lemma CharThen(a: string, t: string)
    requires a != [] && !IsAlnum(a[0])
    ensures LexEarly(a + t) == (if a[0] == ';' then [Token(Semi, None)] else []) + LexEarly(a[1..] + t)
  {
    assert (a + t)[0] == a[0];
    assert (a + t)[1..] == a[1..] + t;
    if a[0] == ';' {
      StepSemi(a + t);
    } else {
      StepSkip(a + t);
    }
  }

  /** Two tails that start at a word boundary and scan alike still scan
      alike after any common text. */
  lemma {:induction false} LexEarlyCongruent(a: string, t1: string, t2: string)
    requires t1 != [] && !IsAlnum(t1[0]) && t2 != [] && !IsAlnum(t2[0])
    requires LexEarly(t1) == LexEarly(t2)
    ensures LexEarly(a + t1) == LexEarly(a + t2)
    decreases |a|
  {
    if a == [] {
      assert a + t1 == t1 && a + t2 == t2;
    } else if IsAlpha(a[0]) {
      WordThen(a, t1);
      WordThen(a, t2);
      LexEarlyCongruent(a[|Span(a, IsAlnum)|..], t1, t2);
    } else if IsDigit(a[0]) {
      DigitsThen(a, t1);
      DigitsThen(a, t2);
      LexEarlyCongruent(a[|Span(a, IsDigit)|..], t1, t2);
    } else {
      CharThen(a, t1);
      CharThen(a, t2);
      LexEarlyCongruent(a[1..], t1, t2);
    }
  }

  /** A character that is neither alphanumeric nor `;` is skipped like a
      blank wherever it stands: it ends a word or a literal and yields
      nothing. */
  lemma LexEarlySkips(a: string, c: char, b: string)
    requires !IsAlnum(c) && c != ';'
    ensures LexEarly(a + [c] + b) == LexEarly(a + " " + b)
  {
    var t1, t2 := [c] + b, " " + b;
    assert t1[1..] == b && t2[1..] == b;
    StepSkip(t1);
    StepSkip(t2);
    LexEarlyCongruent(a, t1, t2);
    assert a + [c] + b == a + t1 && a + " " + b == a + t2;
  }

  class Tokenizer {
    const src: string
    var idx: nat

    constructor (src: string)
      ensures this.src == src && idx == 0
    {
      this.src := src;
      idx := 0;
    }

    /** The character `ahead` places after the cursor, if there is one. */
    function Peak(ahead: nat): (c: Option<char>)
      reads this
      ensures c.None? <==> idx + ahead >= |src|
      ensures c.Some? ==> c.value == src[idx + ahead]
    {
      if idx + ahead >= |src| then None else Some(src[idx + ahead])
    }

    method Consume() returns (c: char)
      requires idx < |src|
      modifies this
      ensures c == src[old(idx)] && idx == old(idx) + 1
    {
      c := src[idx];
      idx := idx + 1;
    }

    /** Consumes the maximal run of `p`-characters at the cursor, whose first
        character is known to satisfy `p`. */
    method ConsumeRun(p: char -> bool) returns (buff: string)
      requires idx < |src| && p(src[idx])
      modifies this
      ensures buff == Span(src[old(idx)..], p) && |buff| > 0
      ensures idx == old(idx) + |buff| <= |src|
    {
      ghost var from := idx;
      var ch := Consume();
      buff := [ch];
      while Peak(0).Some? && p(Peak(0).value)
        invariant from < idx <= |src|
        invariant buff == src[from..idx]
        invariant forall i :: 0 <= i < |buff| ==> p(buff[i])
        decreases |src| - idx
      {
        ch := Consume();
        buff := buff + [ch];
      }
      SpanUnique(src[from..], p, buff);
    }

    /** One round of the scan loop: consumes a word, a literal, a `;` or a
        single other character at the cursor and returns what it yields. */
    method Next() returns (found: seq<Token>)
      requires idx < |src|
      modifies this
      ensures old(idx) < idx <= |src|
      ensures LexEarly(src[old(idx)..]) == found + LexEarly(src[idx..])
    {
      ghost var from := idx;
      var c := Peak(0).value;
      if IsAlpha(c) {
        var buff := ConsumeRun(IsAlnum);
        assert src[from..][|buff|..] == src[idx..];
        StepWord(src[from..]);
        found := if buff == "exit" then [Token(Exit, None)] else [];
      } else if IsDigit(c) {
        var buff := ConsumeRun(IsDigit);
        assert src[from..][|buff|..] == src[idx..];
        StepDigits(src[from..]);
        found := [Token(IntLit, Some(buff))];
      } else if c == ';' {
        var _ := Consume();
        assert src[from..][1..] == src[idx..];
        StepSemi(src[from..]);
        found := [Token(Semi, None)];
      } else {
        var _ := Consume();
        assert src[from..][1..] == src[idx..];
        StepSkip(src[from..]);
        found := [];
      }
    }

    /** Scans the whole text from the cursor, then resets the cursor to 0. */
    method Tokenize() returns (tokens: seq<Token>)
      requires idx <= |src|
      modifies this
      ensures tokens == LexEarly(src[old(idx)..])
      ensures idx == 0
    {
      tokens := [];
      while Peak(0).Some?
        invariant idx <= |src|
        invariant LexEarly(src[old(idx)..]) == tokens + LexEarly(src[idx..])
        decreases |src| - idx
      {
        var found := Next();
        tokens := tokens + found;
      }
      assert src[idx..] == [];
      idx := 0;
    }
  }
}
