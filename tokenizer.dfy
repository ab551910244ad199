/** The current lexer of the compiler (src/tokenizer.hpp): one left-to-right
    scan with a cursor over the source text. Letter-led alphanumeric words
    become keywords or identifiers, digit runs become integer literals,
    whitespace is skipped, eight single characters are operators, and any
    other character stops the compiler. */
module Tokenizer {
  import opened Outcomes
  import opened Ascii

  datatype TokenType =
    | Exit | IntLit | Semi | OpenParen | CloseParen | Ident | Val | Eq | Plus | Star | Sub | Div

  /** Only identifiers and integer literals carry their text. */
  datatype Token = Token(kind: TokenType, value: Option<string>)

  const UnknownToken: string := "Token Type not in known token list....\n"

  /** The token a finished word becomes: the two keywords, else an identifier. */
  function Word(w: string): Token {
    if w == "exit" then Token(Exit, None)
    else if w == "val" then Token(Val, None)
    else Token(Ident, Some(w))
  }

  /** The single-character operators of the `switch`. */
  function Punct(c: char): Option<TokenType> {
    match c
    case '(' => Some(OpenParen)
    case ')' => Some(CloseParen)
    case ';' => Some(Semi)
    case '=' => Some(Eq)
    case '+' => Some(Plus)
    case '*' => Some(Star)
    case '-' => Some(Sub)
    case '/' => Some(Div)
    case _ => None
  }

  /** `ts` followed by whatever the rest of the scan yields; a failure anywhere fails the whole scan. */
  function Then(ts: seq<Token>, r: Result<seq<Token>>): Result<seq<Token>> {
    match r
    case Ok(rest) => Ok(ts + rest)
    case Fatal(m) => Fatal(m)
  }

  /** What scanning the text `s` yields: the reference definition the
      imperative scan is proved against. The only way it fails is the
      unknown-token diagnostic, which an unknown first character always gives. */
  function Lex(s: string): (r: Result<seq<Token>>)
    ensures r.Fatal? ==> r.msg == UnknownToken
    ensures s != [] && !Lexable(s[0]) ==> r == Fatal(UnknownToken)
    decreases |s|
  {
    if s == [] then Ok([])
    else if IsAlpha(s[0]) then
      var w := Span(s, IsAlnum);
      Then([Word(w)], Lex(s[|w|..]))
    else if IsDigit(s[0]) then
      var w := Span(s, IsDigit);
      Then([Token(IntLit, Some(w))], Lex(s[|w|..]))
    else if IsSpace(s[0]) then
      Lex(s[1..])
    else
      match Punct(s[0])
      case Some(k) => Then([Token(k, None)], Lex(s[1..]))
      case None => Fatal(UnknownToken)
  }

  lemma ThenThen(ts: seq<Token>, us: seq<Token>, r: Result<seq<Token>>)
    ensures Then(ts, Then(us, r)) == Then(ts + us, r)
  {
    if r.Ok? {
      assert ts + (us + r.value) == (ts + us) + r.value;
    }
  }

  lemma ThenNil(r: Result<seq<Token>>)
    ensures Then([], r) == r
  {
    if r.Ok? {
      assert [] + r.value == r.value;
    }
  }

  /** A character that can appear in text the scan accepts. */
  predicate Lexable(c: char) {
    IsAlnum(c) || IsSpace(c) || Punct(c).Some?
  }

  /** An identifier-shaped word: a letter followed by letters and digits. */
  predicate IsWord(w: string) {
    |w| > 0 && IsAlpha(w[0]) && forall i :: 0 <= i < |w| ==> IsAlnum(w[i])
  }

  /** The shape of every token the scan can produce. */
  predicate WellFormed(t: Token) {
    match t.kind
    case Ident => t.value.Some? && IsWord(t.value.value) && t.value.value != "exit" && t.value.value != "val"
    case IntLit => t.value.Some? && IsNumeral(t.value.value)
    case _ => t.value.None?
  }

  /** The source text of a token. */
  function Text(t: Token): string {
    match t.kind
    case Exit => "exit"
    case Val => "val"
    case Ident => if t.value.Some? then t.value.value else ""
    case IntLit => if t.value.Some? then t.value.value else ""
    case OpenParen => "("
    case CloseParen => ")"
    case Semi => ";"
    case Eq => "="
    case Plus => "+"
    case Star => "*"
    case Sub => "-"
    case Div => "/"
  }

  /** Writes tokens back as text, one space after each. */
  function Unlex(ts: seq<Token>): string {
    if ts == [] then "" else Text(ts[0]) + " " + Unlex(ts[1..])
  }

  /** The scan fails exactly when the text holds a character outside the
      lexable set: `{`, `}` and every other unknown character are fatal. */
  lemma {:induction false} LexFailsIff(s: string)
    ensures Lex(s).Fatal? <==> exists i :: 0 <= i < |s| && !Lexable(s[i])
  {
    if s == [] {
    } else if IsAlpha(s[0]) || IsDigit(s[0]) {
      var w := if IsAlpha(s[0]) then Span(s, IsAlnum) else Span(s, IsDigit);
      var rest := s[|w|..];
      LexFailsIff(rest);
      assert forall i :: 0 <= i < |w| ==> Lexable(s[i]);
      if exists i :: 0 <= i < |s| && !Lexable(s[i]) {
        var i :| 0 <= i < |s| && !Lexable(s[i]);
        assert !Lexable(rest[i - |w|]);
      }
      if exists j :: 0 <= j < |rest| && !Lexable(rest[j]) {
        var j :| 0 <= j < |rest| && !Lexable(rest[j]);
        assert !Lexable(s[j + |w|]);
      }
    } else if IsSpace(s[0]) || Punct(s[0]).Some? {
      LexFailsIff(s[1..]);
      if exists i :: 0 <= i < |s| && !Lexable(s[i]) {
        var i :| 0 <= i < |s| && !Lexable(s[i]);
        assert !Lexable(s[1..][i - 1]);
      }
      if exists j :: 0 <= j < |s[1..]| && !Lexable(s[1..][j]) {
        var j :| 0 <= j < |s[1..]| && !Lexable(s[1..][j]);
        assert !Lexable(s[j + 1]);
      }
    } else {
      assert !Lexable(s[0]);
    }
  }

  /** Every token of a successful scan has the shape of its kind: keywords
      and operators carry no text, identifiers carry a word that is not a
      keyword, literals carry a non-empty digit string. */
  lemma {:induction false} LexWellFormed(s: string)
    requires Lex(s).Ok?
    ensures forall i :: 0 <= i < |Lex(s).value| ==> WellFormed(Lex(s).value[i])
  {
    if s == [] {
    } else if IsAlpha(s[0]) {
      var w := Span(s, IsAlnum);
      LexWellFormed(s[|w|..]);
    } else if IsDigit(s[0]) {
      var w := Span(s, IsDigit);
      LexWellFormed(s[|w|..]);
    } else if IsSpace(s[0]) {
      LexWellFormed(s[1..]);
    } else {
      LexWellFormed(s[1..]);
    }
  }

  /** Each token consumes at least one character, so there are never more
      tokens than characters. */
  lemma {:induction false} LexCount(s: string)
    requires Lex(s).Ok?
    ensures |Lex(s).value| <= |s|
  {
    if s == [] {
    } else if IsAlpha(s[0]) {
      LexCount(s[|Span(s, IsAlnum)|..]);
    } else if IsDigit(s[0]) {
      LexCount(s[|Span(s, IsDigit)|..]);
    } else {
      LexCount(s[1..]);
    }
  }

  lemma StepWord(s: string)
    requires s != [] && IsAlpha(s[0])
    ensures Lex(s) == Then([Word(Span(s, IsAlnum))], Lex(s[|Span(s, IsAlnum)|..]))
  {
  }

  lemma StepDigits(s: string)
    requires s != [] && IsDigit(s[0])
    ensures Lex(s) == Then([Token(IntLit, Some(Span(s, IsDigit)))], Lex(s[|Span(s, IsDigit)|..]))
  {
  }

  lemma StepOther(s: string)
    requires s != [] && !IsAlnum(s[0])
    ensures IsSpace(s[0]) ==> Lex(s) == Lex(s[1..])
    ensures !IsSpace(s[0]) && Punct(s[0]).Some? ==> Lex(s) == Then([Token(Punct(s[0]).value, None)], Lex(s[1..]))
  {
  }

  /** What follows a token's text in the canonical layout: nothing, or a
      space that the scan skips. */
  lemma SkipSeparator(rest: string)
    requires rest == [] || rest[0] == ' '
    ensures Lex(rest) == Lex(if rest == [] then [] else rest[1..])
  {
    if rest != [] {
      StepOther(rest);
    }
  }

  /** A word followed by a space or by nothing scans to its token. */
  lemma LexWordText(w: string, rest: string)
    requires IsWord(w) && (rest == [] || rest[0] == ' ')
    ensures Lex(w + rest) == Then([Word(w)], Lex(rest))
  {
    var s := w + rest;
    assert s[..|w|] == w && s[0] == w[0];
    SpanUnique(s, IsAlnum, w);
    assert s[|w|..] == rest;
    StepWord(s);
  }

  /** A literal followed by a space or by nothing scans to its token. */
  lemma LexNumeralText(d: string, rest: string)
    requires IsNumeral(d) && (rest == [] || rest[0] == ' ')
    ensures Lex(d + rest) == Then([Token(IntLit, Some(d))], Lex(rest))
  {
    var s := d + rest;
    assert s[..|d|] == d && s[0] == d[0];
    SpanUnique(s, IsDigit, d);
    assert s[|d|..] == rest;
    StepDigits(s);
  }

  /** An operator followed by anything scans to its token. */
  lemma LexPunctText(c: char, rest: string)
    requires Punct(c).Some?
    ensures Lex([c] + rest) == Then([Token(Punct(c).value, None)], Lex(rest))
  {
    var s := [c] + rest;
    assert s[0] == c && s[1..] == rest;
    StepOther(s);
  }

  /** The text of an operator token is its one character. */
  lemma OperatorText(t: Token)
    requires t.kind !in {Exit, Val, Ident, IntLit}
    ensures |Text(t)| == 1 && Punct(Text(t)[0]) == Some(t.kind)
  {
  }

  /** Scanning the text of a well-formed token on its own, with anything
      that begins with a space after it, yields that token first. */
  lemma LexTokenText(t: Token, rest: string)
    requires WellFormed(t)
    requires rest == [] || rest[0] == ' '
    ensures Lex(Text(t) + rest) == Then([t], Lex(if rest == [] then [] else rest[1..]))
  {
    SkipSeparator(rest);
    if t.kind == Exit {
      assert IsWord("exit");
      LexWordText("exit", rest);
    } else if t.kind == Val {
      assert IsWord("val");
      LexWordText("val", rest);
    } else if t.kind == Ident {
      LexWordText(t.value.value, rest);
    } else if t.kind == IntLit {
      LexNumeralText(t.value.value, rest);
    } else {
      OperatorText(t);
      LexPunctText(Text(t)[0], rest);
      assert Text(t) == [Text(t)[0]];
    }
  }

  /** Writing well-formed tokens back as text and scanning it again gives
      the same tokens. */
  lemma {:induction false} LexUnlex(ts: seq<Token>)
    requires forall i :: 0 <= i < |ts| ==> WellFormed(ts[i])
    ensures Lex(Unlex(ts)) == Ok(ts)
  {
    if ts != [] {
      LexTokenText(ts[0], " " + Unlex(ts[1..]));
      assert (" " + Unlex(ts[1..]))[1..] == Unlex(ts[1..]);
      assert Text(ts[0]) + (" " + Unlex(ts[1..])) == Unlex(ts);
      LexUnlex(ts[1..]);
      assert [ts[0]] + ts[1..] == ts;
    }
  }

  /** The text an identifier or literal token carries scans back to that
      very token. */
  lemma RelexPayload(s: string, i: nat)
    requires Lex(s).Ok? && i < |Lex(s).value|
    requires Lex(s).value[i].value.Some?
    ensures Lex(Lex(s).value[i].value.value) == Ok([Lex(s).value[i]])
  {
    var t := Lex(s).value[i];
    LexWellFormed(s);
    LexTokenText(t, []);
    assert Text(t) + [] == t.value.value;
    assert Lex([]) == Ok([]);
    assert [t] + [] == [t];
  }

  /** The canonical text of a successful scan scans to the same tokens. */
  lemma LexUnlexLex(s: string)
    requires Lex(s).Ok?
    ensures Lex(Unlex(Lex(s).value)) == Lex(s)
  {
    LexWellFormed(s);
    LexUnlex(Lex(s).value);
  }

  class Tokenizer {
    const src: string
    var idx: nat

    constructor (src: string)
      ensures this.src == src && idx == 0
    {
      this.src := src;
      idx := 0;
    }

    /** The character `offset` places after the cursor, if there is one. */
    function Peek(offset: nat): (c: Option<char>)
      reads this
      ensures c.None? <==> idx + offset >= |src|
      ensures c.Some? ==> c.value == src[idx + offset]
    {
      if idx + offset >= |src| then None else Some(src[idx + offset])
    }

    method Consume() returns (c: char)
      requires idx < |src|
      modifies this
      ensures c == src[old(idx)] && idx == old(idx) + 1
    {
      c := src[idx];
      idx := idx + 1;
    }

    /** Consumes the maximal run of `p`-characters at the cursor (the inner
        `while` loops of the scan), whose first character is already known
        to satisfy `p`, and returns it. */
    method ConsumeRun(p: char -> bool) returns (buff: string)
      requires idx < |src| && p(src[idx])
      modifies this
      ensures buff == Span(src[old(idx)..], p) && |buff| > 0
      ensures idx == old(idx) + |buff| <= |src|
    {
      ghost var from := idx;
      var ch := Consume();
      buff := [ch];
      while Peek(0).Some? && p(Peek(0).value)
        invariant from < idx <= |src|
        invariant buff == src[from..idx]
        invariant forall i :: 0 <= i < |buff| ==> p(buff[i])
        decreases |src| - idx
      {
        ch := Consume();
        buff := buff + [ch];
      }
      SpanUnique(src[from..], p, buff);
    }

    /** Scans the whole text from the cursor. On success the cursor is back
        at 0, so a second call scans the same text again. */
    method Tokenize() returns (r: Result<seq<Token>>)
      requires idx <= |src|
      modifies this
      ensures r == Lex(src[old(idx)..])
      ensures r.Ok? ==> idx == 0
    {
      var tokens: seq<Token> := [];
      var buff: string := "";
      ThenNil(Lex(src[idx..]));
      while Peek(0).Some?
        invariant idx <= |src|
        invariant buff == ""
        invariant Lex(src[old(idx)..]) == Then(tokens, Lex(src[idx..]))
        decreases |src| - idx
      {
        ghost var from := idx;
        if IsAlpha(Peek(0).value) {
          buff := ConsumeRun(IsAlnum);
          assert src[from..][|buff|..] == src[idx..];
          ThenThen(tokens, [Word(buff)], Lex(src[idx..]));
          if buff == "exit" {
            tokens := tokens + [Token(Exit, None)];
          } else if buff == "val" {
            tokens := tokens + [Token(Val, None)];
          } else {
            tokens := tokens + [Token(Ident, Some(buff))];
          }
          buff := "";
          continue;
        } else if IsDigit(Peek(0).value) {
          buff := ConsumeRun(IsDigit);
          assert src[from..][|buff|..] == src[idx..];
          ThenThen(tokens, [Token(IntLit, Some(buff))], Lex(src[idx..]));
          tokens := tokens + [Token(IntLit, Some(buff))];
          buff := "";
          continue;
        } else if IsSpace(Peek(0).value) {
          var _ := Consume();
          assert src[from..][1..] == src[idx..];
          continue;
        }
        var ch := Consume();
        assert src[from..][1..] == src[idx..];
        var kind: TokenType;
        match ch {
          case '(' => kind := OpenParen;
          case ')' => kind := CloseParen;
          case ';' => kind := Semi;
          case '=' => kind := Eq;
          case '+' => kind := Plus;
          case '*' => kind := Star;
          case '-' => kind := Sub;
          case '/' => kind := Div;
          case _ =>
            r := Fatal(UnknownToken);
            return;
        }
        ThenThen(tokens, [Token(kind, None)], Lex(src[idx..]));
        tokens := tokens + [Token(kind, None)];
      }
      assert src[idx..] == [];
      assert tokens + [] == tokens;
      idx := 0;
      r := Ok(tokens);
    }
  }
}
