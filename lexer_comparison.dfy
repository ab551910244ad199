/** How the two lexers relate: on every text the current lexer accepts,
    the earlier lexer yields exactly the `exit`, literal and `;` tokens of
    the current one, in the same order, and drops the rest. */
module LexerComparison {
  import opened Outcomes
  import opened Ascii
  import T = Tokenizer
  import E = EarlyTokenizer

  /** The tokens of the current lexer that the earlier one also knows. */
  function Project(ts: seq<T.Token>): seq<E.Token> {
    if ts == [] then []
    else
      var t := ts[0];
      (match t.kind
       case Exit => [E.Token(E.Exit, None)]
       case IntLit => [E.Token(E.IntLit, t.value)]
       case Semi => [E.Token(E.Semi, None)]
       case _ => []) + Project(ts[1..])
  }

  /** Projecting a token followed by more tokens. */
  lemma ProjectCons(ts: seq<T.Token>)
    requires ts != []
    ensures Project(ts) == Project([ts[0]]) + Project(ts[1..])
  {
    assert [ts[0]][1..] == [];
  }

  lemma {:induction false} LexersAgree(s: string)
    requires T.Lex(s).Ok?
    ensures E.LexEarly(s) == Project(T.Lex(s).value)
    decreases |s|
  {
    if s == [] {
    } else if IsAlpha(s[0]) {
      var w := Span(s, IsAlnum);
      T.StepWord(s);
      E.StepWord(s);
      LexersAgree(s[|w|..]);
      var ts := T.Lex(s).value;
      assert ts == [T.Word(w)] + T.Lex(s[|w|..]).value;
      assert ts[0] == T.Word(w) && ts[1..] == T.Lex(s[|w|..]).value;
      ProjectCons(ts);
    } else if IsDigit(s[0]) {
      var w := Span(s, IsDigit);
      T.StepDigits(s);
      E.StepDigits(s);
      LexersAgree(s[|w|..]);
      var ts := T.Lex(s).value;
      assert ts[0] == T.Token(T.IntLit, Some(w)) && ts[1..] == T.Lex(s[|w|..]).value;
      ProjectCons(ts);
    } else {
      T.StepOther(s);
      LexersAgree(s[1..]);
      if s[0] == ';' {
        E.StepSemi(s);
        var ts := T.Lex(s).value;
        assert ts[0] == T.Token(T.Semi, None) && ts[1..] == T.Lex(s[1..]).value;
        ProjectCons(ts);
      } else {
        E.StepSkip(s);
        if !IsSpace(s[0]) {
          var ts := T.Lex(s).value;
          assert ts[0].kind !in {T.Exit, T.IntLit, T.Semi} && ts[1..] == T.Lex(s[1..]).value;
          ProjectCons(ts);
        }
      }
    }
  }
}
