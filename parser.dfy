/** The parser of the compiler (src/parser.hpp): a cursor over the tokens of
    the earlier lexer. It recognises one statement form, `exit INT ;`, whose
    expression is a single integer literal. */
module Parser {
  import opened Outcomes
  import opened Ascii
  import opened EarlyTokenizer

  datatype NodeExpr = NodeExpr(intLit: Token)

  datatype NodeExit = NodeExit(expr: NodeExpr)

  /** What `parse_exit` does: give back "no match" with nothing consumed,
      return a node, or stop the compiler with a diagnostic. */
  datatype ExitParse = NoMatch | Parsed(node: NodeExit) | Failed(msg: string)

  const ExpectedSemicolon: string := "Expected semicolon"
  const InvalidExpression: string := "Invalid expression"

  /** `parse_expr` from cursor `i`: the expression and the cursor after it. */
  function ExprAt(ts: seq<Token>, i: nat): (r: (Option<NodeExpr>, nat))
    ensures r.0.Some? <==> i < |ts| && ts[i].kind == IntLit
    ensures r.0.Some? ==> r.0.value == NodeExpr(ts[i]) && r.1 == i + 1
    ensures r.0.None? ==> r.1 == i
  {
    if i < |ts| && ts[i].kind == IntLit then (Some(NodeExpr(ts[i])), i + 1) else (None, i)
  }

  /** `parse_exit` from cursor `i`: the outcome and the cursor after it. */
  function ExitAt(ts: seq<Token>, i: nat): (r: (ExitParse, nat))
    ensures r.0.NoMatch? <==> i >= |ts| || ts[i].kind != Exit
    ensures r.0.NoMatch? ==> r.1 == i
    ensures r.0.Parsed? <==>
      i + 2 < |ts| && ts[i].kind == Exit && ts[i + 1].kind == IntLit && ts[i + 2].kind == Semi
    ensures r.0.Parsed? ==> r.0.node == NodeExit(NodeExpr(ts[i + 1])) && r.1 == i + 3
    ensures r.0 == Failed(InvalidExpression) <==>
      i < |ts| && ts[i].kind == Exit && (i + 1 >= |ts| || ts[i + 1].kind != IntLit)
    ensures r.0 == Failed(ExpectedSemicolon) <==>
      i + 1 < |ts| && ts[i].kind == Exit && ts[i + 1].kind == IntLit && (i + 2 >= |ts| || ts[i + 2].kind != Semi)
  {
    if i < |ts| && ts[i].kind == Exit then
      match ExprAt(ts, i + 1)
      case (Some(e), j) =>
        if j < |ts| && ts[j].kind == Semi then (Parsed(NodeExit(e)), j + 1) else (Failed(ExpectedSemicolon), j)
      case (None, j) => (Failed(InvalidExpression), j)
    else
      (NoMatch, i)
  }

  /** The tokens of an exit statement. */
  function UnparseExit(n: NodeExit): seq<Token> {
    [Token(Exit, None), n.expr.intLit, Token(Semi, None)]
  }

  /** An exit statement written out as tokens, wherever it stands, parses
      back to the same node and is consumed whole. */
  lemma ParseUnparse(pre: seq<Token>, n: NodeExit, post: seq<Token>)
    requires n.expr.intLit.kind == IntLit
    ensures ExitAt(pre + UnparseExit(n) + post, |pre|) == (Parsed(n), |pre| + 3)
  {
    var ts := pre + UnparseExit(n) + post;
    assert ts[|pre|] == Token(Exit, None) && ts[|pre| + 1] == n.expr.intLit && ts[|pre| + 2].kind == Semi;
  }

  /** The keyword `exit` followed by a word boundary lexes to its token. */
  lemma LexKeyword(t: string)
    requires t != [] && !IsAlnum(t[0])
    ensures LexEarly("exit" + t) == [Token(Exit, None)] + LexEarly(t)
  {
    SpanUnique("exit", IsAlnum, "exit");
    WordThen("exit", t);
    assert "exit"[4..] + t == t;
  }

  /** A literal followed by a non-digit lexes to one literal token. */
  lemma LexLiteral(d: string, u: string)
    requires IsNumeral(d) && u != [] && !IsDigit(u[0])
    ensures LexEarly(d + u) == [Token(IntLit, Some(d))] + LexEarly(u)
  {
    SpanUnique(d, IsDigit, d);
    DigitsThen(d, u);
    assert d[|d|..] + u == u;
  }

  /** The text `exit <digits>;` lexes to the three tokens of an exit statement. */
  lemma LexExitStatement(d: string, rest: string)
    requires IsNumeral(d)
    ensures LexEarly("exit " + d + ";" + rest)
         == [Token(Exit, None), Token(IntLit, Some(d)), Token(Semi, None)] + LexEarly(rest)
  {
    var u := ";" + rest;
    var t := " " + (d + u);
    Regroup(d, rest);
    LexKeyword(t);
    assert t[1..] == d + u;
    StepSkip(t);
    LexLiteral(d, u);
    assert u[1..] == rest;
    StepSemi(u);
  }

  lemma Regroup(d: string, rest: string)
    ensures "exit " + d + ";" + rest == "exit" + (" " + (d + (";" + rest)))
  {
  }

  /** Lexing and then parsing `exit <digits>;` yields the exit node holding
      that literal and moves the cursor past all three tokens. */
  lemma ParseLexedExit(d: string, rest: string)
    requires IsNumeral(d)
    ensures ExitAt(LexEarly("exit " + d + ";" + rest), 0)
         == (Parsed(NodeExit(NodeExpr(Token(IntLit, Some(d))))), 3)
  {
    LexExitStatement(d, rest);
    ParseUnparse([], NodeExit(NodeExpr(Token(IntLit, Some(d)))), LexEarly(rest));
    assert [] + UnparseExit(NodeExit(NodeExpr(Token(IntLit, Some(d))))) + LexEarly(rest)
        == [Token(Exit, None), Token(IntLit, Some(d)), Token(Semi, None)] + LexEarly(rest);
  }

  class Parser {
    const tokens: seq<Token>
    var idx: nat

    constructor (tokens: seq<Token>)
      ensures this.tokens == tokens && idx == 0
    {
      this.tokens := tokens;
      idx := 0;
    }

    /** The token `ahead` places after the cursor, if there is one. */
    function Peak(ahead: nat): (t: Option<Token>)
      reads this
      ensures t.None? <==> idx + ahead >= |tokens|
      ensures t.Some? ==> t.value == tokens[idx + ahead]
    {
      if idx + ahead >= |tokens| then None else Some(tokens[idx + ahead])
    }

    method Consume() returns (t: Token)
      requires idx < |tokens|
      modifies this
      ensures t == tokens[old(idx)] && idx == old(idx) + 1
    {
      t := tokens[idx];
      idx := idx + 1;
    }

    method ParseExpr() returns (e: Option<NodeExpr>)
      modifies this
      ensures (e, idx) == ExprAt(tokens, old(idx))
    {
      if Peak(0).Some? && Peak(0).value.kind == IntLit {
        var t := Consume();
        return Some(NodeExpr(t));
      } else {
        return None;
      }
    }

    method ParseExit() returns (r: ExitParse)
      modifies this
      ensures (r, idx) == ExitAt(tokens, old(idx))
    {
      if Peak(0).Some? && Peak(0).value.kind == Exit {
        var _ := Consume();
        var nodeExpr := ParseExpr();
        if nodeExpr.Some? {
          if Peak(0).Some? && Peak(0).value.kind == Semi {
            var _ := Consume();
            return Parsed(NodeExit(nodeExpr.value));
          } else {
            return Failed(ExpectedSemicolon);
          }
        } else {
          return Failed(InvalidExpression);
        }
      }
      return NoMatch;
    }
  }
}
