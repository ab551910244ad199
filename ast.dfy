/** The syntax tree the generator walks (src/genration.hpp): terms are
    literals or identifiers, an expression is a term or the sum of two
    expressions, a statement is `exit` or a `val` binding. Literals and
    names keep the text of the token they came from. Also the meaning of a
    program, used to state what the generated code computes. */
module Ast {
  import opened Ascii

  datatype Term = IntLit(lit: string) | Ident(name: string)

  datatype Expr = TermExpr(term: Term) | Add(lhs: Expr, rhs: Expr)

  datatype Stmt = Exit(expr: Expr) | Let(name: string, expr: Expr)

  datatype Prog = Prog(stmts: seq<Stmt>)

  /** Machine words are 64 bits wide. */
  const WordMod: int := 0x1_0000_0000_0000_0000

  /** The identifiers an expression reads. */
  function FreeVars(e: Expr): set<string> {
    match e
    case TermExpr(IntLit(_)) => {}
    case TermExpr(Ident(x)) => {x}
    case Add(l, r) => FreeVars(l) + FreeVars(r)
  }

  /** Every literal of the expression is a decimal numeral, as the lexer makes them. */
  predicate Numeric(e: Expr) {
    match e
    case TermExpr(IntLit(lit)) => IsNumeral(lit)
    case TermExpr(Ident(_)) => true
    case Add(l, r) => Numeric(l) && Numeric(r)
  }

  /** The number of nodes of the expression. */
  function Size(e: Expr): nat {
    match e
    case TermExpr(_) => 1
    case Add(l, r) => 1 + Size(l) + Size(r)
  }

  /** The 64-bit value of an expression: literals are truncated to 64 bits
      and addition wraps around. An unbound name reads as 0; the theorems
      only evaluate expressions whose names are all bound. */
  function Eval(e: Expr, env: map<string, int>): int
    requires Numeric(e)
  {
    match e
    case TermExpr(IntLit(lit)) => Decimal(lit) % WordMod
    case TermExpr(Ident(x)) => if x in env then env[x] else 0
    case Add(l, r) => (Eval(l, env) + Eval(r, env)) % WordMod
  }

  predicate NumericStmts(ss: seq<Stmt>) {
    forall i :: 0 <= i < |ss| ==> Numeric(ss[i].expr)
  }

  /** No `val` reads the name it is introducing. */
  predicate NoSelfReference(ss: seq<Stmt>) {
    forall i :: 0 <= i < |ss| && ss[i].Let? ==> ss[i].name !in FreeVars(ss[i].expr)
  }

  /** The exit status of running the statements in order from `env`: the
      first `exit` ends the program with the low 8 bits of its value (the
      kernel keeps only those); a program that runs off its end exits
      with 0. */
  function ExitStatus(ss: seq<Stmt>, env: map<string, int>): int
    requires NumericStmts(ss)
  {
    if ss == [] then 0
    else
      match ss[0]
      case Exit(e) => Eval(e, env) % 256
      case Let(x, e) => ExitStatus(ss[1..], env[x := Eval(e, env)])
  }

  function CountLets(ss: seq<Stmt>): nat {
    if ss == [] then 0 else (if ss[0].Let? then 1 else 0) + CountLets(ss[1..])
  }
}
