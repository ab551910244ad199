/** The code generator of the compiler (src/genration.hpp, the Linux
    branch). It walks the tree depth first, appends assembly lines to an
    output buffer, counts the words it has pushed in `m_stack_size`, and
    binds each `val` name to the stack slot that holds its value.

    The functions give the generator's effect on its state (`Gen`) for one
    term, expression, statement or program; the class `Generator` is the
    imperative walk, proved to have exactly that effect. */
module Codegen {
  import opened Outcomes
  import opened Ascii
  import opened Ast
  import opened X86

  /** The generator's state: the lines written so far, `m_stack_size`, and
      `m_vars`, each name with the slot (`stack_loc`) of its value. */
  datatype Gen = Gen(out: seq<Line>, depth: nat, vars: map<string, nat>)

  const UndeclaredIdentifier: string := "Undeclared identifier: "
  const IdentifierAlreadyUsed: string := "Identifier already used: "

  /** `(m_stack_size - stack_loc - 1) * 8` computed in 64-bit `size_t`:
      always a whole number of 8-byte words, and always below 2^64. */
  function Offset(depth: nat, loc: nat): (d: nat)
    ensures d % 8 == 0 && d < WordMod
  {
    ((depth - loc - 1) * 8) % WordMod
  }

  /** The number of slots an 8-byte displacement can reach. */
  const MaxSlots: nat := WordMod / 8

  /** For a slot below the counter, the displacement is the slot's distance
      from the top of the stack, in bytes; for the slot the counter itself
      names it wraps around to 2^64 - 8. */
  lemma OffsetOfSlot(depth: nat, loc: nat)
    ensures loc < depth <= MaxSlots ==> Offset(depth, loc) == (depth - 1 - loc) * 8
    ensures loc == depth ==> Offset(depth, loc) == WordMod - 8
  {
  }

  const Header: seq<Line> := [Global("_start"), Label("_start")]
  const ExitTail: seq<Line> := [MovImm(Rax, "60"), Pop(Rdi), Syscall]
  const Epilogue: seq<Line> := [MovImm(Rax, "60"), MovImm(Rdi, "0"), Syscall]

  /** The lines `gen_term` writes: a literal is loaded into `rax` and pushed,
      a bound name is pushed from its slot, an unbound name stops the compiler. */
  function TermCode(t: Term, vars: map<string, nat>, depth: nat): (r: Result<seq<Line>>)
    ensures r.Ok? <==> (t.Ident? ==> t.name in vars)
    ensures r.Fatal? ==> r.msg == UndeclaredIdentifier + t.name
  {
    match t
    case IntLit(lit) => Ok([MovImm(Rax, lit), Push(R(Rax))])
    case Ident(x) =>
      if x !in vars then Fatal(UndeclaredIdentifier + x)
      else Ok([Push(Mem(Offset(depth, vars[x])))])
  }

  /** The lines `gen_expr` writes for `e` when `m_stack_size` is `depth`. */
  function ExprCode(e: Expr, vars: map<string, nat>, depth: nat): Result<seq<Line>> {
    match e
    case TermExpr(t) => TermCode(t, vars, depth)
    case Add(l, r) =>
      var lc :- ExprCode(l, vars, depth);
      var rc :- ExprCode(r, vars, depth + 1);
      Ok(lc + rc + [Pop(Rax), Pop(Rbx), AddRR(Rax, Rbx), Push(R(Rax))])
  }

  /** `gen_stmt`. A `val` name is bound before its initializer is generated;
      a name that is bound already stops the compiler. */
  function StmtGen(s: Stmt, g: Gen): Result<Gen> {
    match s
    case Exit(e) =>
      var c :- ExprCode(e, g.vars, g.depth);
      Ok(Gen(g.out + c + ExitTail, g.depth, g.vars))
    case Let(x, e) =>
      if x in g.vars then Fatal(IdentifierAlreadyUsed + x)
      else
        var vars := g.vars[x := g.depth];
        var c :- ExprCode(e, vars, g.depth);
        Ok(Gen(g.out + c, g.depth + 1, vars))
  }

  /** The statements in program order; the first failure stops the compiler. */
  function StmtsGen(ss: seq<Stmt>, g: Gen): Result<Gen> {
    if ss == [] then Ok(g)
    else
      var g1 :- StmtGen(ss[0], g);
      StmtsGen(ss[1..], g1)
  }

  /** `generate`: the header, every statement, and then always the exit-0 epilogue. */
  function ProgGen(p: Prog, g: Gen): Result<Gen> {
    var g1 :- StmtsGen(p.stmts, g.(out := g.out + Header));
    Ok(g1.(out := g1.out + Epilogue))
  }

  /** The generator's state when it is constructed. */
  const Fresh: Gen := Gen([], 0, map[])

  // ---------------------------------------------------------------------
  // What the generator promises about names, the stack counter and layout

  /** An expression can be generated exactly when every name it reads is
      bound; otherwise the diagnostic names one of the unbound names. */
  lemma {:induction false} ExprCodeOkIff(e: Expr, vars: map<string, nat>, depth: nat)
    ensures ExprCode(e, vars, depth).Ok? <==> FreeVars(e) <= vars.Keys
    ensures ExprCode(e, vars, depth).Fatal? ==>
      exists x :: x in FreeVars(e) && x !in vars && ExprCode(e, vars, depth).msg == UndeclaredIdentifier + x
  {
    match e
    case TermExpr(_) =>
    case Add(l, r) =>
      ExprCodeOkIff(l, vars, depth);
      ExprCodeOkIff(r, vars, depth + 1);
  }

  /** The code of an expression pushes exactly one word more than it pops. */
  lemma {:induction false} ExprCodeNet(e: Expr, vars: map<string, nat>, depth: nat)
    requires ExprCode(e, vars, depth).Ok?
    ensures Net(ExprCode(e, vars, depth).value) == 1
  {
    match e
    case TermExpr(_) =>
    case Add(l, r) =>
      var lc := ExprCode(l, vars, depth).value;
      var rc := ExprCode(r, vars, depth + 1).value;
      ExprCodeNet(l, vars, depth);
      ExprCodeNet(r, vars, depth + 1);
      NetAppend(lc, rc);
      NetAppend(lc + rc, [Pop(Rax), Pop(Rbx), AddRR(Rax, Rbx), Push(R(Rax))]);
  }

  /** Names that are declared in order, none twice and none read before its
      `val` (a `val` may read its own name): the programs the generator
      accepts. Every name lives until the end of the program. */
  predicate WellScoped(ss: seq<Stmt>, names: set<string>) {
    if ss == [] then true
    else
      match ss[0]
      case Exit(e) => FreeVars(e) <= names && WellScoped(ss[1..], names)
      case Let(x, e) => x !in names && FreeVars(e) <= names + {x} && WellScoped(ss[1..], names + {x})
  }

  /** A statement changes the state by appending its code; an `exit` leaves
      the counter as it was, a `val` raises it by one and binds its name to
      the slot of its value. */
  lemma StmtGenEffect(s: Stmt, g: Gen)
    requires StmtGen(s, g).Ok?
    ensures var g1 := StmtGen(s, g).value;
      && g.out <= g1.out
      && Net(g1.out[|g.out|..]) == g1.depth - g.depth
      && (s.Exit? ==> g1.depth == g.depth && g1.vars == g.vars)
      && (s.Let? ==> g1.depth == g.depth + 1 && s.name !in g.vars && g1.vars == g.vars[s.name := g.depth])
  {
    var g1 := StmtGen(s, g).value;
    match s
    case Exit(e) =>
      var c := ExprCode(e, g.vars, g.depth).value;
      ExprCodeNet(e, g.vars, g.depth);
      assert g1.out[|g.out|..] == c + ExitTail;
      NetAppend(c, ExitTail);
    case Let(x, e) =>
      var c := ExprCode(e, g.vars[x := g.depth], g.depth).value;
      ExprCodeNet(e, g.vars[x := g.depth], g.depth);
      assert g1.out[|g.out|..] == c;
  }

  /** A statement can be generated exactly when the names it reads are bound
      (a `val` also counting its own name) and a `val` introduces a new name. */
  lemma StmtGenOkIff(s: Stmt, g: Gen)
    ensures StmtGen(s, g).Ok? <==>
      match s
      case Exit(e) => FreeVars(e) <= g.vars.Keys
      case Let(x, e) => x !in g.vars.Keys && FreeVars(e) <= g.vars.Keys + {x}
  {
    match s
    case Exit(e) =>
      ExprCodeOkIff(e, g.vars, g.depth);
    case Let(x, e) =>
      ExprCodeOkIff(e, g.vars[x := g.depth], g.depth);
      assert g.vars[x := g.depth].Keys == g.vars.Keys + {x};
  }

  /** Statements are generated in program order: the code of `a + b` is the
      code of `a` followed by the code of `b`. */
  lemma {:induction false} StmtsGenAppend(a: seq<Stmt>, b: seq<Stmt>, g: Gen)
    ensures StmtsGen(a + b, g) == (if StmtsGen(a, g).Ok? then StmtsGen(b, StmtsGen(a, g).value) else StmtsGen(a, g))
  {
    if a == [] {
      assert a + b == b;
    } else {
      assert (a + b)[0] == a[0] && (a + b)[1..] == a[1..] + b;
      if StmtGen(a[0], g).Ok? {
        StmtsGenAppend(a[1..], b, StmtGen(a[0], g).value);
      }
    }
  }

  /** A run of statements succeeds exactly when its names are well scoped
      with respect to the names already bound. */
  lemma {:induction false} StmtsGenOkIff(ss: seq<Stmt>, g: Gen)
    ensures StmtsGen(ss, g).Ok? <==> WellScoped(ss, g.vars.Keys)
  {
    if ss != [] {
      StmtGenOkIff(ss[0], g);
      if StmtGen(ss[0], g).Ok? {
        var g1 := StmtGen(ss[0], g).value;
        StmtGenEffect(ss[0], g);
        if ss[0].Let? {
          assert g1.vars.Keys == g.vars.Keys + {ss[0].name};
        }
        StmtsGenOkIff(ss[1..], g1);
      }
    }
  }

  /** A successful run of statements appends code whose pushes minus pops
      is the rise of the counter, which is the number of `val` statements. */
  lemma {:induction false} StmtsGenEffect(ss: seq<Stmt>, g: Gen)
    ensures StmtsGen(ss, g).Ok? ==>
      var g1 := StmtsGen(ss, g).value;
      && g.out <= g1.out
      && g1.depth == g.depth + CountLets(ss)
      && Net(g1.out[|g.out|..]) == CountLets(ss)
  {
    if ss != [] && StmtGen(ss[0], g).Ok? {
      var g1 := StmtGen(ss[0], g).value;
      StmtGenEffect(ss[0], g);
      StmtsGenEffect(ss[1..], g1);
      if StmtsGen(ss[1..], g1).Ok? {
        var g2 := StmtsGen(ss[1..], g1).value;
        assert g2.out[|g.out|..] == g1.out[|g.out|..] + g2.out[|g1.out|..];
        NetAppend(g1.out[|g.out|..], g2.out[|g1.out|..]);
      }
    }
  }

  /** A program compiles exactly when it is well scoped. Its output is the
      header, the statements' code and the exit-0 epilogue, which is there
      even after an `exit`; at the end the counter equals the number of
      `val` statements. */
  lemma ProgGenEffect(p: Prog)
    ensures ProgGen(p, Fresh).Ok? <==> WellScoped(p.stmts, {})
    ensures ProgGen(p, Fresh).Ok? ==>
      var g := ProgGen(p, Fresh).value;
      && |g.out| >= |Header| + |Epilogue|
      && g.out[..|Header|] == Header
      && g.out[|g.out| - |Epilogue|..] == Epilogue
      && g.depth == CountLets(p.stmts)
      && Net(g.out) == g.depth
  {
    var g0 := Fresh.(out := Header);
    assert Fresh.(out := Fresh.out + Header) == g0;
    assert g0.vars.Keys == {};
    StmtsGenOkIff(p.stmts, g0);
    StmtsGenEffect(p.stmts, g0);
    if ProgGen(p, Fresh).Ok? {
      var g1 := StmtsGen(p.stmts, g0).value;
      var g := ProgGen(p, Fresh).value;
      assert g1.out == Header + g1.out[|Header|..];
      NetAppend(Header, g1.out[|Header|..]);
      NetAppend(g1.out, Epilogue);
    }
  }

  class Generator {
    const prog: Prog
    var output: seq<Line>
    var stackSize: nat
    var vars: map<string, nat>

    function State(): Gen
      reads this
    {
      Gen(output, stackSize, vars)
    }

    constructor (prog: Prog)
      ensures this.prog == prog && State() == Fresh
    {
      this.prog := prog;
      output := [];
      stackSize := 0;
      vars := map[];
    }

    /** Writes a line that does not move the stack. */
    method Emit(l: Line)
      requires Delta(l) == 0
      modifies this
      ensures State() == old(State()).(out := old(output) + [l])
    {
      output := output + [l];
    }

    method Push(src: Operand)
      modifies this
      ensures State() == Gen(old(output) + [Line.Push(src)], old(stackSize) + 1, old(vars))
    {
      output := output + [Line.Push(src)];
      stackSize := stackSize + 1;
    }

    method Pop(dst: Reg)
      requires stackSize > 0
      modifies this
      ensures State() == Gen(old(output) + [Line.Pop(dst)], old(stackSize) - 1, old(vars))
    {
      output := output + [Line.Pop(dst)];
      stackSize := stackSize - 1;
    }

    method GenTerm(t: Term) returns (r: Result<()>)
      modifies this
      ensures var spec := TermCode(t, old(vars), old(stackSize));
        && (r.Ok? <==> spec.Ok?)
        && (r.Fatal? ==> r.msg == spec.msg)
        && (r.Ok? ==> State() == Gen(old(output) + spec.value, old(stackSize) + 1, old(vars)))
    {
      match t {
        case IntLit(lit) =>
          Emit(MovImm(Rax, lit));
          Push(R(Rax));
        case Ident(x) =>
          if x !in vars {
            return Fatal(UndeclaredIdentifier + x);
          }
          var loc := vars[x];
          Push(Mem(Offset(stackSize, loc)));
      }
      return Ok(());
    }

    method GenExpr(e: Expr) returns (r: Result<()>)
      modifies this
      ensures var spec := ExprCode(e, old(vars), old(stackSize));
        && (r.Ok? <==> spec.Ok?)
        && (r.Fatal? ==> r.msg == spec.msg)
        && (r.Ok? ==> State() == Gen(old(output) + spec.value, old(stackSize) + 1, old(vars)))
      decreases e
    {
      match e
      case TermExpr(t) =>
        r := GenTerm(t);
      case Add(lhs, rhs) =>
        r := GenExpr(lhs);
        if r.Fatal? {
          return;
        }
        r := GenExpr(rhs);
        if r.Fatal? {
          return;
        }
        AddTop();
    }

    /** The four lines that replace the two operands on top of the stack
        by their sum. */
    method AddTop()
      requires stackSize >= 2
      modifies this
      ensures State() == Gen(old(output) + [Line.Pop(Rax), Line.Pop(Rbx), AddRR(Rax, Rbx), Line.Push(R(Rax))],
                             old(stackSize) - 1, old(vars))
    {
      Pop(Rax);
      Pop(Rbx);
      Emit(AddRR(Rax, Rbx));
      Push(R(Rax));
    }

    method GenStmt(s: Stmt) returns (r: Result<()>)
      modifies this
      ensures var spec := StmtGen(s, old(State()));
        && (r.Ok? <==> spec.Ok?)
        && (r.Fatal? ==> r.msg == spec.msg)
        && (r.Ok? ==> State() == spec.value)
    {
      match s
      case Exit(e) =>
        r := GenExpr(e);
        if r.Fatal? {
          return;
        }
        Emit(MovImm(Rax, "60"));
        Pop(Rdi);
        Emit(Syscall);
      case Let(x, e) =>
        if x in vars {
          return Fatal(IdentifierAlreadyUsed + x);
        }
        vars := vars[x := stackSize];
        r := GenExpr(e);
    }

    /** Generates the whole program and returns the text of the output buffer. */
    method Generate() returns (r: Result<string>)
      modifies this
      ensures var spec := ProgGen(prog, old(State()));
        && (r.Ok? <==> spec.Ok?)
        && (r.Fatal? ==> r.msg == spec.msg)
        && (r.Ok? ==> State() == spec.value && r.value == RenderAll(output))
    {
      Emit(Global("_start"));
      Emit(Label("_start"));
      ghost var start := State();
      assert start == old(State()).(out := old(output) + Header);
      var i := 0;
      while i < |prog.stmts|
        invariant 0 <= i <= |prog.stmts|
        invariant StmtsGen(prog.stmts, start) == StmtsGen(prog.stmts[i..], State())
      {
        var s := GenStmt(prog.stmts[i]);
        if s.Fatal? {
          return Fatal(s.msg);
        }
        assert prog.stmts[i..][1..] == prog.stmts[i + 1..];
        i := i + 1;
      }
      Emit(MovImm(Rax, "60"));
      Emit(MovImm(Rdi, "0"));
      Emit(Syscall);
      return Ok(RenderAll(output));
    }
  }
}
