/** What the generated code computes. Run on the machine of module X86,
    the code of an expression leaves the expression's value on top of the
    stack, and the code of a program ends the process with the status of
    its first `exit`, or with 0 when it has none. The identifier
    addressing `(m_stack_size - stack_loc - 1) * 8` is what makes this
    hold: it reaches the slot the name was bound to. */
module CodegenCorrect {
  import opened Outcomes
  import opened Ascii
  import opened Ast
  import opened X86
  import opened Codegen

  /** Every bound name's slot is in the stack and holds the name's value. */
  ghost predicate Agrees(vars: map<string, nat>, env: map<string, int>, stack: seq<int>) {
    forall x :: x in vars ==> vars[x] < |stack| && x in env && stack[vars[x]] == env[x]
  }

  lemma AgreesPush(vars: map<string, nat>, env: map<string, int>, stack: seq<int>, v: int)
    requires Agrees(vars, env, stack)
    ensures Agrees(vars, env, stack + [v])
  {
    forall x | x in vars ensures (stack + [v])[vars[x]] == env[x] {
    }
  }

  /** The code of an expression depends only on the slots of the names it reads. */
  lemma {:induction false} ExprCodeFrame(e: Expr, vars1: map<string, nat>, vars2: map<string, nat>, depth: nat)
    requires forall x :: x in FreeVars(e) ==> (x in vars1 <==> x in vars2)
    requires forall x :: x in FreeVars(e) && x in vars1 ==> vars1[x] == vars2[x]
    ensures ExprCode(e, vars1, depth) == ExprCode(e, vars2, depth)
  {
    match e
    case TermExpr(_) =>
    case Add(l, r) =>
      ExprCodeFrame(l, vars1, vars2, depth);
      ExprCodeFrame(r, vars1, vars2, depth + 1);
  }

  /** The four lines that combine the two operands of an addition: the
      right operand is popped into `rax`, the left one into `rbx`, and
      their sum is pushed. */
  lemma AddTail(below: seq<int>, st: State, lv: int, rv: int)
    requires st.stack == below + [lv, rv]
    ensures Exec([Pop(Rax), Pop(Rbx), AddRR(Rax, Rbx), Push(R(Rax))], st)
         == Running(State(below + [(rv + lv) % WordMod], (rv + lv) % WordMod, lv, st.rdi))
  {
    var sum := (rv + lv) % WordMod;
    var s1 := State(below + [lv], rv, st.rbx, st.rdi);
    var s2 := State(below, rv, lv, st.rdi);
    var s3 := State(below, sum, lv, st.rdi);
    var s4 := State(below + [sum], sum, lv, st.rdi);
    assert st.stack[..|st.stack| - 1] == below + [lv];
    assert Step(Pop(Rax), st) == Running(s1);
    assert (below + [lv])[..|below|] == below;
    assert Step(Pop(Rbx), s1) == Running(s2);
    assert Step(AddRR(Rax, Rbx), s2) == Running(s3);
    assert Step(Push(R(Rax)), s3) == Running(s4);
    ExecCons(Push(R(Rax)), [], s3);
    ExecCons(AddRR(Rax, Rbx), [Push(R(Rax))], s2);
    ExecCons(Pop(Rbx), [AddRR(Rax, Rbx), Push(R(Rax))], s1);
    ExecCons(Pop(Rax), [Pop(Rbx), AddRR(Rax, Rbx), Push(R(Rax))], st);
  }

  /** The code of an addition, given what the code of its operands does. */
  lemma AddCorrect(lc: seq<Line>, rc: seq<Line>, st: State, lv: int, rv: int)
    requires Exec(lc, st).Running? && Exec(lc, st).st.stack == st.stack + [lv]
    requires Exec(rc, Exec(lc, st).st).Running?
    requires Exec(rc, Exec(lc, st).st).st.stack == st.stack + [lv, rv]
    ensures var o := Exec(lc + rc + [Pop(Rax), Pop(Rbx), AddRR(Rax, Rbx), Push(R(Rax))], st);
      o.Running? && o.st.stack == st.stack + [(lv + rv) % WordMod]
  {
    var tail := [Pop(Rax), Pop(Rbx), AddRR(Rax, Rbx), Push(R(Rax))];
    ExecAppend(lc, rc, st);
    ExecAppend(lc + rc, tail, st);
    var st2 := Exec(rc, Exec(lc, st).st).st;
    AddTail(st.stack, st2, lv, rv);
  }

  lemma IdentCorrect(x: string, vars: map<string, nat>, env: map<string, int>, st: State)
    requires x in vars && Agrees(vars, env, st.stack)
    requires |st.stack| <= MaxSlots
    ensures var o := Exec([Push(Mem(Offset(|st.stack|, vars[x])))], st);
      o.Running? && o.st.stack == st.stack + [env[x]]
  {
    var n := |st.stack|;
    OffsetOfSlot(n, vars[x]);
    assert Offset(n, vars[x]) / 8 == n - 1 - vars[x];
    ExecCons(Push(Mem(Offset(n, vars[x]))), [], st);
  }

  lemma LitCorrect(lit: string, st: State)
    requires IsNumeral(lit)
    ensures var o := Exec([MovImm(Rax, lit), Push(R(Rax))], st);
      o.Running? && o.st.stack == st.stack + [Decimal(lit) % WordMod]
  {
    var st1 := Set(st, Rax, Decimal(lit) % WordMod);
    ExecCons(Push(R(Rax)), [], st1);
    ExecCons(MovImm(Rax, lit), [Push(R(Rax))], st);
  }

  /** The code of an addition is the code of its operands, the right one
      generated one slot higher, followed by the four combining lines. */
  lemma ExprCodeAdd(l: Expr, r: Expr, vars: map<string, nat>, n: nat)
    requires ExprCode(Add(l, r), vars, n).Ok?
    ensures ExprCode(l, vars, n).Ok? && ExprCode(r, vars, n + 1).Ok?
    ensures ExprCode(Add(l, r), vars, n).value
         == ExprCode(l, vars, n).value + ExprCode(r, vars, n + 1).value
            + [Pop(Rax), Pop(Rbx), AddRR(Rax, Rbx), Push(R(Rax))]
  {
  }

  /** Run from a stack whose slots agree with `env`, the code of `e` pushes
      the value of `e` and leaves the words below untouched. */
  lemma {:induction false} ExprCorrect(e: Expr, vars: map<string, nat>, env: map<string, int>, st: State)
    requires ExprCode(e, vars, |st.stack|).Ok?
    requires Numeric(e) && Agrees(vars, env, st.stack)
    requires |st.stack| + Size(e) <= MaxSlots
    ensures Exec(ExprCode(e, vars, |st.stack|).value, st).Running?
    ensures Exec(ExprCode(e, vars, |st.stack|).value, st).st.stack == st.stack + [Eval(e, env)]
  {
    match e
    case TermExpr(IntLit(lit)) =>
      LitCorrect(lit, st);
    case TermExpr(Ident(x)) =>
      IdentCorrect(x, vars, env, st);
    case Add(l, r) =>
      var n := |st.stack|;
      ExprCodeAdd(l, r, vars, n);
      ExprCorrect(l, vars, env, st);
      var st1 := Exec(ExprCode(l, vars, n).value, st).st;
      AgreesPush(vars, env, st.stack, Eval(l, env));
      ExprCorrect(r, vars, env, st1);
      assert st1.stack + [Eval(r, env)] == st.stack + [Eval(l, env), Eval(r, env)];
      AddStep(l, r, vars, env, st);
  }

  /** The addition case of `ExprCorrect`, given what the operands' code does. */
  lemma AddStep(l: Expr, r: Expr, vars: map<string, nat>, env: map<string, int>, st: State)
    requires ExprCode(Add(l, r), vars, |st.stack|).Ok? && Numeric(l) && Numeric(r)
    requires var lc := ExprCode(l, vars, |st.stack|).value;
      && Exec(lc, st).Running? && Exec(lc, st).st.stack == st.stack + [Eval(l, env)]
      && var rc := ExprCode(r, vars, |st.stack| + 1).value;
      && Exec(rc, Exec(lc, st).st).Running?
      && Exec(rc, Exec(lc, st).st).st.stack == st.stack + [Eval(l, env), Eval(r, env)]
    ensures Exec(ExprCode(Add(l, r), vars, |st.stack|).value, st).Running?
    ensures Exec(ExprCode(Add(l, r), vars, |st.stack|).value, st).st.stack == st.stack + [Eval(Add(l, r), env)]
  {
    var n := |st.stack|;
    ExprCodeAdd(l, r, vars, n);
    AddCorrect(ExprCode(l, vars, n).value, ExprCode(r, vars, n + 1).value, st, Eval(l, env), Eval(r, env));
  }

  predicate HasExit(ss: seq<Stmt>) {
    ss != [] && (ss[0].Exit? || HasExit(ss[1..]))
  }

  /** The bindings after running statements that contain no `exit`. */
  function FinalEnv(ss: seq<Stmt>, env: map<string, int>): map<string, int>
    requires NumericStmts(ss)
  {
    if ss == [] then env
    else
      match ss[0]
      case Exit(_) => env
      case Let(x, e) => FinalEnv(ss[1..], env[x := Eval(e, env)])
  }

  /** An upper bound on how far the statements' code raises the stack. */
  function Footprint(ss: seq<Stmt>): nat {
    if ss == [] then 0 else Size(ss[0].expr) + 1 + Footprint(ss[1..])
  }

  lemma {:induction false} NoExitStatus(ss: seq<Stmt>, env: map<string, int>)
    requires NumericStmts(ss) && !HasExit(ss)
    ensures ExitStatus(ss, env) == 0
  {
    if ss != [] {
      NoExitStatus(ss[1..], env[ss[0].name := Eval(ss[0].expr, env)]);
    }
  }

  lemma DecimalSixty()
    ensures Decimal("60") == 60
  {
    assert "60"[..1] == "6";
    assert "6"[..0] == "";
  }

  /** `mov rax, 60`, then the exit code into `rdi`, then `syscall`. */
  lemma ExitTailEffect(below: seq<int>, st: State, v: int)
    requires st.stack == below + [v]
    ensures Exec(ExitTail, st) == Exited(v % 256)
  {
    DecimalSixty();
    var s1 := st.(rax := 60);
    var s2 := State(below, 60, st.rbx, v);
    assert Step(MovImm(Rax, "60"), st) == Running(s1);
    assert s1.stack[..|below|] == below;
    assert Step(Pop(Rdi), s1) == Running(s2);
    ExecCons(Syscall, [], s2);
    ExecCons(Pop(Rdi), [Syscall], s1);
    ExecCons(MovImm(Rax, "60"), [Pop(Rdi), Syscall], st);
  }

  /** The exit-0 epilogue ends the process with status 0. */
  lemma EpilogueEffect(st: State)
    ensures Exec(Epilogue, st) == Exited(0)
  {
    DecimalSixty();
    assert Decimal("0") == 0 by { assert "0"[..0] == ""; }
    var s1 := st.(rax := 60);
    var s2 := s1.(rdi := 0);
    assert Step(MovImm(Rax, "60"), st) == Running(s1);
    assert Step(MovImm(Rdi, "0"), s1) == Running(s2);
    ExecCons(Syscall, [], s2);
    ExecCons(MovImm(Rdi, "0"), [Syscall], s1);
    ExecCons(MovImm(Rax, "60"), [MovImm(Rdi, "0"), Syscall], st);
  }

  /** The header only declares and labels the entry point. */
  lemma HeaderEffect(st: State)
    ensures Exec(Header, st) == Running(st)
  {
    ExecCons(Label("_start"), [], st);
    ExecCons(Global("_start"), [Label("_start")], st);
  }

  /** The code of `exit(e)` ends the process with the low 8 bits of the
      value of `e`. */
  lemma ExitCorrect(e: Expr, g: Gen, env: map<string, int>, st: State)
    requires StmtGen(Exit(e), g).Ok?
    requires Numeric(e) && g.depth == |st.stack| && Agrees(g.vars, env, st.stack)
    requires g.depth + Size(e) <= MaxSlots
    ensures Exec(StmtGen(Exit(e), g).value.out[|g.out|..], st) == Exited(Eval(e, env) % 256)
  {
    var c := ExprCode(e, g.vars, g.depth).value;
    assert StmtGen(Exit(e), g).value.out[|g.out|..] == c + ExitTail;
    ExprCorrect(e, g.vars, env, st);
    ExecAppend(c, ExitTail, st);
    ExitTailEffect(st.stack, Exec(c, st).st, Eval(e, env));
  }

  /** The code of `val x = e`, where `e` does not read `x`, pushes the value
      of `e` into the slot `x` is bound to. */
  lemma LetCorrect(x: string, e: Expr, g: Gen, env: map<string, int>, st: State)
    requires StmtGen(Let(x, e), g).Ok? && x !in FreeVars(e)
    requires Numeric(e) && g.depth == |st.stack| && Agrees(g.vars, env, st.stack)
    requires g.depth + Size(e) <= MaxSlots
    ensures var g1 := StmtGen(Let(x, e), g).value;
      var o := Exec(g1.out[|g.out|..], st);
      && o.Running?
      && o.st.stack == st.stack + [Eval(e, env)]
      && Agrees(g1.vars, env[x := Eval(e, env)], o.st.stack)
  {
    var vars1 := g.vars[x := g.depth];
    ExprCodeFrame(e, vars1, g.vars, g.depth);
    var c := ExprCode(e, g.vars, g.depth).value;
    assert StmtGen(Let(x, e), g).value.out[|g.out|..] == c;
    ExprCorrect(e, g.vars, env, st);
    AgreesPush(g.vars, env, st.stack, Eval(e, env));
  }

  /** The side conditions of the correctness theorem hold for a suffix. */
  lemma StmtsTail(ss: seq<Stmt>)
    requires ss != [] && NumericStmts(ss) && NoSelfReference(ss)
    ensures NumericStmts(ss[1..]) && NoSelfReference(ss[1..])
  {
    forall i | 0 <= i < |ss[1..]| ensures Numeric(ss[1..][i].expr) {
      assert ss[1..][i] == ss[i + 1];
    }
    forall i | 0 <= i < |ss[1..]| && ss[1..][i].Let? ensures ss[1..][i].name !in FreeVars(ss[1..][i].expr) {
      assert ss[1..][i] == ss[i + 1];
    }
  }

  /** Run from a stack that matches the generator's state, the code of a
      run of statements ends the process with the status of the first
      `exit`; without one it leaves the stack matching the new state. */
  lemma {:induction false} StmtsCorrect(ss: seq<Stmt>, g: Gen, env: map<string, int>, st: State)
    requires StmtsGen(ss, g).Ok?
    requires NumericStmts(ss) && NoSelfReference(ss)
    requires g.depth == |st.stack| && Agrees(g.vars, env, st.stack)
    requires g.depth + Footprint(ss) <= MaxSlots
    ensures g.out <= StmtsGen(ss, g).value.out
    ensures HasExit(ss) ==>
      Exec(StmtsGen(ss, g).value.out[|g.out|..], st) == Exited(ExitStatus(ss, env))
    ensures !HasExit(ss) ==>
      var o := Exec(StmtsGen(ss, g).value.out[|g.out|..], st);
      && o.Running?
      && |o.st.stack| == StmtsGen(ss, g).value.depth
      && Agrees(StmtsGen(ss, g).value.vars, FinalEnv(ss, env), o.st.stack)
  {
    StmtsGenEffect(ss, g);
    if ss == [] {
      assert g.out[|g.out|..] == [];
    } else {
      var g1 := StmtGen(ss[0], g).value;
      var gEnd := StmtsGen(ss, g).value;
      assert gEnd == StmtsGen(ss[1..], g1).value;
      StmtGenEffect(ss[0], g);
      StmtsGenEffect(ss[1..], g1);
      var here := g1.out[|g.out|..];
      var rest := gEnd.out[|g1.out|..];
      assert gEnd.out[|g.out|..] == here + rest;
      ExecAppend(here, rest, st);
      assert Numeric(ss[0].expr);
      match ss[0] {
        case Exit(e) =>
          ExitCorrect(e, g, env, st);
        case Let(x, e) =>
          LetCorrect(x, e, g, env, st);
          StmtsTail(ss);
          StmtsCorrect(ss[1..], g1, env[x := Eval(e, env)], Exec(here, st).st);
      }
    }
  }

  /** The whole program, run from an empty stack, exits with the status the
      program's meaning gives: that of its first `exit`, or 0. */
  lemma ProgCorrect(p: Prog, st: State)
    requires ProgGen(p, Fresh).Ok?
    requires st.stack == []
    requires NumericStmts(p.stmts) && NoSelfReference(p.stmts)
    requires Footprint(p.stmts) <= MaxSlots
    ensures Exec(ProgGen(p, Fresh).value.out, st) == Exited(ExitStatus(p.stmts, map[]))
  {
    var g0 := Fresh.(out := Header);
    assert Fresh.(out := Fresh.out + Header) == g0;
    var g1 := StmtsGen(p.stmts, g0).value;
    StmtsCorrect(p.stmts, g0, map[], st);
    var body := g1.out[|Header|..];
    assert g1.out == Header + body;
    var out := ProgGen(p, Fresh).value.out;
    assert out == Header + body + Epilogue;
    HeaderEffect(st);
    ExecAppend(Header, body, st);
    ExecAppend(Header + body, Epilogue, st);
    if !HasExit(p.stmts) {
      NoExitStatus(p.stmts, map[]);
      EpilogueEffect(Exec(body, st).st);
    }
  }

  /** `val a = 5; val b = a + 1; exit(b);` exits with status 6. */
  lemma ExampleExitSix(st: State)
    requires st.stack == []
    ensures var p := Prog([
        Let("a", TermExpr(IntLit("5"))),
        Let("b", Add(TermExpr(Ident("a")), TermExpr(IntLit("1")))),
        Exit(TermExpr(Ident("b")))]);
      ProgGen(p, Fresh).Ok? && Exec(ProgGen(p, Fresh).value.out, st) == Exited(6)
  {
    var ss := [
      Let("a", TermExpr(IntLit("5"))),
      Let("b", Add(TermExpr(Ident("a")), TermExpr(IntLit("1")))),
      Exit(TermExpr(Ident("b")))];
    var p := Prog(ss);
    assert Decimal("5") == 5 by { assert "5"[..0] == ""; }
    assert Decimal("1") == 1 by { assert "1"[..0] == ""; }
    assert ss[1..] == [ss[1], ss[2]] && ss[1..][1..] == [ss[2]] && ss[1..][1..][1..] == [];
    assert "a" != "b" by { assert "a"[0] != "b"[0]; }
    assert {"a"} + {"b"} == {"a", "b"};
    assert WellScoped([ss[2]], {"a", "b"});
    assert WellScoped(ss[1..], {"a"});
    assert {} + {"a"} == {"a"};
    assert WellScoped(ss, {});
    ProgGenEffect(p);
    ProgCorrect(p, st);
    var env1 := map["a" := 5];
    var env2 := env1["b" := 6];
    assert ExitStatus([ss[2]], env2) == 6;
    assert ExitStatus(ss[1..], env1) == 6;
    assert ExitStatus(ss, map[]) == 6;
  }

  /** `val x = x;` is accepted, but the name is bound before its initializer
      is generated, so the read of `x` is addressed from a slot that holds
      nothing yet: the displacement wraps around to 2^64 - 8 and the push
      reads outside the stack. */
  lemma SelfReferenceWraps(st: State)
    requires st.stack == []
    ensures var p := Prog([Let("x", TermExpr(Ident("x")))]);
      && ProgGen(p, Fresh).Ok?
      && ProgGen(p, Fresh).value.out == Header + [Push(Mem(WordMod - 8))] + Epilogue
      && Exec(ProgGen(p, Fresh).value.out, st) == Fault
  {
    var s := Let("x", TermExpr(Ident("x")));
    var p := Prog([s]);
    OffsetOfSlot(0, 0);
    var g0 := Gen(Header, 0, map[]);
    assert Fresh.(out := Fresh.out + Header) == g0;
    var vars := map["x" := 0];
    assert ExprCode(s.expr, vars, 0) == Ok([Push(Mem(WordMod - 8))]);
    var g1 := Gen(Header + [Push(Mem(WordMod - 8))], 1, vars);
    assert StmtGen(s, g0) == Ok(g1);
    assert [s][1..] == [];
    assert StmtsGen([s], g0) == Ok(g1);
    HeaderEffect(st);
    ExecCons(Push(Mem(WordMod - 8)), Epilogue, st);
    ExecAppend(Header, [Push(Mem(WordMod - 8))] + Epilogue, st);
    assert Header + [Push(Mem(WordMod - 8))] + Epilogue == Header + ([Push(Mem(WordMod - 8))] + Epilogue);
  }
}
