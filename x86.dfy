/** The fragment of x86-64 assembly (NASM syntax, Linux) the generator
    emits, as instruction lines, their text, and what they do to a machine
    with three registers and a stack of 64-bit words. */
module X86 {
  import opened Ascii
  import opened Ast

  datatype Reg = Rax | Rbx | Rdi

  /** A register, or the memory word `QWORD [rsp + disp]`. */
  datatype Operand = R(reg: Reg) | Mem(disp: nat)

  datatype Line =
    | Global(sym: string)
    | Label(sym: string)
    | MovImm(dst: Reg, imm: string)
    | Push(operand: Operand)
    | Pop(dst: Reg)
    | AddRR(dst: Reg, src: Reg)
    | Syscall

  function RegName(r: Reg): string {
    match r
    case Rax => "rax"
    case Rbx => "rbx"
    case Rdi => "rdi"
  }

  /** The text of a line. A memory push ends in two newlines: the operand
      text the generator builds already ends in one and `push` adds another. */
  function Render(l: Line): (text: string)
    ensures |text| > 0 && text[|text| - 1] == '\n'
  {
    match l
    case Global(s) => "global " + s + "\n"
    case Label(s) => s + ":\n"
    case MovImm(r, imm) => "    mov " + RegName(r) + ", " + imm + "\n"
    case Push(R(r)) => "    push " + RegName(r) + "\n"
    case Push(Mem(d)) => "    push QWORD [rsp + " + ToDecimal(d) + "]\n\n"
    case Pop(r) => "    pop " + RegName(r) + "\n"
    case AddRR(a, b) => "    add " + RegName(a) + ", " + RegName(b) + "\n"
    case Syscall => "    syscall\n"
  }

  function RenderAll(ls: seq<Line>): string {
    if ls == [] then "" else Render(ls[0]) + RenderAll(ls[1..])
  }

  /** What the stack counter of the generator does for one line. */
  function Delta(l: Line): int {
    match l
    case Push(_) => 1
    case Pop(_) => -1
    case _ => 0
  }

  /** Pushes minus pops. */
  function Net(ls: seq<Line>): int {
    if ls == [] then 0 else Delta(ls[0]) + Net(ls[1..])
  }

  lemma {:induction false} NetAppend(a: seq<Line>, b: seq<Line>)
    ensures Net(a + b) == Net(a) + Net(b)
  {
    if a != [] {
      assert (a + b)[1..] == a[1..] + b;
      NetAppend(a[1..], b);
    } else {
      assert a + b == b;
    }
  }

  /** Machine state: the words the program pushed (the top is the last
      element, at `[rsp]`) and the registers. */
  datatype State = State(stack: seq<int>, rax: int, rbx: int, rdi: int)

  function Get(st: State, r: Reg): int {
    match r
    case Rax => st.rax
    case Rbx => st.rbx
    case Rdi => st.rdi
  }

  function Set(st: State, r: Reg, v: int): State {
    match r
    case Rax => st.(rax := v)
    case Rbx => st.(rbx := v)
    case Rdi => st.(rdi := v)
  }

  /** Still running, ended by `exit` with a status, or stopped by something
      this model does not give a meaning to (a read outside the pushed
      words, a pop of an empty stack, an operand the assembler would
      reject, a system call other than `exit`). */
  datatype Outcome = Running(st: State) | Exited(status: int) | Fault

  function Step(l: Line, st: State): Outcome {
    match l
    case Global(_) => Running(st)
    case Label(_) => Running(st)
    case MovImm(r, imm) => if IsNumeral(imm) then Running(Set(st, r, Decimal(imm) % WordMod)) else Fault
    case Push(R(r)) => Running(st.(stack := st.stack + [Get(st, r)]))
    case Push(Mem(d)) =>
      if d % 8 == 0 && d / 8 < |st.stack| then
        Running(st.(stack := st.stack + [st.stack[|st.stack| - 1 - d / 8]]))
      else Fault
    case Pop(r) =>
      if st.stack == [] then Fault
      else Running(Set(st.(stack := st.stack[..|st.stack| - 1]), r, st.stack[|st.stack| - 1]))
    case AddRR(a, b) => Running(Set(st, a, (Get(st, a) + Get(st, b)) % WordMod))
    case Syscall => if st.rax == 60 then Exited(st.rdi % 256) else Fault
  }

  /** Runs straight-line code. */
  function Exec(code: seq<Line>, st: State): Outcome {
    if code == [] then Running(st)
    else
      match Step(code[0], st)
      case Running(next) => Exec(code[1..], next)
      case other => other
  }

  /** Running a line followed by more code. */
  lemma ExecCons(l: Line, rest: seq<Line>, st: State)
    ensures Exec([l] + rest, st) == (if Step(l, st).Running? then Exec(rest, Step(l, st).st) else Step(l, st))
  {
    assert ([l] + rest)[0] == l && ([l] + rest)[1..] == rest;
  }

  /** Running `a + b` runs `a`, then `b` from where `a` left off, unless `a` stopped. */
  lemma {:induction false} ExecAppend(a: seq<Line>, b: seq<Line>, st: State)
    ensures Exec(a + b, st) == (if Exec(a, st).Running? then Exec(b, Exec(a, st).st) else Exec(a, st))
  {
    if a != [] {
      assert (a + b)[0] == a[0] && (a + b)[1..] == a[1..] + b;
      if Step(a[0], st).Running? {
        ExecAppend(a[1..], b, Step(a[0], st).st);
      }
    } else {
      assert a + b == b;
    }
  }
}
