/** The stack machine of expr_run. */
module ExprMachine {
  import opened Words

  /** Slots of `long stack[512]` (expr.c:481). */
  const STACK_SIZE := 512

  datatype Machine = Machine(pc: nat, a: int, stack: seq<int>, mem: Memory)

  /** Fault stands for whatever leaves the machine's defined behaviour, DivideError for SIGFPE. */
  datatype Outcome = Running(vm: Machine) | Halted(result: int, final: Memory) | DivideError | Fault

  function Goto(s: Machine, target: int): Outcome {
    if target < 0 then Fault else Running(s.(pc := target))
  }

  function Push(s: Machine): Outcome {
    if |s.stack| >= STACK_SIZE then Fault
    else Running(s.(pc := s.pc + 1, stack := s.stack + [s.a]))
  }

  function Top(s: Machine): int
    requires s.stack != []
  {
    s.stack[|s.stack| - 1]
  }

  function Pop(s: Machine): Machine
    requires s.stack != []
  {
    s.(stack := s.stack[..|s.stack| - 1])
  }

  function RunAlu(op: int, s: Machine): Outcome
    requires OR <= op <= MOD && s.stack != []
  {
    var v := Alu(op, Top(s), s.a);
    if v.None? then DivideError else Running(Pop(s).(pc := s.pc + 1, a := v.value))
  }

  /** Instructions with an operand word: `i <= SI` (expr.c:494). */
  function StepWithOperand(op: int, arg: int, s: Machine): Outcome {
    if op == IMM then Running(s.(pc := s.pc + 2, a := arg))
    else if op == JMP then Goto(s, arg)
    else if op == BZ then if s.a != 0 then Running(s.(pc := s.pc + 2)) else Goto(s, arg)
    else if op == BNZ then if s.a != 0 then Goto(s, arg) else Running(s.(pc := s.pc + 2))
    else if op == ADJ then
      if 0 <= arg <= |s.stack| then Running(s.(pc := s.pc + 2, stack := s.stack[..|s.stack| - arg])) else Fault
    else if op == LI then
      if arg in {1, 2, 4, 8} then Running(s.(pc := s.pc + 2, a := Load(s.mem, s.a, arg))) else Fault
    else if op == SI then
      if arg in {1, 2, 4, 8} && s.stack != [] then
        Running(Pop(s).(pc := s.pc + 2, mem := Store(s.mem, Top(s), arg, s.a)))
      else Fault
    else Fault
  }

  /** One turn of the loop at expr.c:488-548. */
  function Step(w: seq<int>, s: Machine): Outcome {
    if s.pc >= |w| then Fault
    else
      var op := w[s.pc];
      if 0 <= op <= SI then
        if s.pc + 1 < |w| then StepWithOperand(op, w[s.pc + 1], s) else Fault
      else if op == PSH then Push(s)
      else if OR <= op <= MOD then if s.stack != [] then RunAlu(op, s) else Fault
      else if op == NTHL || op == NTHS then
        if s.stack != [] then Running(s.(pc := s.pc + 1, a := Builtin(op, Top(s)))) else Fault
      else if op == EXIT then Halted(s.a, s.mem)
      else Fault
  }

  function Steps(w: seq<int>, o: Outcome, n: nat): Outcome
    decreases n
  {
    if n == 0 || !o.Running? then o else Steps(w, Step(w, o.vm), n - 1)
  }

  lemma {:induction false} StepsAdd(w: seq<int>, o: Outcome, n: nat, k: nat)
    ensures Steps(w, o, n + k) == Steps(w, Steps(w, o, n), k)
    decreases n
  {
    if n > 0 && o.Running? {
      StepsAdd(w, Step(w, o.vm), n - 1, k);
    }
  }

  /** The words c stand in w from index p on. */
  predicate At(w: seq<int>, p: nat, c: seq<int>) {
    p + |c| <= |w| && w[p..p + |c|] == c
  }

  lemma AtParts(w: seq<int>, p: nat, c: seq<int>, d: seq<int>)
    requires At(w, p, c + d)
    ensures At(w, p, c) && At(w, p + |c|, d)
  {
    var x := w[p..p + |c + d|];
    assert w[p..p + |c|] == x[..|c|];
    assert w[p + |c|..p + |c| + |d|] == x[|c|..];
  }

  /** From s, n steps of w end in o. */
  predicate Leads(w: seq<int>, s: Machine, n: nat, o: Outcome) {
    Steps(w, Running(s), n) == o
  }

  /** Run to t, then on to o. */
  lemma Chain(w: seq<int>, s: Machine, n: nat, t: Machine, k: nat, o: Outcome)
    requires Leads(w, s, n, Running(t)) && Leads(w, t, k, o)
    ensures Leads(w, s, n + k, o)
  {
    StepsAdd(w, Running(s), n, k);
  }

  lemma Stop(w: seq<int>, s: Machine, n: nat, k: nat, o: Outcome)
    requires Leads(w, s, n, o) && !o.Running?
    ensures Leads(w, s, n + k, o)
  {
    StepsAdd(w, Running(s), n, k);
  }

  lemma One(w: seq<int>, s: Machine)
    ensures Leads(w, s, 1, Step(w, s))
  {
    assert Steps(w, Step(w, s), 0) == Step(w, s);
  }

  // ---- single instructions --------------------------------------------------------------------

  lemma Operand(w: seq<int>, s: Machine, op: int, arg: int)
    requires At(w, s.pc, [op, arg]) && 0 <= op <= SI
    ensures Leads(w, s, 1, StepWithOperand(op, arg, s))
  {
    var x := w[s.pc..s.pc + 2];
    assert w[s.pc] == x[0] && w[s.pc + 1] == x[1];
    One(w, s);
  }

  lemma Pushes(w: seq<int>, s: Machine)
    requires At(w, s.pc, [PSH]) && |s.stack| < STACK_SIZE
    ensures Leads(w, s, 1, Running(s.(pc := s.pc + 1, stack := s.stack + [s.a])))
  {
    var x := w[s.pc..s.pc + 1];
    assert w[s.pc] == x[0];
    One(w, s);
  }

  lemma Operates(w: seq<int>, s: Machine, op: int)
    requires At(w, s.pc, [op]) && OR <= op <= MOD && s.stack != []
    ensures Leads(w, s, 1, RunAlu(op, s))
  {
    var x := w[s.pc..s.pc + 1];
    assert w[s.pc] == x[0];
    One(w, s);
  }
}
