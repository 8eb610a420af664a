/** Running the code of a tree computes its value and its effects on memory. */
module ExprCorrect {
  import opened Common
  import opened Words
  import opened ExprSyntax
  import opened ExprCode
  import opened ExprMachine

  /** s after `len` words of code that computed r: same stack, result in `a`. */
  function After(s: Machine, len: nat, r: Eval): Outcome {
    match r
    case Val(v, m) => Running(s.(pc := s.pc + len, a := v, mem := m))
    case Trap => DivideError
  }

  // ---- straight-line endings ------------------------------------------------------------------

  lemma WidthIsSize(ty: int)
    requires GoodType(ty)
    ensures Width(ty) in {1, 2, 4, 8}
  {
  }

  lemma ImmediateThenAlu(w: seq<int>, s: Machine, v: int, op: int)
    requires At(w, s.pc, [IMM, v, op]) && OR <= op <= MOD && s.stack != []
    ensures Leads(w, s, 2, RunAlu(op, s.(pc := s.pc + 2, a := v)))
  {
    hide Alu;
    var s1 := s.(pc := s.pc + 2, a := v);
    assert [IMM, v, op] == [IMM, v] + [op];
    AtParts(w, s.pc, [IMM, v], [op]);
    Operand(w, s, IMM, v);
    Operates(w, s1, op);
    Chain(w, s, 1, s1, 1, RunAlu(op, s1));
  }

  /** `PSH; IMM v; op`: combines `a` with a constant, leaving the stack as it was. */
  lemma WithConstant(w: seq<int>, s: Machine, v: int, op: int)
    requires At(w, s.pc, [PSH, IMM, v, op]) && OR <= op <= MOD && |s.stack| < STACK_SIZE
    ensures Leads(w, s, 3, After(s, 4, Lift(Alu(op, s.a, v), s.mem)))
  {
    hide Alu;
    var s1 := s.(pc := s.pc + 1, stack := s.stack + [s.a]);
    assert [PSH, IMM, v, op] == [PSH] + [IMM, v, op];
    AtParts(w, s.pc, [PSH], [IMM, v, op]);
    Pushes(w, s);
    ImmediateThenAlu(w, s1, v, op);
    var s2 := s1.(pc := s1.pc + 2, a := v);
    assert Pop(s2).stack == s.stack;
    Chain(w, s, 1, s1, 2, RunAlu(op, s2));
  }

  lemma AluBasics(x: int, y: int)
    ensures Alu(ADD, x, y) == Some(Wrap(x + y)) && Alu(SUB, x, y) == Some(Wrap(x - y))
    ensures Alu(MUL, x, y) == Some(Wrap(x * y)) && Alu(EQ, x, y) == Some(Bool(x == y))
    ensures y > 0 ==> Alu(DIV, x, y) == Some(TruncDiv(x, y))
  {
  }

  lemma ScaleRuns(w: seq<int>, s: Machine, ty: int) returns (n: nat)
    requires At(w, s.pc, ScaleCode(ty)) && |s.stack| < STACK_SIZE
    ensures n <= |ScaleCode(ty)|
    ensures Leads(w, s, n, Running(s.(pc := s.pc + |ScaleCode(ty)|, a := Scaled(ty, s.a))))
  {
    hide Alu;
    if ty > PTR {
      AluBasics(s.a, Pointee(ty));
      WithConstant(w, s, Pointee(ty), MUL);
      n := 3;
    } else {
      n := 0;
    }
  }

  /** Combines the popped x with the `a` of s. */
  lemma CombineRuns(w: seq<int>, s: Machine, op: int, v: Option<int>)
    requires At(w, s.pc, [op]) && OR <= op <= MOD && s.stack != [] && v == Alu(op, Top(s), s.a)
    ensures Leads(w, s, 1, After(Pop(s), 1, Lift(v, s.mem)))
  {
    hide Alu;
    Operates(w, s, op);
  }

  /** Scale the right operand, then add it to or subtract it from the popped left one. */
  lemma OffsetRuns(w: seq<int>, s: Machine, ty: int, op: int) returns (n: nat)
    requires op == ADD || op == SUB
    requires At(w, s.pc, ScaleCode(ty) + [op]) && s.stack != [] && |s.stack| < STACK_SIZE
    ensures n <= |ScaleCode(ty) + [op]|
    ensures Leads(w, s, n, After(Pop(s), |ScaleCode(ty) + [op]|, Lift(Alu(op, Top(s), Scaled(ty, s.a)), s.mem)))
  {
    hide Alu, Leads, At, ScaleCode, Scaled;
    AtParts(w, s.pc, ScaleCode(ty), [op]);
    var k := ScaleRuns(w, s, ty);
    var s1 := s.(pc := s.pc + |ScaleCode(ty)|, a := Scaled(ty, s.a));
    var v := Alu(op, Top(s1), s1.a);
    CombineRuns(w, s1, op, v);
    Chain(w, s, k, s1, 1, After(Pop(s1), 1, Lift(v, s1.mem)));
    n := k + 1;
  }

  lemma DistanceRuns(w: seq<int>, s: Machine, size: int)
    requires At(w, s.pc, [SUB, PSH, IMM, size, DIV]) && size > 0 && s.stack != [] && |s.stack| <= STACK_SIZE
    ensures Leads(w, s, 4, After(Pop(s), 5, Val(TruncDiv(Wrap(Top(s) - s.a), size), s.mem)))
  {
    hide Alu, TruncDiv, Wrap, Leads, At;
    var x := Top(s);
    AluBasics(x, s.a);
    assert [SUB, PSH, IMM, size, DIV] == [SUB] + [PSH, IMM, size, DIV];
    AtParts(w, s.pc, [SUB], [PSH, IMM, size, DIV]);
    CombineRuns(w, s, SUB, Some(Wrap(x - s.a)));
    var s1 := Pop(s).(pc := s.pc + 1, a := Wrap(x - s.a));
    AluBasics(s1.a, size);
    WithConstant(w, s1, size, DIV);
    Chain(w, s, 1, s1, 3, After(s1, 4, Val(TruncDiv(s1.a, size), s.mem)));
  }

  lemma BinRuns(w: seq<int>, s: Machine, op: BinToken, tl: int, tr: int) returns (n: nat)
    requires GoodType(tl)
    requires At(w, s.pc, BinCode(op, tl, tr)) && s.stack != [] && |s.stack| < STACK_SIZE
    ensures n <= |BinCode(op, tl, tr)|
    ensures Leads(w, s, n, After(Pop(s), |BinCode(op, tl, tr)|, Lift(Arith(op, tl, tr, Top(s), s.a), s.mem)))
  {
    hide Alu, Apply, TruncDiv, Leads, At;
    if op == TK_ADD {
      n := OffsetRuns(w, s, tl, ADD);
      AluBasics(Top(s), Scaled(tl, s.a));
    } else if op == TK_SUB && IsDistance(tl, tr) {
      WidthIsSize(tl - PTR);
      DistanceRuns(w, s, Pointee(tl));
      n := 4;
    } else if op == TK_SUB {
      n := OffsetRuns(w, s, tl, SUB);
      AluBasics(Top(s), Scaled(tl, s.a));
    } else {
      CombineRuns(w, s, Opcode(op), Alu(Opcode(op), Top(s), s.a));
      InstructionMeans(op, Top(s), s.a);
      n := 1;
    }
  }

  /** Loads through the address in `a`. */
  lemma LoadRuns(w: seq<int>, s: Machine, ty: int)
    requires GoodType(ty) && At(w, s.pc, [LI, Width(ty)])
    ensures Leads(w, s, 1, After(s, 2, Val(Load(s.mem, s.a, Width(ty)), s.mem)))
  {
    WidthIsSize(ty);
    Operand(w, s, LI, Width(ty));
  }

  /** Stores `a` through the popped address. */
  lemma StoreRuns(w: seq<int>, s: Machine, ty: int)
    requires GoodType(ty) && At(w, s.pc, [SI, Width(ty)]) && s.stack != []
    ensures Leads(w, s, 1, After(Pop(s), 2, Val(s.a, Store(s.mem, Top(s), Width(ty), s.a))))
  {
    WidthIsSize(ty);
    Operand(w, s, SI, Width(ty));
  }

  function Stepped(up: bool, ty: int, x: int): int {
    if up then Wrap(x + StepOf(ty)) else Wrap(x - StepOf(ty))
  }

  lemma StepRuns(w: seq<int>, s: Machine, up: bool, ty: int)
    requires GoodType(ty) && At(w, s.pc, StepCode(up, ty)) && |s.stack| + 2 <= STACK_SIZE
    ensures var y := Stepped(up, ty, Load(s.mem, s.a, Width(ty)));
            Leads(w, s, 6, After(s, 9, Val(y, Store(s.mem, s.a, Width(ty), y))))
  {
    hide Step, Steps, Leads, At, Alu, Width, Load, Store, StepOf;
    WidthIsSize(ty);
    var wd, d, op := Width(ty), StepOf(ty), StepOpcode(up);
    assert StepCode(up, ty) == [PSH] + ([LI, wd] + ([PSH, IMM, d, op] + [SI, wd]));
    AtParts(w, s.pc, [PSH], [LI, wd] + ([PSH, IMM, d, op] + [SI, wd]));
    AtParts(w, s.pc + 1, [LI, wd], [PSH, IMM, d, op] + [SI, wd]);
    AtParts(w, s.pc + 3, [PSH, IMM, d, op], [SI, wd]);
    Pushes(w, s);
    var s1 := s.(pc := s.pc + 1, stack := s.stack + [s.a]);
    LoadRuns(w, s1, ty);
    var s2 := s1.(pc := s.pc + 3, a := Load(s.mem, s.a, wd));
    Chain(w, s, 1, s1, 1, Running(s2));
    AluBasics(s2.a, d);
    WithConstant(w, s2, d, op);
    var s3 := s2.(pc := s.pc + 7, a := Stepped(up, ty, s2.a));
    Chain(w, s, 2, s2, 3, Running(s3));
    StoreRuns(w, s3, ty);
    assert Pop(s3).stack == s.stack;
    Chain(w, s, 5, s3, 1, After(Pop(s3), 2, Val(s3.a, Store(s.mem, s.a, wd, s3.a))));
  }

  // ---- trees ----------------------------------------------------------------------------------

  /** The code of t stands at s.pc and the stack has room for it. */
  predicate Ready(env: Env, t: Tree, w: seq<int>, s: Machine) {
    && GoodEnv(env) && WellTyped(env, t)
    && At(w, s.pc, Code(env, t, s.pc))
    && |s.stack| + Depth(t) <= STACK_SIZE
  }

  /** n steps from s compute t: the value in `a`, the effects in memory, the stack as before. */
  predicate Computes(env: Env, t: Tree, w: seq<int>, s: Machine, n: nat)
    requires WellTyped(env, t)
  {
    && n <= |Code(env, t, s.pc)|
    && Leads(w, s, n, After(s, |Code(env, t, s.pc)|, Value(env, t, s.mem)))
  }

  predicate Locates(env: Env, t: Tree, w: seq<int>, s: Machine, n: nat)
    requires WellTyped(env, t) && IsLvalue(env, t)
  {
    && n <= |AddrCode(env, t, s.pc)|
    && Leads(w, s, n, After(s, |AddrCode(env, t, s.pc)|, Location(env, t, s.mem)))
  }

  /**
   * Compiler correctness: from any stack and memory, the emitted code ends just behind itself with
   * the value of the tree in `a`, its effects in memory and the stack untouched, or stops with the
   * divide error exactly when evaluation does, in no more steps than it has words.
   */
  lemma {:induction false} CodeCorrect(env: Env, t: Tree, w: seq<int>, s: Machine) returns (n: nat)
    requires Ready(env, t, w, s)
    ensures Computes(env, t, w, s, n)
    decreases t, 4
  {
    hide Step, Steps, Leads, At;
    match t
    case Lit(v) => Operand(w, s, IMM, v); n := 1;
    case SizeOf(ty) => Operand(w, s, IMM, Width(ty)); n := 1;
    case Name(x) =>
      if env[x].isArray {
        assert Code(env, t, s.pc) == [IMM, env[x].addr];
        Operand(w, s, IMM, env[x].addr);
        n := 1;
      } else {
        n := LoadCorrect(env, t, w, s);
      }
    case Paren(e) => n := CodeCorrect(env, e, w, s);
    case Cast(_, e) => n := CodeCorrect(env, e, w, s);
    case Deref(_) => n := LoadCorrect(env, t, w, s);
    case AddrOf(e) => n := AddrCorrect(env, e, w, s);
    case Un(u, _) => if u.Minus? { n := MinusCorrect(env, t, w, s); } else { n := UnaryCorrect(env, t, w, s); }
    case Pre(_, _) => n := PreCorrect(env, t, w, s);
    case Post(_, _) => n := PostCorrect(env, t, w, s);
    case Assign(_, _) => n := AssignCorrect(env, t, w, s);
    case Cond(_, _, _) => n := CondCorrect(env, t, w, s);
    case Logic(_, _, _) => n := LogicCorrect(env, t, w, s);
    case Bin(_, _, _) => n := BinCorrect(env, t, w, s);
    case Index(_, _) => n := LoadCorrect(env, t, w, s);
    case Call(_, _) => n := CallCorrect(env, t, w, s);
  }

  /** The address code of an lvalue leaves its location in `a`. */
  lemma {:induction false} AddrCorrect(env: Env, t: Tree, w: seq<int>, s: Machine) returns (n: nat)
    requires GoodEnv(env) && WellTyped(env, t) && IsLvalue(env, t)
    requires At(w, s.pc, AddrCode(env, t, s.pc)) && |s.stack| + Depth(t) <= STACK_SIZE
    ensures Locates(env, t, w, s, n)
    decreases t, 2
  {
    hide Step, Steps, Leads, At;
    match t
    case Name(x) => Operand(w, s, IMM, env[x].addr); n := 1;
    case Paren(e) => n := AddrCorrect(env, e, w, s);
    case Deref(e) => n := CodeCorrect(env, e, w, s);
    case Index(_, _) => n := IndexAddrCorrect(env, t, w, s);
  }

  lemma OperandsDepth(t: Tree)
    requires t.Bin? || t.Index?
    ensures Depth(t.l) <= Depth(t) && 1 + Depth(t.r) <= Depth(t) && 2 <= Depth(t)
  {
  }

  /** Left operand, push, right operand: both values at hand, or the divide error of either. */
  lemma {:induction false} OperandsRun(env: Env, t: Tree, w: seq<int>, s: Machine, tail: seq<int>)
    returns (n: nat, o: Outcome)
    requires t.Bin? || t.Index?
    requires GoodEnv(env) && WellTyped(env, t.l) && WellTyped(env, t.r)
    requires At(w, s.pc, OperandsCode(env, t, s.pc) + tail)
    requires |s.stack| + Depth(t) <= STACK_SIZE
    ensures n <= |OperandsCode(env, t, s.pc)| && Leads(w, s, n, o)
    ensures o == OperandsOutcome(env, t, s)
    ensures At(w, s.pc + |OperandsCode(env, t, s.pc)|, tail)
    decreases t, 0
  {
    hide Step, Steps, Leads, At, Code, AddrCode, Value, Location, Depth, TypeOf, WellTyped, IsLvalue;
    OperandsDepth(t);
    var cl := Code(env, t.l, s.pc);
    var cr := Code(env, t.r, s.pc + |cl| + 1);
    AtParts(w, s.pc, cl + [PSH] + cr, tail);
    AtParts(w, s.pc, cl + [PSH], cr);
    AtParts(w, s.pc, cl, [PSH]);
    n := CodeCorrect(env, t.l, w, s);
    o := DivideError;
    var v := Value(env, t.l, s.mem);
    if v.Val? {
      var s1 := s.(pc := s.pc + |cl|, a := v.v, mem := v.mem);
      Pushes(w, s1);
      var s2 := s1.(pc := s1.pc + 1, stack := s.stack + [s1.a]);
      Chain(w, s, n, s1, 1, Running(s2));
      var k := CodeCorrect(env, t.r, w, s2);
      o := After(s2, |cr|, Value(env, t.r, s2.mem));
      Chain(w, s, n + 1, s2, k, o);
      n := n + 1 + k;
    }
  }

  function OperandsCode(env: Env, t: Tree, base: nat): seq<int>
    requires t.Bin? || t.Index?
    requires WellTyped(env, t.l) && WellTyped(env, t.r)
  {
    var cl := Code(env, t.l, base);
    cl + [PSH] + Code(env, t.r, base + |cl| + 1)
  }

  function OperandsOutcome(env: Env, t: Tree, s: Machine): Outcome
    requires t.Bin? || t.Index?
    requires WellTyped(env, t.l) && WellTyped(env, t.r)
  {
    match Value(env, t.l, s.mem)
    case Trap => DivideError
    case Val(x, m1) =>
      match Value(env, t.r, m1)
      case Trap => DivideError
      case Val(y, m2) => Running(Machine(s.pc + |OperandsCode(env, t, s.pc)|, y, s.stack + [x], m2))
  }

  function IndexLocation(env: Env, t: Tree, m: Memory): Eval
    requires t.Index? && WellTyped(env, t.l) && WellTyped(env, t.r)
  {
    match Value(env, t.l, m)
    case Trap => Trap
    case Val(x, m1) =>
      match Value(env, t.r, m1)
      case Trap => Trap
      case Val(y, m2) => Val(Wrap(x + Scaled(TypeOf(env, t.l), y)), m2)
  }

  lemma LocationOfIndex(env: Env, t: Tree, m: Memory)
    requires t.Index? && WellTyped(env, t) && WellTyped(env, t.l) && WellTyped(env, t.r) && IsLvalue(env, t)
    ensures Location(env, t, m) == IndexLocation(env, t, m)
  {
    hide Scaled, WellTyped, TypeOf, IsLvalue, Value;
  }

  lemma IndexUnfold(env: Env, t: Tree, base: nat, m: Memory)
    requires t.Index? && WellTyped(env, t)
    ensures WellTyped(env, t.l) && WellTyped(env, t.r) && IsLvalue(env, t)
    ensures AddrCode(env, t, base) == OperandsCode(env, t, base) + (ScaleCode(TypeOf(env, t.l)) + [ADD])
    ensures Depth(t) >= 2 && Location(env, t, m) == IndexLocation(env, t, m)
  {
    hide Code, ScaleCode, Scaled, AddrCode, WellTyped, TypeOf, IsLvalue, Value, Location;
    IndexParts(env, t);
    LocationOfIndex(env, t, m);
    AddrOfIndex(env, t, base);
    Assoc(OperandsCode(env, t, base), ScaleCode(TypeOf(env, t.l)), [ADD]);
  }

  lemma {:induction false} IndexAddrCorrect(env: Env, t: Tree, w: seq<int>, s: Machine) returns (n: nat)
    requires t.Index? && GoodEnv(env) && WellTyped(env, t)
    requires At(w, s.pc, AddrCode(env, t, s.pc)) && |s.stack| + Depth(t) <= STACK_SIZE
    ensures Locates(env, t, w, s, n)
    decreases t, 1
  {
    hide Step, Steps, Leads, At, Alu, Code, AddrCode, Value, Location, WellTyped, TypeOf, Depth, IsLvalue, OperandsCode, ScaleCode, Scaled;
    IndexUnfold(env, t, s.pc, s.mem);
    var ty := TypeOf(env, t.l);
    var tail := ScaleCode(ty) + [ADD];
    var k, o := OperandsRun(env, t, w, s, tail);
    n := k;
    if o.Running? {
      var j := OffsetRuns(w, o.vm, ty, ADD);
      AluBasics(Top(o.vm), Scaled(ty, o.vm.a));
      assert Pop(o.vm).stack == s.stack;
      Chain(w, s, k, o.vm, j, After(Pop(o.vm), |tail|, Val(Wrap(Top(o.vm) + Scaled(ty, o.vm.a)), o.vm.mem)));
      n := k + j;
    }
  }

  lemma BinUnfold(env: Env, t: Tree, base: nat, m: Memory)
    requires t.Bin? && WellTyped(env, t)
    ensures WellTyped(env, t.l) && WellTyped(env, t.r)
    ensures Code(env, t, base) ==
            OperandsCode(env, t, base) + BinCode(t.op, TypeOf(env, t.l), TypeOf(env, t.r))
    ensures Value(env, t, m) ==
            match Value(env, t.l, m)
            case Trap => Trap
            case Val(x, m1) =>
              match Value(env, t.r, m1)
              case Trap => Trap
              case Val(y, m2) => Lift(Arith(t.op, TypeOf(env, t.l), TypeOf(env, t.r), x, y), m2)
  {
  }

  lemma {:induction false} BinCorrect(env: Env, t: Tree, w: seq<int>, s: Machine) returns (n: nat)
    requires t.Bin? && Ready(env, t, w, s)
    ensures Computes(env, t, w, s, n)
    decreases t, 1
  {
    hide Step, Steps, Leads, At, Code, AddrCode, Value, Location, Depth, TypeOf, WellTyped, IsLvalue, Alu, Arith, BinCode;
    OperandsDepth(t);
    BinUnfold(env, t, s.pc, s.mem);
    var tl, tr := TypeOf(env, t.l), TypeOf(env, t.r);
    var tail := BinCode(t.op, tl, tr);
    var k, o := OperandsRun(env, t, w, s, tail);
    n := k;
    if o.Running? {
      TypesAreGood(env, t.l);
      var j := BinRuns(w, o.vm, t.op, tl, tr);
      assert Pop(o.vm).stack == s.stack;
      Chain(w, s, k, o.vm, j, After(Pop(o.vm), |tail|, Lift(Arith(t.op, tl, tr, Top(o.vm), o.vm.a), o.vm.mem)));
      n := k + j;
    }
  }

  lemma LoadUnfold(env: Env, t: Tree, m: Memory)
    requires GoodEnv(env) && (t.Name? || t.Deref? || t.Index?) && WellTyped(env, t) && IsLvalue(env, t)
    ensures Value(env, t, m) ==
            (TypesAreGood(env, t); WidthIsSize(TypeOf(env, t));
             match Location(env, t, m)
             case Trap => Trap
             case Val(a, m1) => Val(Load(m1, a, Width(TypeOf(env, t))), m1))
  {
  }

  lemma {:induction false} LoadCorrect(env: Env, t: Tree, w: seq<int>, s: Machine) returns (n: nat)
    requires (t.Name? || t.Deref? || t.Index?) && Ready(env, t, w, s) && IsLvalue(env, t)
    ensures Computes(env, t, w, s, n)
    decreases t, 3
  {
    hide Step, Steps, Leads, At, Code, AddrCode, Value, Location, Depth, TypeOf, WellTyped, IsLvalue, Load, Width;
    LoadUnfold(env, t, s.mem);
    var c, ty := AddrCode(env, t, s.pc), TypeOf(env, t);
    LvalueCode(env, t, s.pc);
    AtParts(w, s.pc, c, [LI, Width(ty)]);
    n := AddrCorrect(env, t, w, s);
    var r := Location(env, t, s.mem);
    if r.Val? {
      TypesAreGood(env, t);
      WidthIsSize(ty);
      var s1 := s.(pc := s.pc + |c|, a := r.v, mem := r.mem);
      LoadRuns(w, s1, ty);
      Chain(w, s, n, s1, 1, After(s1, 2, Val(Load(s1.mem, s1.a, Width(ty)), s1.mem)));
      n := n + 1;
    }
  }

  lemma {:induction false} UnaryCorrect(env: Env, t: Tree, w: seq<int>, s: Machine) returns (n: nat)
    requires t.Un? && !t.u.Minus? && Ready(env, t, w, s)
    ensures Computes(env, t, w, s, n)
    decreases t, 1
  {
    hide Step, Steps, Leads, At, Alu;
    if t.u.Plus? {
      n := CodeCorrect(env, t.e, w, s);
      return;
    }
    var c := Code(env, t.e, s.pc);
    var v, op := if t.u.Not? then 0 else -1, if t.u.Not? then EQ else XOR;
    AtParts(w, s.pc, c, [PSH, IMM, v, op]);
    n := CodeCorrect(env, t.e, w, s);
    var r := Value(env, t.e, s.mem);
    if r.Val? {
      var s1 := s.(pc := s.pc + |c|, a := r.v, mem := r.mem);
      AluBasics(s1.a, v);
      WithConstant(w, s1, v, op);
      Chain(w, s, n, s1, 3, After(s1, 4, Lift(Alu(op, s1.a, v), s1.mem)));
      n := n + 3;
    }
  }

  /** `-` multiplies by -1, except before a number, where the constant itself is negated. */
  lemma MinusUnfold(env: Env, t: Tree, base: nat, m: Memory)
    requires t.Un? && t.u.Minus? && !t.e.Lit? && WellTyped(env, t)
    ensures WellTyped(env, t.e) && Depth(t.e) + 1 == Depth(t)
    ensures Code(env, t, base) == [IMM, -1] + ([PSH] + (Code(env, t.e, base + 3) + [MUL]))
    ensures Value(env, t, m) ==
            match Value(env, t.e, m)
            case Trap => Trap
            case Val(x, m1) => Val(Negated(x), m1)
  {
    hide Negated, Load, Store, Alu;
  }

  lemma MinusOne(x: int)
    ensures Alu(MUL, -1, x) == Some(Negated(x))
  {
    AluBasics(-1, x);
  }

  lemma NegatedLiteral(env: Env, t: Tree, base: nat, m: Memory)
    requires t.Un? && t.u.Minus? && t.e.Lit? && WellTyped(env, t)
    ensures Code(env, t, base) == [IMM, Negated(t.e.n)] && Value(env, t, m) == Val(Negated(t.e.n), m)
  {
    assert Value(env, t.e, m) == Val(t.e.n, m);
  }

  lemma {:induction false} MinusCorrect(env: Env, t: Tree, w: seq<int>, s: Machine) returns (n: nat)
    requires t.Un? && t.u.Minus? && Ready(env, t, w, s)
    ensures Computes(env, t, w, s, n)
    decreases t, 1
  {
    hide Step, Steps, Leads, At, Alu, Code, Value, WellTyped, Depth, Negated;
    if t.e.Lit? {
      NegatedLiteral(env, t, s.pc, s.mem);
      Operand(w, s, IMM, Negated(t.e.n));
      n := 1;
      return;
    }
    MinusUnfold(env, t, s.pc, s.mem);
    var c := Code(env, t.e, s.pc + 3);
    AtParts(w, s.pc, [IMM, -1], [PSH] + (c + [MUL]));
    AtParts(w, s.pc + 2, [PSH], c + [MUL]);
    AtParts(w, s.pc + 3, c, [MUL]);
    Operand(w, s, IMM, -1);
    var s1 := s.(pc := s.pc + 2, a := -1);
    Pushes(w, s1);
    var s2 := s1.(pc := s.pc + 3, stack := s.stack + [-1]);
    Chain(w, s, 1, s1, 1, Running(s2));
    var k := CodeCorrect(env, t.e, w, s2);
    var r := Value(env, t.e, s.mem);
    Chain(w, s, 2, s2, k, After(s2, |c|, r));
    n := 2 + k;
    if r.Val? {
      var s3 := s2.(pc := s2.pc + |c|, a := r.v, mem := r.mem);
      MinusOne(r.v);
      CombineRuns(w, s3, MUL, Some(Negated(r.v)));
      assert Pop(s3).stack == s.stack;
      Chain(w, s, n, s3, 1, After(Pop(s3), 1, Val(Negated(r.v), r.mem)));
      n := n + 1;
    }
  }

  lemma {:induction false} PreCorrect(env: Env, t: Tree, w: seq<int>, s: Machine) returns (n: nat)
    requires t.Pre? && Ready(env, t, w, s)
    ensures Computes(env, t, w, s, n)
    decreases t, 1
  {
    hide Step, Steps, Leads, At, StepCode, Load, Store, Width, StepOf;
    var c, ty := AddrCode(env, t.e, s.pc), TypeOf(env, t.e);
    AtParts(w, s.pc, c, StepCode(t.up, ty));
    n := AddrCorrect(env, t.e, w, s);
    var r := Location(env, t.e, s.mem);
    if r.Val? {
      TypesAreGood(env, t.e);
      WidthIsSize(ty);
      var s1 := s.(pc := s.pc + |c|, a := r.v, mem := r.mem);
      StepRuns(w, s1, t.up, ty);
      StepCodeLength(t.up, ty);
      var y := Stepped(t.up, ty, Load(s1.mem, s1.a, Width(ty)));
      Chain(w, s, n, s1, 6, After(s1, 9, Val(y, Store(s1.mem, s1.a, Width(ty), y))));
      n := n + 6;
    }
  }

  lemma StepCodeLength(up: bool, ty: int)
    ensures |StepCode(up, ty)| == 9
  {
  }

  /** The final `-`/`+` undoes the change, so `a` holds the old value. */
  lemma PostUnfold(env: Env, t: Tree, base: nat, m: Memory)
    requires t.Post? && WellTyped(env, t)
    ensures WellTyped(env, t.e) && IsLvalue(env, t.e) && Depth(t.e) <= Depth(t) && 2 <= Depth(t)
    ensures var ty := TypeOf(env, t.e);
            Code(env, t, base) == AddrCode(env, t.e, base) + StepCode(t.up, ty) + [PSH, IMM, StepOf(ty), StepOpcode(!t.up)]
    ensures var ty := TypeOf(env, t.e);
            Value(env, t, m) ==
            match Location(env, t.e, m)
            case Trap => Trap
            case Val(a, m1) =>
              var x := Load(m1, a, Width(ty));
              Val(x, Store(m1, a, Width(ty), Stepped(t.up, ty, x)))
  {
    hide StepCode, Load, Store, Width, StepOf, Wrap;
    PostCode(env, t, base);
    hide Code, AddrCode;
  }

  lemma PostCode(env: Env, t: Tree, base: nat)
    requires t.Post? && WellTyped(env, t)
    ensures WellTyped(env, t.e) && IsLvalue(env, t.e)
    ensures var ty := TypeOf(env, t.e);
            Code(env, t, base) == AddrCode(env, t.e, base) + StepCode(t.up, ty) + [PSH, IMM, StepOf(ty), StepOpcode(!t.up)]
  {
    hide StepCode, StepOf, TypeOf;
  }

  lemma {:induction false} PostCorrect(env: Env, t: Tree, w: seq<int>, s: Machine) returns (n: nat)
    requires t.Post? && Ready(env, t, w, s)
    ensures Computes(env, t, w, s, n)
    decreases t, 1
  {
    hide Step, Steps, Leads, At, StepCode, Load, Store, Width, StepOf, Alu, Wrap;
    hide Code, AddrCode, Value, Location, WellTyped, TypeOf, Depth, IsLvalue;
    PostUnfold(env, t, s.pc, s.mem);
    var c, ty := AddrCode(env, t.e, s.pc), TypeOf(env, t.e);
    var d, op := StepOf(ty), StepOpcode(!t.up);
    AtParts(w, s.pc, c + StepCode(t.up, ty), [PSH, IMM, d, op]);
    AtParts(w, s.pc, c, StepCode(t.up, ty));
    n := AddrCorrect(env, t.e, w, s);
    var r := Location(env, t.e, s.mem);
    if r.Val? {
      TypesAreGood(env, t.e);
      WidthIsSize(ty);
      var s1 := s.(pc := s.pc + |c|, a := r.v, mem := r.mem);
      StepRuns(w, s1, t.up, ty);
      StepCodeLength(t.up, ty);
      var x := Load(s1.mem, s1.a, Width(ty));
      var y := Stepped(t.up, ty, x);
      var m2 := Store(s1.mem, s1.a, Width(ty), y);
      var s2 := s1.(pc := s1.pc + 9, a := y, mem := m2);
      Chain(w, s, n, s1, 6, Running(s2));
      WithConstant(w, s2, d, op);
      AluBasics(y, d);
      LoadIsWord(s1.mem, s1.a, Width(ty));
      WrapUndo(x, d);
      Chain(w, s, n + 6, s2, 3, After(s2, 4, Val(x, m2)));
      n := n + 9;
    }
  }

  lemma AssignUnfold(env: Env, t: Tree, base: nat, m: Memory)
    requires t.Assign? && WellTyped(env, t)
    ensures WellTyped(env, t.l) && IsLvalue(env, t.l) && WellTyped(env, t.r)
    ensures Depth(t.l) <= Depth(t) && 1 + Depth(t.r) <= Depth(t)
    ensures var c := AddrCode(env, t.l, base);
            Code(env, t, base) == c + [PSH] + Code(env, t.r, base + |c| + 1) + [SI, Width(TypeOf(env, t.l))]
    ensures GoodEnv(env) ==>
            Value(env, t, m) ==
            (TypesAreGood(env, t.l); WidthIsSize(TypeOf(env, t.l));
             match Location(env, t.l, m)
             case Trap => Trap
             case Val(a, m1) =>
               match Value(env, t.r, m1)
               case Trap => Trap
               case Val(v, m2) => Val(v, Store(m2, a, Width(TypeOf(env, t.l)), v)))
  {
  }

  lemma {:induction false} AssignCorrect(env: Env, t: Tree, w: seq<int>, s: Machine) returns (n: nat)
    requires t.Assign? && Ready(env, t, w, s)
    ensures Computes(env, t, w, s, n)
    decreases t, 1
  {
    hide Step, Steps, Leads, At, Code, AddrCode, Value, Location, Depth, TypeOf, WellTyped, IsLvalue, Store, Width;
    AssignUnfold(env, t, s.pc, s.mem);
    var c, ty := AddrCode(env, t.l, s.pc), TypeOf(env, t.l);
    var cr := Code(env, t.r, s.pc + |c| + 1);
    AtParts(w, s.pc, c + [PSH] + cr, [SI, Width(ty)]);
    AtParts(w, s.pc, c + [PSH], cr);
    AtParts(w, s.pc, c, [PSH]);
    n := AddrCorrect(env, t.l, w, s);
    var r := Location(env, t.l, s.mem);
    if r.Val? {
      TypesAreGood(env, t.l);
      WidthIsSize(ty);
      var s1 := s.(pc := s.pc + |c|, a := r.v, mem := r.mem);
      Pushes(w, s1);
      var s2 := s1.(pc := s1.pc + 1, stack := s.stack + [r.v]);
      Chain(w, s, n, s1, 1, Running(s2));
      var k := CodeCorrect(env, t.r, w, s2);
      var q := Value(env, t.r, s2.mem);
      Chain(w, s, n + 1, s2, k, After(s2, |cr|, q));
      n := n + 1 + k;
      if q.Val? {
        var s3 := s2.(pc := s2.pc + |cr|, a := q.v, mem := q.mem);
        StoreRuns(w, s3, ty);
        assert Pop(s3).stack == s.stack;
        Chain(w, s, n, s3, 1, After(Pop(s3), 2, Val(q.v, Store(q.mem, r.v, Width(ty), q.v))));
        n := n + 1;
      }
    }
  }

  lemma LogicUnfold(env: Env, t: Tree, base: nat, m: Memory)
    requires t.Logic? && WellTyped(env, t)
    ensures WellTyped(env, t.l) && WellTyped(env, t.r)
    ensures Depth(t.l) <= Depth(t) && Depth(t.r) <= Depth(t)
    ensures var cl := Code(env, t.l, base);
            var cr := Code(env, t.r, base + |cl| + 2);
            Code(env, t, base) == cl + [if t.or then BNZ else BZ, base + |cl| + 2 + |cr|] + cr
    ensures Value(env, t, m) ==
            match Value(env, t.l, m)
            case Trap => Trap
            case Val(v, m1) => if t.or == (v != 0) then Val(v, m1) else Value(env, t.r, m1)
  {
    hide Code;
    LogicParts(env, t);
    CodeOfLogic(env, t, base);
  }

  lemma {:induction false} LogicCorrect(env: Env, t: Tree, w: seq<int>, s: Machine) returns (n: nat)
    requires t.Logic? && Ready(env, t, w, s)
    ensures Computes(env, t, w, s, n)
    decreases t, 1
  {
    hide Step, Steps, Leads, At, Code, AddrCode, Value, Location, Depth, TypeOf, WellTyped, IsLvalue;
    LogicUnfold(env, t, s.pc, s.mem);
    var cl := Code(env, t.l, s.pc);
    var cr := Code(env, t.r, s.pc + |cl| + 2);
    var op, end := if t.or then BNZ else BZ, s.pc + |cl| + 2 + |cr|;
    AtParts(w, s.pc, cl + [op, end], cr);
    AtParts(w, s.pc, cl, [op, end]);
    n := CodeCorrect(env, t.l, w, s);
    var r := Value(env, t.l, s.mem);
    if r.Val? {
      var s1 := s.(pc := s.pc + |cl|, a := r.v, mem := r.mem);
      Operand(w, s1, op, end);
      if t.or == (r.v != 0) {
        Chain(w, s, n, s1, 1, Running(s1.(pc := end)));
        n := n + 1;
      } else {
        var s2 := s1.(pc := s1.pc + 2);
        Chain(w, s, n, s1, 1, Running(s2));
        var k := CodeCorrect(env, t.r, w, s2);
        Chain(w, s, n + 1, s2, k, After(s2, |cr|, Value(env, t.r, s2.mem)));
        n := n + 1 + k;
      }
    }
  }

  lemma CondUnfold(env: Env, t: Tree, base: nat, m: Memory)
    requires t.Cond? && WellTyped(env, t)
    ensures WellTyped(env, t.c) && WellTyped(env, t.l) && WellTyped(env, t.r)
    ensures Depth(t.c) <= Depth(t) && Depth(t.l) <= Depth(t) && Depth(t.r) <= Depth(t)
    ensures var cc := Code(env, t.c, base);
            var cl := Code(env, t.l, base + |cc| + 2);
            var skip := base + |cc| + 2 + |cl| + 2;
            var cr := Code(env, t.r, skip);
            Code(env, t, base) == cc + [BZ, skip] + cl + [JMP, skip + |cr|] + cr
    ensures Value(env, t, m) ==
            match Value(env, t.c, m)
            case Trap => Trap
            case Val(v, m1) => if v != 0 then Value(env, t.l, m1) else Value(env, t.r, m1)
  {
    hide Code, AddrCode, TypeOf;
    CondParts(env, t);
    CodeOfCond(env, t, base);
    hide WellTyped;
  }

  lemma {:induction false} CondCorrect(env: Env, t: Tree, w: seq<int>, s: Machine) returns (n: nat)
    requires t.Cond? && Ready(env, t, w, s)
    ensures Computes(env, t, w, s, n)
    decreases t, 1
  {
    hide Step, Steps, Leads, At, Code, AddrCode, Value, Location, Depth, TypeOf, WellTyped, IsLvalue;
    CondUnfold(env, t, s.pc, s.mem);
    var cc := Code(env, t.c, s.pc);
    var cl := Code(env, t.l, s.pc + |cc| + 2);
    var skip := s.pc + |cc| + 2 + |cl| + 2;
    var cr := Code(env, t.r, skip);
    var end := skip + |cr|;
    AtParts(w, s.pc, cc + [BZ, skip] + cl + [JMP, end], cr);
    AtParts(w, s.pc, cc + [BZ, skip] + cl, [JMP, end]);
    AtParts(w, s.pc, cc + [BZ, skip], cl);
    AtParts(w, s.pc, cc, [BZ, skip]);
    n := CodeCorrect(env, t.c, w, s);
    var r := Value(env, t.c, s.mem);
    if r.Val? {
      var s1 := s.(pc := s.pc + |cc|, a := r.v, mem := r.mem);
      Operand(w, s1, BZ, skip);
      if r.v != 0 {
        var s2 := s1.(pc := s1.pc + 2);
        Chain(w, s, n, s1, 1, Running(s2));
        var k := ThenCorrect(env, t, w, s2, end);
        Chain(w, s, n + 1, s2, k, After(s2, |cl| + 2 + |cr|, Value(env, t.l, s2.mem)));
        n := n + 1 + k;
      } else {
        var s2 := s1.(pc := skip);
        Chain(w, s, n, s1, 1, Running(s2));
        var k := CodeCorrect(env, t.r, w, s2);
        Chain(w, s, n + 1, s2, k, After(s2, |cr|, Value(env, t.r, s2.mem)));
        n := n + 1 + k;
      }
    }
  }

  /** The middle of `c ? l : r` and the jump over the last part. */
  lemma {:induction false} ThenCorrect(env: Env, t: Tree, w: seq<int>, s: Machine, end: nat) returns (n: nat)
    requires t.Cond? && Ready(env, t.l, w, s)
    requires At(w, s.pc + |Code(env, t.l, s.pc)|, [JMP, end])
    requires end >= s.pc
    ensures n <= |Code(env, t.l, s.pc)| + 1
    ensures Leads(w, s, n, After(s, end - s.pc, Value(env, t.l, s.mem)))
    decreases t, 0
  {
    hide Step, Steps, Leads, At, Code, AddrCode, Value, Location, Depth, TypeOf, WellTyped, IsLvalue;
    var cl := Code(env, t.l, s.pc);
    n := CodeCorrect(env, t.l, w, s);
    var q := Value(env, t.l, s.mem);
    if q.Val? {
      var s1 := s.(pc := s.pc + |cl|, a := q.v, mem := q.mem);
      Operand(w, s1, JMP, end);
      Chain(w, s, n, s1, 1, Running(s1.(pc := end)));
      n := n + 1;
    }
  }

  lemma {:induction false} CallCorrect(env: Env, t: Tree, w: seq<int>, s: Machine) returns (n: nat)
    requires t.Call? && Ready(env, t, w, s)
    ensures Computes(env, t, w, s, n)
    decreases t, 1
  {
    hide Step, Steps, Leads, At, Builtin;
    var c, op := Code(env, t.e, s.pc), env[t.f].op;
    assert [PSH, op, ADJ, 1] == [PSH] + ([op] + [ADJ, 1]);
    AtParts(w, s.pc, c, [PSH] + ([op] + [ADJ, 1]));
    AtParts(w, s.pc + |c|, [PSH], [op] + [ADJ, 1]);
    AtParts(w, s.pc + |c| + 1, [op], [ADJ, 1]);
    n := CodeCorrect(env, t.e, w, s);
    var r := Value(env, t.e, s.mem);
    if r.Val? {
      var s1 := s.(pc := s.pc + |c|, a := r.v, mem := r.mem);
      Pushes(w, s1);
      var s2 := s1.(pc := s1.pc + 1, stack := s.stack + [r.v]);
      Chain(w, s, n, s1, 1, Running(s2));
      Converts(w, s2, op);
      var s3 := s2.(pc := s2.pc + 1, a := Builtin(op, r.v));
      Chain(w, s, n + 1, s2, 1, Running(s3));
      Operand(w, s3, ADJ, 1);
      assert s3.stack[..|s3.stack| - 1] == s.stack;
      Chain(w, s, n + 2, s3, 1, Running(s3.(pc := s3.pc + 2, stack := s.stack)));
      n := n + 3;
    }
  }

  lemma Converts(w: seq<int>, s: Machine, op: int)
    requires At(w, s.pc, [op]) && (op == NTHL || op == NTHS) && s.stack != []
    ensures Leads(w, s, 1, Running(s.(pc := s.pc + 1, a := Builtin(op, Top(s)))))
  {
    hide Builtin;
    var x := w[s.pc..s.pc + 1];
    assert w[s.pc] == x[0];
    One(w, s);
  }
}
