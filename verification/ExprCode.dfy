/** The code emitted for a tree, its size and its use of the stack. */
module ExprCode {
  import opened Words
  import opened ExprSyntax

  // ---- code ---------------------------------------------------------------------------------

  /** Scaling of the index in `a` by the pointee size. */
  function ScaleCode(ty: int): (r: seq<int>)
    ensures |r| <= 4
  {
    if ty > PTR then [PSH, IMM, Pointee(ty), MUL] else []
  }

  /** What follows the right operand of a binary operator (expr.c:299-323). */
  function BinCode(op: BinToken, tl: int, tr: int): (r: seq<int>)
    ensures 1 <= |r| <= 5
  {
    if op == TK_ADD then ScaleCode(tl) + [ADD]
    else if op == TK_SUB && IsDistance(tl, tr) then [SUB, PSH, IMM, Pointee(tl), DIV]
    else if op == TK_SUB then ScaleCode(tl) + [SUB]
    else [Opcode(op)]
  }

  function StepOpcode(up: bool): int { if up then ADD else SUB }

  /** `++` and `--` on the address in `a`: the value after the change stays in `a`. */
  function StepCode(up: bool, ty: int): seq<int> {
    [PSH, LI, Width(ty), PSH, IMM, StepOf(ty), StepOpcode(up), SI, Width(ty)]
  }

  /** The words emitted for t when its first word gets index `base`. */
  function Code(env: Env, t: Tree, base: nat): seq<int>
    requires WellTyped(env, t)
    decreases t, 1
  {
    match t
    case Lit(n) => [IMM, n]
    case SizeOf(ty) => [IMM, Width(ty)]
    case Name(x) => [IMM, env[x].addr] + (if env[x].isArray then [] else [LI, Width(env[x].elem)])
    case Paren(e) => Code(env, e, base)
    case Cast(_, e) => Code(env, e, base)
    case Deref(e) => Code(env, e, base) + [LI, Width(TypeOf(env, t))]
    case AddrOf(e) => AddrCode(env, e, base)
    case Un(u, e) =>
      (match u
       case Not => Code(env, e, base) + [PSH, IMM, 0, EQ]
       case Complement => Code(env, e, base) + [PSH, IMM, -1, XOR]
       case Plus => Code(env, e, base)
       case Minus =>
         if e.Lit? then [IMM, Negated(e.n)] else [IMM, -1, PSH] + Code(env, e, base + 3) + [MUL])
    case Pre(up, e) => AddrCode(env, e, base) + StepCode(up, TypeOf(env, e))
    case Post(up, e) =>
      AddrCode(env, e, base) + StepCode(up, TypeOf(env, e))
      + [PSH, IMM, StepOf(TypeOf(env, e)), StepOpcode(!up)]
    case Assign(l, r) =>
      var a := AddrCode(env, l, base) + [PSH];
      a + Code(env, r, base + |a|) + [SI, Width(TypeOf(env, l))]
    case Cond(c, l, r) =>
      var cc := Code(env, c, base);
      var cl := Code(env, l, base + |cc| + 2);
      var skip := base + |cc| + 2 + |cl| + 2;
      var cr := Code(env, r, skip);
      cc + [BZ, skip] + cl + [JMP, skip + |cr|] + cr
    case Logic(or, l, r) =>
      var cl := Code(env, l, base);
      var cr := Code(env, r, base + |cl| + 2);
      cl + [if or then BNZ else BZ, base + |cl| + 2 + |cr|] + cr
    case Bin(op, l, r) =>
      var cl := Code(env, l, base) + [PSH];
      cl + Code(env, r, base + |cl|) + BinCode(op, TypeOf(env, l), TypeOf(env, r))
    case Index(l, r) => AddrCode(env, t, base) + [LI, Width(TypeOf(env, t))]
    case Call(f, e) => Code(env, e, base) + [PSH, env[f].op, ADJ, 1]
  }

  /** The part of an lvalue's code that leaves its address in `a`. */
  function AddrCode(env: Env, t: Tree, base: nat): seq<int>
    requires WellTyped(env, t) && IsLvalue(env, t)
    decreases t, 0
  {
    match t
    case Name(x) => [IMM, env[x].addr]
    case Paren(e) => AddrCode(env, e, base)
    case Deref(e) => Code(env, e, base)
    case Index(l, r) =>
      var cl := Code(env, l, base) + [PSH];
      cl + Code(env, r, base + |cl|) + ScaleCode(TypeOf(env, l)) + [ADD]
  }

  /** An lvalue's code is its address code followed by the load the compiler rewrites. */
  lemma {:induction false} LvalueCode(env: Env, t: Tree, base: nat)
    requires WellTyped(env, t) && IsLvalue(env, t)
    ensures Code(env, t, base) == AddrCode(env, t, base) + [LI, Width(TypeOf(env, t))]
  {
    match t
    case Name(x) =>
    case Paren(e) => LvalueCode(env, e, base);
    case Deref(e) =>
    case Index(l, r) =>
  }

  /** Every expression takes at least two words. */
  lemma {:induction false} CodeLength(env: Env, t: Tree, base: nat)
    requires WellTyped(env, t)
    ensures |Code(env, t, base)| >= 2
    decreases t, 1
  {
    hide StepCode, BinCode, ScaleCode, Width, TypeOf;
    match t
    case Lit(_) =>
    case SizeOf(_) =>
    case Name(_) =>
    case Paren(e) => CodeLength(env, e, base);
    case Cast(_, e) => CodeLength(env, e, base);
    case Deref(e) =>
    case AddrOf(e) => AddrLength(env, e, base);
    case Un(u, e) => CodeLength(env, e, base);
    case Pre(_, e) => AddrLength(env, e, base);
    case Post(_, e) => AddrLength(env, e, base);
    case Assign(l, r) =>
    case Cond(_, l, _) =>
    case Logic(_, _, _) =>
    case Bin(_, _, _) =>
    case Index(_, _) =>
    case Call(_, _) =>
  }

  lemma {:induction false} AddrLength(env: Env, t: Tree, base: nat)
    requires WellTyped(env, t) && IsLvalue(env, t)
    ensures |AddrCode(env, t, base)| >= 2
    decreases t, 0
  {
    hide ScaleCode, TypeOf;
    match t
    case Name(_) =>
    case Paren(e) => AddrLength(env, e, base);
    case Deref(e) => CodeLength(env, e, base);
    case Index(_, _) =>
  }

  // ---- the code of one node -----------------------------------------------------------------------

  lemma CondParts(env: Env, t: Tree)
    requires t.Cond? && WellTyped(env, t)
    ensures WellTyped(env, t.c) && WellTyped(env, t.l) && WellTyped(env, t.r) && TypeOf(env, t) == TypeOf(env, t.r)
  {
  }

  lemma CodeOfCond(env: Env, t: Tree, base: nat)
    requires t.Cond? && WellTyped(env, t) && WellTyped(env, t.c) && WellTyped(env, t.l) && WellTyped(env, t.r)
    ensures var cc := Code(env, t.c, base);
            var cl := Code(env, t.l, base + |cc| + 2);
            var skip := base + |cc| + 2 + |cl| + 2;
            var cr := Code(env, t.r, skip);
            Code(env, t, base) == cc + [BZ, skip] + cl + [JMP, skip + |cr|] + cr
  {
    hide WellTyped, TypeOf, AddrCode;
  }

  lemma Assoc(a: seq<int>, b: seq<int>, c: seq<int>)
    ensures a + b + c == a + (b + c)
  {
  }

  lemma LogicParts(env: Env, t: Tree)
    requires t.Logic? && WellTyped(env, t)
    ensures WellTyped(env, t.l) && WellTyped(env, t.r) && TypeOf(env, t) == INT
  {
  }

  lemma CodeOfLogic(env: Env, t: Tree, base: nat)
    requires t.Logic? && WellTyped(env, t) && WellTyped(env, t.l) && WellTyped(env, t.r)
    ensures var cl := Code(env, t.l, base);
            var cr := Code(env, t.r, base + |cl| + 2);
            Code(env, t, base) == cl + [if t.or then BNZ else BZ, base + |cl| + 2 + |cr|] + cr
  {
    hide WellTyped, TypeOf, AddrCode;
  }

  lemma BinParts(env: Env, t: Tree)
    requires t.Bin? && WellTyped(env, t)
    ensures WellTyped(env, t.l) && WellTyped(env, t.r)
  {
  }

  lemma CodeOfBin(env: Env, t: Tree, base: nat)
    requires t.Bin? && WellTyped(env, t) && WellTyped(env, t.l) && WellTyped(env, t.r)
    ensures var cl := Code(env, t.l, base) + [PSH];
            Code(env, t, base) == cl + Code(env, t.r, base + |cl|) + BinCode(t.op, TypeOf(env, t.l), TypeOf(env, t.r))
  {
    hide WellTyped, TypeOf, AddrCode, BinCode;
  }

  lemma IndexParts(env: Env, t: Tree)
    requires t.Index? && WellTyped(env, t)
    ensures WellTyped(env, t.l) && WellTyped(env, t.r) && IsLvalue(env, t)
    ensures TypeOf(env, t.l) >= PTR && TypeOf(env, t) == TypeOf(env, t.l) - PTR
  {
  }

  lemma AddrOfIndex(env: Env, t: Tree, base: nat)
    requires t.Index? && WellTyped(env, t) && WellTyped(env, t.l) && WellTyped(env, t.r) && IsLvalue(env, t)
    ensures var cl := Code(env, t.l, base) + [PSH];
            AddrCode(env, t, base) == cl + Code(env, t.r, base + |cl|) + ScaleCode(TypeOf(env, t.l)) + [ADD]
    ensures Code(env, t, base) == AddrCode(env, t, base) + [LI, Width(TypeOf(env, t))]
  {
    hide WellTyped, TypeOf, ScaleCode, Width, IsLvalue;
  }

  lemma CodeOfIndex(env: Env, t: Tree, base: nat)
    requires t.Index? && WellTyped(env, t) && WellTyped(env, t.l) && WellTyped(env, t.r) && IsLvalue(env, t)
    ensures var cl := Code(env, t.l, base) + [PSH];
            Code(env, t, base) ==
            cl + Code(env, t.r, base + |cl|) + ScaleCode(TypeOf(env, t.l)) + [ADD] + [LI, Width(TypeOf(env, t))]
  {
    hide WellTyped, TypeOf, ScaleCode, Width, IsLvalue;
  }

  /** Stack slots used above the entry level. */
  function Depth(t: Tree): nat {
    match t
    case Lit(_) => 0
    case SizeOf(_) => 0
    case Name(_) => 0
    case Paren(e) => Depth(e)
    case Cast(_, e) => Depth(e)
    case Deref(e) => Depth(e)
    case AddrOf(e) => Depth(e)
    case Un(k, e) => if k.Plus? then Depth(e) else 1 + Depth(e)
    case Pre(_, e) => Max(Depth(e), 2)
    case Post(_, e) => Max(Depth(e), 2)
    case Assign(l, r) => Max(Depth(l), 1 + Depth(r))
    case Cond(c, l, r) => Max(Depth(c), Max(Depth(l), Depth(r)))
    case Logic(_, l, r) => Max(Depth(l), Depth(r))
    case Bin(_, l, r) => Max(Depth(l), 1 + Max(Depth(r), 1))
    case Index(l, r) => Max(Depth(l), 1 + Max(Depth(r), 1))
    case Call(_, e) => Max(Depth(e), 1)
  }

  function Max(x: nat, y: nat): nat { if x < y then y else x }

  // ---- bounds -------------------------------------------------------------------------------

  /** No token makes the compiler emit more words than this. */
  const WORDS_PER_TOKEN := 12

  predicate IsInfix(t: Tree) {
    t.Assign? || t.Cond? || t.Logic? || t.Bin? || t.Index?
  }

  /** The code buffer grows by at most twelve words per token. */
  lemma {:induction false} CodeBound(env: Env, t: Tree, base: nat)
    requires WellTyped(env, t)
    ensures |Code(env, t, base)| <= WORDS_PER_TOKEN * |Print(t)|
    decreases t, 2
  {
    if IsInfix(t) {
      InfixCodeBound(env, t, base);
    } else {
      match t
      case Lit(_) =>
      case SizeOf(_) =>
      case Name(_) =>
      case Paren(e) => CodeBound(env, e, base);
      case Cast(_, e) => CodeBound(env, e, base);
      case Deref(e) => CodeBound(env, e, base);
      case AddrOf(e) => CodeBound(env, e, base); LvalueCode(env, e, base);
      case Un(u, e) => CodeBound(env, e, if u.Minus? then base + 3 else base);
      case Pre(_, e) => CodeBound(env, e, base); LvalueCode(env, e, base);
      case Post(_, e) => CodeBound(env, e, base); LvalueCode(env, e, base);
      case Call(_, e) => CodeBound(env, e, base);
    }
  }

  lemma {:induction false} InfixCodeBound(env: Env, t: Tree, base: nat)
    requires WellTyped(env, t) && IsInfix(t)
    ensures |Code(env, t, base)| <= WORDS_PER_TOKEN * |Print(t)|
    decreases t, 1
  {
    hide Code, WellTyped, Print;
    match t
    case Assign(_, _) => AssignCodeBound(env, t, base);
    case Cond(_, _, _) => CondCodeBound(env, t, base);
    case Logic(_, _, _) => LogicCodeBound(env, t, base);
    case Bin(_, _, _) => OperandCodeBound(env, t, base);
    case Index(_, _) => OperandCodeBound(env, t, base);
  }

  lemma {:induction false} AssignCodeBound(env: Env, t: Tree, base: nat)
    requires WellTyped(env, t) && t.Assign?
    ensures |Code(env, t, base)| <= WORDS_PER_TOKEN * |Print(t)|
    decreases t, 0
  {
    hide Width, TypeOf;
    CodeBound(env, t.l, base);
    LvalueCode(env, t.l, base);
    CodeBound(env, t.r, base + |AddrCode(env, t.l, base)| + 1);
  }

  lemma {:induction false} LogicCodeBound(env: Env, t: Tree, base: nat)
    requires WellTyped(env, t) && t.Logic?
    ensures |Code(env, t, base)| <= WORDS_PER_TOKEN * |Print(t)|
    decreases t, 0
  {
    hide WellTyped, Code;
    LogicParts(env, t);
    CodeOfLogic(env, t, base);
    CodeBound(env, t.l, base);
    CodeBound(env, t.r, base + |Code(env, t.l, base)| + 2);
  }

  lemma {:induction false} OperandCodeBound(env: Env, t: Tree, base: nat)
    requires WellTyped(env, t) && (t.Bin? || t.Index?)
    ensures |Code(env, t, base)| <= WORDS_PER_TOKEN * |Print(t)|
    decreases t, 0
  {
    hide Width, Pointee, TypeOf, WellTyped, Code;
    if t.Bin? {
      BinParts(env, t);
      CodeOfBin(env, t, base);
    } else {
      IndexParts(env, t);
      CodeOfIndex(env, t, base);
    }
    CodeBound(env, t.l, base);
    CodeBound(env, t.r, base + |Code(env, t.l, base)| + 1);
  }

  lemma {:induction false} CondCodeBound(env: Env, t: Tree, base: nat)
    requires WellTyped(env, t) && t.Cond?
    ensures |Code(env, t, base)| <= WORDS_PER_TOKEN * |Print(t)|
    decreases t, 0
  {
    hide WellTyped, Code;
    CondParts(env, t);
    CodeOfCond(env, t, base);
    var cc := Code(env, t.c, base);
    var cl := Code(env, t.l, base + |cc| + 2);
    CodeBound(env, t.c, base);
    CodeBound(env, t.l, base + |cc| + 2);
    CodeBound(env, t.r, base + |cc| + 2 + |cl| + 2);
  }

  /** Stack use is bounded by the number of tokens. */
  lemma {:induction false} DepthBound(env: Env, t: Tree)
    requires WellTyped(env, t)
    ensures 1 <= |Print(t)| && Depth(t) <= |Print(t)|
    decreases t, 1
  {
    if IsInfix(t) {
      InfixDepthBound(env, t);
    } else {
      match t
      case Lit(_) =>
      case SizeOf(_) =>
      case Name(_) =>
      case Paren(e) => DepthBound(env, e);
      case Cast(_, e) => DepthBound(env, e);
      case Deref(e) => DepthBound(env, e);
      case AddrOf(e) => DepthBound(env, e);
      case Un(_, e) => DepthBound(env, e);
      case Pre(_, e) => DepthBound(env, e);
      case Post(_, e) => DepthBound(env, e);
      case Call(_, e) => DepthBound(env, e);
    }
  }

  lemma {:induction false} InfixDepthBound(env: Env, t: Tree)
    requires WellTyped(env, t) && IsInfix(t)
    ensures 1 <= |Print(t)| && Depth(t) <= |Print(t)|
    decreases t, 0
  {
    DepthBound(env, t.l);
    DepthBound(env, t.r);
    if t.Cond? {
      DepthBound(env, t.c);
    }
  }
}
