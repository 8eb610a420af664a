/**
 * The raw lvalue test of expr.c: what it lets through that is not an lvalue, and what becomes of the
 * code when one of these is assigned to, stepped or has its address taken.
 */
module ExprRaw {
  import opened Common
  import opened Words
  import opened ExprSyntax
  import opened ExprCode
  import opened ExprMachine
  import opened ExprProgram
  import opened ExprParse
  import opened ExprPrecedence

  // ---- the last two words ---------------------------------------------------------------------------

  /** The last word of the code of t. */
  function Final(env: Env, t: Tree): int
    requires WellTyped(env, t)
    decreases t, 1
  {
    match t
    case Lit(n) => n
    case SizeOf(ty) => Width(ty)
    case Name(x) => if env[x].isArray then env[x].addr else Width(env[x].elem)
    case Paren(e) => Final(env, e)
    case Cast(_, e) => Final(env, e)
    case Deref(_) => Width(TypeOf(env, t))
    case AddrOf(e) => AddrFinal(env, e)
    case Un(u, e) =>
      (match u
       case Not => EQ
       case Complement => XOR
       case Plus => Final(env, e)
       case Minus => if e.Lit? then Negated(e.n) else MUL)
    case Pre(_, e) => Width(TypeOf(env, e))
    case Post(up, _) => StepOpcode(!up)
    case Assign(l, _) => Width(TypeOf(env, l))
    case Cond(_, _, r) => Final(env, r)
    case Logic(_, _, r) => Final(env, r)
    case Bin(op, l, r) => if op == TK_SUB && IsDistance(TypeOf(env, l), TypeOf(env, r)) then DIV else Opcode(op)
    case Index(_, _) => Width(TypeOf(env, t))
    case Call(_, _) => 1
  }

  /** The last word of the address code of an lvalue. */
  function AddrFinal(env: Env, t: Tree): int
    requires WellTyped(env, t) && IsLvalue(env, t)
    decreases t, 0
  {
    match t
    case Name(x) => env[x].addr
    case Paren(e) => AddrFinal(env, e)
    case Deref(e) => Final(env, e)
    case Index(_, _) => ADD
  }

  /** The pointer type asks for a scaled offset. */
  predicate Scales(env: Env, l: Tree) { TypeOf(env, l) > PTR }

  /**
   * t is not an lvalue but passes the test: its last load is that of an operand it hands on, or the word
   * before its last one is a step of 8, a pointee size of 8, or an operand's last word that happens to be 8.
   */
  predicate Raw(env: Env, t: Tree)
    requires WellTyped(env, t)
    decreases t, 1
  {
    match t
    case Paren(e) => Raw(env, e)
    case Cast(_, e) => IsLvalue(env, e) || Raw(env, e)
    case AddrOf(e) => RawAddr(env, e)
    case Un(u, e) =>
      (match u
       case Plus => IsLvalue(env, e) || Raw(env, e)
       case Minus => !e.Lit? && Final(env, e) == LI
       case _ => false)
    case Post(_, e) => StepOf(TypeOf(env, e)) == LI
    case Cond(_, _, r) => IsLvalue(env, r) || Raw(env, r)
    case Logic(_, _, r) => IsLvalue(env, r) || Raw(env, r)
    case Bin(op, l, r) =>
      if op == TK_SUB && IsDistance(TypeOf(env, l), TypeOf(env, r)) then Pointee(TypeOf(env, l)) == LI
      else !((op == TK_ADD || op == TK_SUB) && Scales(env, l)) && Final(env, r) == LI
    case _ => false
  }

  /** The address code of an lvalue passes the test by itself, without its load. */
  predicate RawAddr(env: Env, t: Tree)
    requires WellTyped(env, t) && IsLvalue(env, t)
    decreases t, 0
  {
    match t
    case Name(_) => false
    case Paren(e) => RawAddr(env, e)
    case Deref(e) => IsLvalue(env, e) || Raw(env, e)
    case Index(l, r) => !Scales(env, l) && Final(env, r) == LI
  }

  /** Code c passes the test or not, and ends in this word. */
  predicate Ends(c: seq<int>, load: bool, last: int) {
    |c| >= 2 && c[|c| - 1] == last && (c[|c| - 2] == LI <==> load)
  }

  lemma EndsPair(c: seq<int>, x: int, y: int)
    ensures Ends(c + [x, y], x == LI, y)
  {
  }

  lemma EndsOne(c: seq<int>, load: bool, last: int, y: int)
    requires Ends(c, load, last)
    ensures Ends(c + [y], last == LI, y)
  {
  }

  lemma EndsBehind(c: seq<int>, d: seq<int>, load: bool, last: int)
    requires Ends(d, load, last)
    ensures Ends(c + d, load, last)
  {
  }

  /** The last two words of an expression's code. */
  lemma {:induction false} LastWords(env: Env, t: Tree, base: nat)
    requires WellTyped(env, t)
    ensures Ends(Code(env, t, base), IsLvalue(env, t) || Raw(env, t), Final(env, t))
    decreases t, 3
  {
    hide Ends, Width, StepCode, BinCode, ScaleCode, StepOf, Pointee, Negated, TypeOf;
    match t
    case Lit(n) => EndsPair([], IMM, n); assert [] + [IMM, n] == [IMM, n];
    case SizeOf(ty) => EndsPair([], IMM, Width(ty)); assert [] + [IMM, Width(ty)] == [IMM, Width(ty)];
    case Name(x) => NameEnds(env, t, base);
    case Paren(e) => LastWords(env, e, base);
    case Cast(_, e) => LastWords(env, e, base);
    case Deref(e) => EndsPair(Code(env, e, base), LI, Width(TypeOf(env, t)));
    case AddrOf(e) => AddrLastWords(env, e, base);
    case Un(_, _) => UnaryEnds(env, t, base);
    case Pre(_, _) => StepEnds(env, t, base);
    case Post(_, _) => StepEnds(env, t, base);
    case Assign(l, r) =>
      var a := AddrCode(env, l, base) + [PSH];
      EndsPair(a + Code(env, r, base + |a|), SI, Width(TypeOf(env, l)));
    case Cond(_, _, _) => CondEnds(env, t, base);
    case Logic(_, _, _) => LogicEnds(env, t, base);
    case Bin(_, _, _) => BinEnds(env, t, base);
    case Index(_, _) => EndsPair(AddrCode(env, t, base), LI, Width(TypeOf(env, t)));
    case Call(f, e) => CallEnds(env, t, base);
  }

  lemma NameEnds(env: Env, t: Tree, base: nat)
    requires t.Name? && WellTyped(env, t)
    ensures Ends(Code(env, t, base), IsLvalue(env, t), Final(env, t))
  {
    hide Width;
  }

  lemma CallEnds(env: Env, t: Tree, base: nat)
    requires t.Call? && WellTyped(env, t)
    ensures Ends(Code(env, t, base), false, 1)
  {
    hide AddrCode;
    var c := Code(env, t.e, base);
    assert c + [PSH, env[t.f].op, ADJ, 1] == (c + [PSH, env[t.f].op]) + [ADJ, 1];
    EndsPair(c + [PSH, env[t.f].op], ADJ, 1);
  }

  lemma {:induction false} UnaryEnds(env: Env, t: Tree, base: nat)
    requires t.Un? && WellTyped(env, t)
    ensures Ends(Code(env, t, base), IsLvalue(env, t) || Raw(env, t), Final(env, t))
    decreases t, 2
  {
    hide Ends, Negated, AddrCode;
    match t.u
    case Not =>
      var c := Code(env, t.e, base);
      assert c + [PSH, IMM, 0, EQ] == (c + [PSH, IMM]) + [0, EQ];
      EndsPair(c + [PSH, IMM], 0, EQ);
    case Complement =>
      var c := Code(env, t.e, base);
      assert c + [PSH, IMM, -1, XOR] == (c + [PSH, IMM]) + [-1, XOR];
      EndsPair(c + [PSH, IMM], -1, XOR);
    case Plus => LastWords(env, t.e, base);
    case Minus =>
      if t.e.Lit? {
        EndsPair([], IMM, Negated(t.e.n));
        assert [] + [IMM, Negated(t.e.n)] == [IMM, Negated(t.e.n)];
      } else {
        LastWords(env, t.e, base + 3);
        var c := Code(env, t.e, base + 3);
        EndsBehind([IMM, -1, PSH], c, IsLvalue(env, t.e) || Raw(env, t.e), Final(env, t.e));
        EndsOne([IMM, -1, PSH] + c, IsLvalue(env, t.e) || Raw(env, t.e), Final(env, t.e), MUL);
      }
  }

  lemma StepEnds(env: Env, t: Tree, base: nat)
    requires (t.Pre? || t.Post?) && WellTyped(env, t)
    ensures Ends(Code(env, t, base), Raw(env, t), Final(env, t))
  {
    hide Ends, Width, StepOf, TypeOf, AddrCode;
    var a, ty := AddrCode(env, t.e, base), TypeOf(env, t.e);
    var s := StepCode(t.up, ty);
    if t.Pre? {
      assert a + s == (a + [PSH, LI, Width(ty), PSH, IMM, StepOf(ty), StepOpcode(t.up)]) + [SI, Width(ty)];
      EndsPair(a + [PSH, LI, Width(ty), PSH, IMM, StepOf(ty), StepOpcode(t.up)], SI, Width(ty));
    } else {
      assert a + s + [PSH, IMM, StepOf(ty), StepOpcode(!t.up)] == (a + s + [PSH, IMM]) + [StepOf(ty), StepOpcode(!t.up)];
      EndsPair(a + s + [PSH, IMM], StepOf(ty), StepOpcode(!t.up));
    }
  }

  lemma {:induction false} CondEnds(env: Env, t: Tree, base: nat)
    requires t.Cond? && WellTyped(env, t)
    ensures Ends(Code(env, t, base), IsLvalue(env, t) || Raw(env, t), Final(env, t))
    decreases t, 2
  {
    hide Ends, Code, TypeOf;
    CondParts(env, t);
    CodeOfCond(env, t, base);
    hide WellTyped;
    var cc := Code(env, t.c, base);
    var cl := Code(env, t.l, base + |cc| + 2);
    var skip := base + |cc| + 2 + |cl| + 2;
    var cr := Code(env, t.r, skip);
    LastWords(env, t.r, skip);
    EndsBehind(cc + [BZ, skip] + cl + [JMP, skip + |cr|], cr, IsLvalue(env, t.r) || Raw(env, t.r), Final(env, t.r));
  }

  lemma {:induction false} LogicEnds(env: Env, t: Tree, base: nat)
    requires t.Logic? && WellTyped(env, t)
    ensures Ends(Code(env, t, base), IsLvalue(env, t) || Raw(env, t), Final(env, t))
    decreases t, 2
  {
    hide Ends, Code, TypeOf;
    LogicParts(env, t);
    CodeOfLogic(env, t, base);
    hide WellTyped;
    var cl := Code(env, t.l, base);
    var cr := Code(env, t.r, base + |cl| + 2);
    LastWords(env, t.r, base + |cl| + 2);
    EndsBehind(cl + [if t.or then BNZ else BZ, base + |cl| + 2 + |cr|], cr, IsLvalue(env, t.r) || Raw(env, t.r), Final(env, t.r));
  }

  /** What follows the right operand of a binary operator or a subscript. */
  lemma TailEnds(c: seq<int>, load: bool, last: int, ty: int, op: int)
    requires Ends(c, load, last) && op > SI
    ensures Ends(c + (ScaleCode(ty) + [op]), if ty > PTR then false else last == LI, op)
  {
    hide Ends, Pointee;
    if ty > PTR {
      assert c + (ScaleCode(ty) + [op]) == (c + [PSH, IMM, Pointee(ty)]) + [MUL, op];
      EndsPair(c + [PSH, IMM, Pointee(ty)], MUL, op);
    } else {
      assert ScaleCode(ty) + [op] == [op];
      EndsOne(c, load, last, op);
    }
  }

  lemma {:induction false} BinEnds(env: Env, t: Tree, base: nat)
    requires t.Bin? && WellTyped(env, t)
    ensures Ends(Code(env, t, base), IsLvalue(env, t) || Raw(env, t), Final(env, t))
    decreases t, 2
  {
    hide Ends, Code, TypeOf, Pointee, ScaleCode;
    BinParts(env, t);
    CodeOfBin(env, t, base);
    hide WellTyped;
    var cl, tl, tr := Code(env, t.l, base) + [PSH], TypeOf(env, t.l), TypeOf(env, t.r);
    var cr, load, last := Code(env, t.r, base + |cl|), IsLvalue(env, t.r) || Raw(env, t.r), Final(env, t.r);
    LastWords(env, t.r, base + |cl|);
    EndsBehind(cl, cr, load, last);
    if t.op == TK_ADD {
      TailEnds(cl + cr, load, last, tl, ADD);
    } else if t.op == TK_SUB && IsDistance(tl, tr) {
      assert cl + cr + [SUB, PSH, IMM, Pointee(tl), DIV] == (cl + cr + [SUB, PSH, IMM]) + [Pointee(tl), DIV];
      EndsPair(cl + cr + [SUB, PSH, IMM], Pointee(tl), DIV);
    } else if t.op == TK_SUB {
      TailEnds(cl + cr, load, last, tl, SUB);
    } else {
      EndsOne(cl + cr, load, last, Opcode(t.op));
    }
  }

  lemma {:induction false} AddrLastWords(env: Env, t: Tree, base: nat)
    requires WellTyped(env, t) && IsLvalue(env, t)
    ensures Ends(AddrCode(env, t, base), RawAddr(env, t), AddrFinal(env, t))
    decreases t, 1
  {
    hide Ends, ScaleCode, TypeOf;
    match t
    case Name(x) => EndsPair([], IMM, env[x].addr); assert [] + [IMM, env[x].addr] == [IMM, env[x].addr];
    case Paren(e) => AddrLastWords(env, e, base);
    case Deref(e) => LastWords(env, e, base);
    case Index(_, _) => IndexEnds(env, t, base);
  }

  lemma {:induction false} IndexEnds(env: Env, t: Tree, base: nat)
    requires t.Index? && WellTyped(env, t)
    ensures Ends(AddrCode(env, t, base), RawAddr(env, t), ADD)
    decreases t, 0
  {
    hide Ends, Code, TypeOf, ScaleCode, AddrCode;
    IndexParts(env, t);
    AddrOfIndex(env, t, base);
    hide WellTyped;
    var cl := Code(env, t.l, base) + [PSH];
    var cr, load, last := Code(env, t.r, base + |cl|), IsLvalue(env, t.r) || Raw(env, t.r), Final(env, t.r);
    LastWords(env, t.r, base + |cl|);
    EndsBehind(cl, cr, load, last);
    TailEnds(cl + cr, load, last, TypeOf(env, t.l), ADD);
    assert cl + cr + ScaleCode(TypeOf(env, t.l)) + [ADD] == cl + cr + (ScaleCode(TypeOf(env, t.l)) + [ADD]);
  }

  /**
   * The test before an assignment, a step or an address-of looks at one word. It passes exactly for
   * lvalues and for the trees of `Raw`.
   */
  lemma RawTest(env: Env, t: Tree, e: seq<int>)
    requires WellTyped(env, t)
    ensures EndsInLoad(e + Code(env, t, |e|)) <==> IsLvalue(env, t) || Raw(env, t)
  {
    hide Code, Raw, Final;
    LastWords(env, t, |e|);
    EndsBehind(e, Code(env, t, |e|), IsLvalue(env, t) || Raw(env, t), Final(env, t));
  }

  /** `x * y = ...` is accepted for a long y (its load width is 8, the number of LI) but not for a smaller y. */
  lemma ProductAsLvalue(env: Env, x: Tree, y: string, e: seq<int>)
    requires WellTyped(env, x) && y in env && env[y].Global? && !env[y].isArray && CHAR <= env[y].elem <= LONG
    ensures WellTyped(env, Bin(TK_MUL, x, Name(y)))
    ensures EndsInLoad(e + Code(env, Bin(TK_MUL, x, Name(y)), |e|)) <==> env[y].elem == LONG
  {
    hide Code, EndsInLoad, TypeOf;
    var t := Bin(TK_MUL, x, Name(y));
    RawTest(env, t, e);
    assert Final(env, Name(y)) == Width(env[y].elem);
  }

  /** What Raw lets through is never an lvalue. */
  lemma {:induction false} RawIsNoLvalue(env: Env, t: Tree)
    requires WellTyped(env, t) && Raw(env, t)
    ensures !IsLvalue(env, t)
  {
    if t.Paren? {
      RawIsNoLvalue(env, t.e);
    }
  }

  // ---- cutting off the last load ----------------------------------------------------------------------

  lemma {:induction false} LastInstruction(w: seq<int>, lo: nat, hi: nat) returns (k: nat)
    requires Boundary(w, lo, hi) && lo < hi <= |w|
    ensures lo <= k < hi && Boundary(w, lo, k) && k + InstructionLength(w[k]) == hi
    decreases hi - lo
  {
    var next := lo + InstructionLength(w[lo]);
    BoundaryOrder(w, next, hi);
    if next == hi {
      k := lo;
    } else {
      k := LastInstruction(w, next, hi);
    }
  }

  /** Before the end: the word 8 is a load, or the operand of the instruction before a last short one. */
  lemma LoadOrOperand(w: seq<int>, lo: nat, hi: nat)
    requires Boundary(w, lo, hi) && lo + 2 <= hi <= |w| && w[hi - 2] == LI
    ensures Boundary(w, lo, hi - 2) ||
            (lo + 3 <= hi && Boundary(w, lo, hi - 3) && InstructionLength(w[hi - 3]) == 2 && Boundary(w, lo, hi - 1))
  {
    var k := LastInstruction(w, lo, hi);
    if k == hi - 1 {
      var j := LastInstruction(w, lo, hi - 1);
      assert j != hi - 2;
    }
  }

  /** The words below x are the same. */
  predicate SameBelow(w: seq<int>, v: seq<int>, x: nat) {
    x <= |w| && x <= |v| && forall k :: 0 <= k < x ==> w[k] == v[k]
  }

  lemma {:induction false} SameBoundary(w: seq<int>, v: seq<int>, x: nat, lo: nat, k: nat)
    requires SameBelow(w, v, x) && k <= x
    ensures Boundary(w, lo, k) == Boundary(v, lo, k)
    decreases k - lo
  {
    if lo < k {
      SameBoundary(w, v, x, lo + InstructionLength(w[lo]), k);
    }
  }

  /** v is w up to the word before the last, which has become a short instruction. */
  ghost predicate Cut(w: seq<int>, v: seq<int>, lo: nat, hi: nat) {
    && Shaped(w, lo, hi) && lo + 2 <= hi && w[hi - 2] == LI
    && SameBelow(w, v, hi - 2) && hi - 1 <= |v| && v[hi - 2] > SI
  }

  /** The cut code still decodes, with the instructions before the cut where they were. */
  lemma CutBoundary(w: seq<int>, v: seq<int>, lo: nat, hi: nat, k: nat)
    requires Cut(w, v, lo, hi) && lo <= k
    ensures Boundary(v, lo, hi - 1)
    ensures k < hi - 1 && Boundary(v, lo, k) && k + 1 < |v| && IsBranch(v[k]) ==> Boundary(w, lo, k) && k + 4 <= hi
    ensures k < hi && Boundary(w, lo, k) && k + 1 < |w| && IsBranch(w[k]) ==> Boundary(v, lo, k) && k + 4 <= hi && v[k] == w[k] && v[k + 1] == w[k + 1]
    ensures k <= hi - 1 && Boundary(w, lo, k) ==> Boundary(v, lo, k)
  {
    LoadOrOperand(w, lo, hi);
    CutEnd(w, v, lo, hi);
    if k <= hi - 2 {
      SameBoundary(w, v, hi - 2, lo, k);
    }
    if k < hi && Boundary(w, lo, k) && k + 1 < |w| && IsBranch(w[k]) {
      assert GoodBranch(w, lo, hi, k);
    }
    if k < hi - 1 && Boundary(v, lo, k) && k + 1 < |v| && IsBranch(v[k]) {
      assert k < hi - 2;
      assert GoodBranch(w, lo, hi, k);
    }
  }

  lemma CutEnd(w: seq<int>, v: seq<int>, lo: nat, hi: nat)
    requires Cut(w, v, lo, hi)
    ensures Boundary(v, lo, hi - 1)
  {
    LoadOrOperand(w, lo, hi);
    if Boundary(w, lo, hi - 2) {
      SameBoundary(w, v, hi - 2, lo, hi - 2);
      assert Boundary(v, hi - 2, hi - 1);
      BoundaryTrans(v, lo, hi - 2, hi - 1);
    } else {
      SameBoundary(w, v, hi - 2, lo, hi - 3);
      assert Boundary(v, hi - 3, hi - 1);
      BoundaryTrans(v, lo, hi - 3, hi - 1);
    }
  }

  /** If no branch goes to the end, the cut code is shaped. */
  lemma CutShaped(w: seq<int>, v: seq<int>, lo: nat, hi: nat)
    requires Cut(w, v, lo, hi) && Sealed(w, lo, hi)
    ensures Shaped(v, lo, hi - 1)
  {
    CutEnd(w, v, lo, hi);
    forall k | lo <= k < hi - 1 && Boundary(v, lo, k)
      ensures GoodBranch(v, lo, hi - 1, k)
    {
      CutBoundary(w, v, lo, hi, k);
      if k + 1 < |v| && IsBranch(v[k]) {
        assert GoodBranch(w, lo, hi, k);
        CutBoundary(w, v, lo, hi, w[k + 1]);
      }
    }
  }

  /** If one does, it now goes into the middle of the instruction behind the cut, or behind the code. */
  lemma CutUnshaped(w: seq<int>, v: seq<int>, lo: nat, hi: nat, end: nat)
    requires Cut(w, v, lo, hi) && !Sealed(w, lo, hi) && hi - 1 <= end
    requires hi - 1 < |v| ==> InstructionLength(v[hi - 1]) == 2
    ensures !Shaped(v, lo, end)
  {
    var k :| lo <= k < hi && Boundary(w, lo, k) && k + 1 < |w| && IsBranch(w[k]) && w[k + 1] == hi;
    CutBoundary(w, v, lo, hi, k);
    if Shaped(v, lo, end) {
      assert GoodBranch(v, lo, end, k);
      BoundaryChain(v, lo, hi - 1, hi);
      BoundaryNext(v, hi - 1, hi);
      assert false;
    }
  }

  /** Shape of code whose last load has been cut off, with shaped code behind it. */
  lemma CutShape(w: seq<int>, v: seq<int>, lo: nat, hi: nat, end: nat)
    requires Cut(w, v, lo, hi) && (hi - 1 < |v| ==> InstructionLength(v[hi - 1]) == 2) && hi - 1 <= end
    requires Shaped(v, hi - 1, end)
    ensures Shaped(v, lo, end) <==> Sealed(w, lo, hi)
  {
    hide Shaped, Sealed;
    if Sealed(w, lo, hi) {
      CutShaped(w, v, lo, hi);
      ShapedJoin(v, lo, hi - 1, end);
    } else {
      CutUnshaped(w, v, lo, hi, end);
    }
  }

  // ---- assignments, steps and address-of ------------------------------------------------------------------

  /** The forms whose operand must pass the test. */
  predicate Rewrites(s: Tree) { s.Assign? || s.Pre? || s.Post? || s.AddrOf? }

  function Target(s: Tree): Tree
    requires Rewrites(s)
  {
    if s.Assign? then s.l else s.e
  }

  /** Operands the compiler accepts, grouped as the tokens will be read. */
  predicate Readable(env: Env, s: Tree)
    requires Rewrites(s)
  {
    && WellTyped(env, Target(s)) && Grouped(Target(s))
    && (s.Assign? ==> WellTyped(env, s.r) && Grouped(s.r) && Precedence(s.l) < 14)
    && (s.Pre? || s.AddrOf? ==> Precedence(s.e) <= 2)
    && (s.Post? ==> Precedence(s.e) <= 1)
  }

  predicate Passes(env: Env, t: Tree)
    requires WellTyped(env, t)
  {
    IsLvalue(env, t) || Raw(env, t)
  }

  /** What is emitted for s: the operand's code without its last two words, then the operation. */
  function RawWords(env: Env, s: Tree, base: nat): seq<int>
    requires Rewrites(s) && WellTyped(env, Target(s)) && (s.Assign? ==> WellTyped(env, s.r))
  {
    var t := Target(s);
    var c, ty := Code(env, t, base), TypeOf(env, t);
    CodeLength(env, t, base);
    c[..|c| - 2] + RawTail(env, s, base + |c| - 1, c[|c| - 1], ty)
  }

  /** The words behind the cut; `base` is where the second of them goes. */
  function RawTail(env: Env, s: Tree, base: nat, last: int, ty: int): seq<int>
    requires Rewrites(s) && (s.Assign? ==> WellTyped(env, s.r))
  {
    match s
    case Assign(_, r) => [PSH] + Code(env, r, base) + [SI, Width(ty)]
    case Pre(up, _) => [PSH] + Again(last, ty, up)
    case Post(up, _) => [PSH] + Again(last, ty, up) + Undo(ty, up)
    case AddrOf(_) => []
  }

  /** The load again, the step and the store. */
  function Again(last: int, ty: int, up: bool): (r: seq<int>)
    ensures |r| == 8 && r[0] == LI
  {
    [LI, last, PSH, IMM, StepOf(ty), StepOpcode(up), SI, Width(ty)]
  }

  /** Back to the value before the step. */
  function Undo(ty: int, up: bool): (r: seq<int>)
    ensures |r| == 4
  {
    [PSH, IMM, StepOf(ty), StepOpcode(!up)]
  }

  lemma StepIsAgain(last: int, ty: int, up: bool)
    ensures StepCode(up, ty) == [PSH] + Again(Width(ty), ty, up)
    ensures [PSH, LI, last] + [PSH, IMM, StepOf(ty), StepOpcode(up), SI, Width(ty)] == [PSH] + Again(last, ty, up)
  {
    hide Width, StepOf;
  }

  lemma StraightAgain(last: int, ty: int, up: bool)
    ensures Straight(Again(last, ty, up)) && Straight(Undo(ty, up))
  {
    hide Width, StepOf, Straight;
    var a, b, d := [LI, last], [PSH, IMM, StepOf(ty), StepOpcode(up)], [SI, Width(ty)];
    StraightPlain(a);
    StraightConstant(StepOf(ty), StepOpcode(up));
    StraightConstant(StepOf(ty), StepOpcode(!up));
    StraightPlain(d);
    StraightCat(a, b);
    StraightCat(a + b, d);
    assert Again(last, ty, up) == a + b + d;
  }

  /** For an lvalue these are the words of the tree. */
  lemma RawIsCode(env: Env, s: Tree, base: nat)
    requires Rewrites(s) && WellTyped(env, s)
    ensures WellTyped(env, Target(s)) && (s.Assign? ==> WellTyped(env, s.r))
    ensures RawWords(env, s, base) == Code(env, s, base)
  {
    hide Width, StepOf, AddrCode, TypeOf, StepCode, Again, Undo, Code;
    var t := Target(s);
    LvalueCode(env, t, base);
    var a, ty := AddrCode(env, t, base), TypeOf(env, t);
    CutIs(a, Width(ty));
    if s.Assign? {
      AssignIsCode(env, s, base);
    } else if s.AddrOf? {
      AddressIsCode(env, s, base);
      assert a + [] == a;
    } else {
      StepIsCode(env, s, base);
    }
  }

  lemma AddressIsCode(env: Env, s: Tree, base: nat)
    requires s.AddrOf? && WellTyped(env, s)
    ensures Code(env, s, base) == AddrCode(env, s.e, base)
  {
    hide AddrCode;
  }

  lemma StepIsCode(env: Env, s: Tree, base: nat)
    requires (s.Pre? || s.Post?) && WellTyped(env, s)
    ensures var a, ty := AddrCode(env, s.e, base), TypeOf(env, s.e);
            var x := [PSH] + Again(Width(ty), ty, s.up);
            Code(env, s, base) == a + if s.Pre? then x else x + Undo(ty, s.up)
  {
    hide Width, StepOf, AddrCode, TypeOf, StepCode, Again;
    var a, ty := AddrCode(env, s.e, base), TypeOf(env, s.e);
    StepIsAgain(Width(ty), ty, s.up);
    Assoc(a, StepCode(s.up, ty), Undo(ty, s.up));
  }

  lemma AssignIsCode(env: Env, s: Tree, base: nat)
    requires s.Assign? && WellTyped(env, s)
    ensures var a, w := AddrCode(env, s.l, base), Width(TypeOf(env, s.l));
            Code(env, s, base) == a + ([PSH] + Code(env, s.r, base + |a| + 1) + [SI, w])
  {
    hide AddrCode, Width, TypeOf;
    var a, w := AddrCode(env, s.l, base), Width(TypeOf(env, s.l));
    var cr := Code(env, s.r, base + |a| + 1);
    assert |a + [PSH]| == |a| + 1;
    Assoc(a, [PSH], cr);
    Assoc(a, [PSH] + cr, [SI, w]);
  }

  lemma CutIs(a: seq<int>, w: int)
    ensures var c := a + [LI, w]; |c| == |a| + 2 && c[..|c| - 2] == a && c[|c| - 1] == w
  {
  }

  lemma {:induction false} FirstWord(env: Env, t: Tree, base: nat)
    requires WellTyped(env, t)
    ensures |Code(env, t, base)| > 0 && Code(env, t, base)[0] == IMM
    decreases t, 1
  {
    hide StepCode, BinCode, ScaleCode, Width, TypeOf;
    match t
    case Lit(_) =>
    case SizeOf(_) =>
    case Name(_) =>
    case Paren(e) => FirstWord(env, e, base);
    case Cast(_, e) => FirstWord(env, e, base);
    case Deref(e) => FirstWord(env, e, base);
    case AddrOf(e) => FirstAddrWord(env, e, base);
    case Un(u, e) => FirstWord(env, e, base);
    case Pre(_, e) => FirstAddrWord(env, e, base);
    case Post(_, e) => FirstAddrWord(env, e, base);
    case Assign(l, _) => FirstAddrWord(env, l, base);
    case Cond(c, _, _) => FirstWord(env, c, base);
    case Logic(_, l, _) => FirstWord(env, l, base);
    case Bin(_, l, _) => FirstWord(env, l, base);
    case Index(l, _) => FirstWord(env, l, base);
    case Call(_, e) => FirstWord(env, e, base);
  }

  lemma {:induction false} FirstAddrWord(env: Env, t: Tree, base: nat)
    requires WellTyped(env, t) && IsLvalue(env, t)
    ensures |AddrCode(env, t, base)| > 0 && AddrCode(env, t, base)[0] == IMM
    decreases t, 0
  {
    hide ScaleCode, TypeOf;
    match t
    case Name(_) =>
    case Paren(e) => FirstAddrWord(env, e, base);
    case Deref(e) => FirstWord(env, e, base);
    case Index(l, _) => FirstWord(env, l, base);
  }

  /** The words from the cut on: a short one, then a long instruction and shaped code, or nothing. */
  lemma TailShaped(env: Env, s: Tree, v: seq<int>, q: nat, last: int, ty: int)
    requires Rewrites(s) && (s.Assign? ==> WellTyped(env, s.r)) && q > 0
    requires At(v, q - 1, RawTail(env, s, q, last, ty) + [EXIT]) && |v| == q - 1 + |RawTail(env, s, q, last, ty)| + 1
    ensures v[q - 1] > SI && (q < |v| ==> InstructionLength(v[q]) == 2) && Shaped(v, q, |v|)
  {
    hide Width, StepOf, Shaped, Again, Undo, Code, Straight;
    StraightPlain([EXIT]);
    if s.AddrOf? {
      assert RawTail(env, s, q, last, ty) + [EXIT] == [EXIT];
      assert v[q - 1] == v[q - 1..q][0];
      EmptyShaped(v, q);
    } else if s.Assign? {
      AssignTailShaped(env, s, v, q, ty);
    } else {
      StraightAgain(last, ty, s.up);
      var x, y, z := Again(last, ty, s.up), Undo(ty, s.up), [EXIT];
      StraightCat(x, z);
      StraightCat(x, y);
      StraightCat(x + y, z);
      Assoc([PSH], x, z);
      Assoc([PSH], x, y);
      Assoc([PSH], x + y, z);
      PushTail(v, q, if s.Pre? then x + z else x + y + z);
    }
  }

  lemma EmptyShaped(v: seq<int>, q: nat)
    requires q == |v|
    ensures Shaped(v, q, |v|)
  {
  }

  /** A push, then straight-line code that begins with a load. */
  lemma PushTail(v: seq<int>, q: nat, a: seq<int>)
    requires q > 0 && a != [] && a[0] == LI && Straight(a) && At(v, q - 1, [PSH] + a) && |v| == q + |a|
    ensures v[q - 1] == PSH && v[q] == LI && Shaped(v, q, |v|)
  {
    hide Straight, Shaped;
    AtParts(v, q - 1, [PSH], a);
    assert v[q - 1] == v[q - 1..q][0];
    assert v[q] == v[q..q + |a|][0];
    ShapedStraight(v, q, a);
  }

  lemma AssignTailShaped(env: Env, s: Tree, v: seq<int>, q: nat, ty: int)
    requires s.Assign? && WellTyped(env, s.r) && q > 0
    requires At(v, q - 1, [PSH] + Code(env, s.r, q) + [SI, Width(ty)] + [EXIT]) && |v| == q + |Code(env, s.r, q)| + 3
    ensures v[q - 1] == PSH && v[q] == IMM && Shaped(v, q, |v|)
  {
    hide Width, Shaped, Code, Straight, WellTyped;
    var c, x, y := Code(env, s.r, q), [SI, Width(ty)], [EXIT];
    Assoc([PSH] + c, x, y);
    Assoc([PSH], c, x + y);
    AtParts(v, q - 1, [PSH], c + (x + y));
    AtParts(v, q, c, x + y);
    FirstWord(env, s.r, q);
    assert v[q - 1] == v[q - 1..q][0];
    assert v[q] == v[q..q + |c|][0];
    CodeShaped(env, s.r, v, q);
    StraightPlain(x);
    StraightPlain(y);
    StraightCat(x, y);
    ShapedTail(v, q, c, x + y);
  }

  /** The whole program s. */
  function RawImage(env: Env, s: Tree): seq<int>
    requires Rewrites(s) && WellTyped(env, Target(s)) && (s.Assign? ==> WellTyped(env, s.r))
  {
    [0] + RawWords(env, s, 1) + [EXIT]
  }

  /**
   * A program that assigns to, steps or takes the address of something that passes the test decodes
   * into whole instructions with branches to their boundaries exactly when that something does not end
   * with a `?:`, `&&` or `||`.
   */
  lemma RawShape(env: Env, s: Tree)
    requires Rewrites(s) && Readable(env, s) && Passes(env, Target(s))
    ensures Shaped(RawImage(env, s), 1, |RawImage(env, s)|) <==> !Branches(Target(s))
  {
    hide Shaped, Sealed, Code, Raw, Final, RawTail, WellTyped, Grouped;
    var t, v := Target(s), RawImage(env, s);
    var c, ty := Code(env, t, 1), TypeOf(env, t);
    CodeLength(env, t, 1);
    LastWords(env, t, 1);
    var w, hi := [0] + c, 1 + |c|;
    AtBehind([0], c);
    CodeShaped(env, t, w, 1);
    var tail := RawTail(env, s, |c|, c[|c| - 1], ty);
    CutImage(c, tail);
    TailShaped(env, s, v, hi - 1, c[|c| - 1], ty);
    CutShape(w, v, 1, hi, |v|);
  }

  lemma AtBehind(a: seq<int>, c: seq<int>)
    ensures At(a + c, |a|, c)
  {
  }

  /** Where the pieces of the image are. */
  lemma CutImage(c: seq<int>, tail: seq<int>)
    requires |c| >= 2
    ensures var v, w := [0] + (c[..|c| - 2] + tail) + [EXIT], [0] + c;
            && At(v, |c| - 1, tail + [EXIT]) && |v| == |c| - 1 + |tail| + 1
            && SameBelow(w, v, |c| - 1) && w[|c| - 1] == c[|c| - 2]
  {
    var a := [0] + c[..|c| - 2];
    assert [0] + (c[..|c| - 2] + tail) + [EXIT] == a + (tail + [EXIT]);
  }

  // ---- what the compiler makes of them ----------------------------------------------------------------------

  function RawType(env: Env, s: Tree): int
    requires Rewrites(s)
  {
    TypeOf(env, Target(s)) + if s.AddrOf? then PTR else 0
  }

  /** Compiling the text of s succeeds exactly when its operand passes, and emits these words. */
  predicate Compiles(env: Env, s: Tree, e: seq<int>, ty: int)
    requires Rewrites(s) && Readable(env, s)
  {
    Expr(env, TK_ASSIGN, Compiler(Print(s), e, ty)) ==
    if Passes(env, Target(s)) then Ok(Compiler([], e + RawWords(env, s, |e|), RawType(env, s))) else Err
  }

  /** The two words the rewrites work on are the operand's. */
  lemma CutBehind(e: seq<int>, c: seq<int>)
    requires |c| >= 2
    ensures var all := e + c;
            all[..|all| - 2] == e + c[..|c| - 2] && all[|all| - 1] == c[|c| - 1]
  {
  }

  lemma LoopEnds(env: Env, st: Compiler)
    requires st.toks == []
    ensures Loop(env, TK_ASSIGN, st) == Ok(st)
  {
  }

  lemma LoopFails(env: Env, st: Compiler)
    requires st.toks != [] && TK_ASSIGN <= st.Next() && Infix(env, st).Err?
    ensures Loop(env, TK_ASSIGN, st) == Err
  {
    hide Infix;
  }

  lemma AssignPlaced(env: Env, s: Tree, rest: seq<Token>)
    requires s.Assign? && Readable(env, s)
    ensures Placed(env, s.l, TK_ASSIGN, [Sym(TK_ASSIGN)] + rest)
  {
    hide WellTyped, Grouped;
  }

  lemma AssignCompiles(env: Env, s: Tree, e: seq<int>, ty: int)
    requires s.Assign? && Readable(env, s)
    ensures Compiles(env, s, e, ty)
  {
    hide Expr, ExprParse.Operand, Loop, Code, TypeOf, Width, Raw, WellTyped, Grouped, EndsInLoad, Placed, Precedence, IsLvalue;
    var t, op := s.l, Sym(TK_ASSIGN);
    var mid := [op] + Print(s.r);
    assert Print(s) == Print(t) + mid;
    Behind(op, Print(s.r));
    AssignPlaced(env, s, Print(s.r));
    ParseTree(env, t, TK_ASSIGN, mid, e, ty);
    var c, tl := Code(env, t, |e|), TypeOf(env, t);
    var st := Compiler(mid, e + c, tl);
    RawTest(env, t, e);
    if Passes(env, t) {
      CodeLength(env, t, |e|);
      CutBehind(e, c);
      var e1 := e + c[..|c| - 2] + [PSH];
      LowestAssign(env, s.r);
      ParseAt(env, s.r, TK_ASSIGN, [], e1, tl);
      assert Print(s.r) + [] == Print(s.r);
      var s1 := Compiler([], e1 + Code(env, s.r, |e1|) + [SI, Width(tl)], tl);
      ByInfix(env, TK_ASSIGN, st, s1);
      LoopEnds(env, s1);
      AssignWords(env, s, e);
    } else {
      LoopFails(env, st);
    }
  }

  lemma LowestAssign(env: Env, t: Tree)
    ensures IsLevel(TK_ASSIGN) && TK_ASSIGN <= LevelOf(Precedence(t)) && Head([]) < TK_ASSIGN && Head([]) != TK_OPEN
  {
  }

  lemma AssignWords(env: Env, s: Tree, e: seq<int>)
    requires s.Assign? && Readable(env, s)
    ensures var c := Code(env, s.l, |e|);
            && |c| >= 2
            && var e1 := e + c[..|c| - 2] + [PSH];
            && e1 + Code(env, s.r, |e1|) + [SI, Width(TypeOf(env, s.l))] == e + RawWords(env, s, |e|)
  {
    hide Code, TypeOf, Width, WellTyped, Grouped;
    CodeLength(env, s.l, |e|);
    var c := Code(env, s.l, |e|);
    var a := c[..|c| - 2];
    var cr, d := Code(env, s.r, |e| + |c| - 1), [SI, Width(TypeOf(env, s.l))];
    assert |e + a + [PSH]| == |e| + |c| - 1;
    Assoc(e, a, [PSH] + cr + d);
    Assoc(e + a, [PSH] + cr, d);
    Assoc(e + a, [PSH], cr);
  }

  lemma PostCompiles(env: Env, s: Tree, e: seq<int>, ty: int)
    requires s.Post? && Readable(env, s)
    ensures Compiles(env, s, e, ty)
  {
    hide Expr, ExprParse.Operand, Loop, Code, TypeOf, Width, StepOf, Raw, WellTyped, Grouped, EndsInLoad, IsLvalue, Again, Stepping;
    var t, op := s.e, StepToken(s.up);
    assert Print(s) == Print(t) + [op];
    assert Placed(env, t, TK_ASSIGN, [op]);
    ParseTree(env, t, TK_ASSIGN, [op], e, ty);
    var c, tl := Code(env, t, |e|), TypeOf(env, t);
    var st := Compiler([op], e + c, tl);
    RawTest(env, t, e);
    assert st.Skip().toks == [];
    if Passes(env, t) {
      CodeLength(env, t, |e|);
      CutBehind(e, c);
      var a, last := c[..|c| - 2], c[|c| - 1];
      var x, y := [PSH] + Again(last, tl, s.up), Undo(tl, s.up);
      StepBy(Compiler([], e + c, tl), s.up, e + a, last);
      var s1 := Compiler([], e + a + x + y, tl);
      assert Infix(env, st) == Ok(s1);
      ByInfix(env, TK_ASSIGN, st, s1);
      LoopEnds(env, s1);
      Assoc(e + a, x, y);
      Assoc(e, a, x + y);
    } else {
      LoopFails(env, st);
    }
  }

  lemma RaisedLoad(c: seq<int>)
    requires EndsInLoad(c)
    ensures KeepAddress(c) == c[..|c| - 2] + [PSH, LI, c[|c| - 1]]
  {
  }

  lemma PrefixCompiles(env: Env, s: Tree, e: seq<int>, ty: int)
    requires (s.Pre? || s.AddrOf?) && Readable(env, s)
    ensures Compiles(env, s, e, ty)
  {
    hide Loop, Code, TypeOf, Width, StepOf, Raw, WellTyped, Grouped, EndsInLoad, IsLvalue;
    var t, k := s.e, if s.AddrOf? then TK_AND else if s.up then TK_INC else TK_DEC;
    assert Print(s) == [Sym(k)] + Print(t);
    Behind(Sym(k), Print(t));
    assert Print(t) + [] == Print(t);
    ParseAt(env, t, TK_INC, [], e, ty);
    var c, tl := Code(env, t, |e|), TypeOf(env, t);
    PrefixOperandIs(env, k, Print(t), e, ty);
    RawTest(env, t, e);
    hide Expr;
    assert Expr(env, TK_INC, Compiler(Print(t), e, ty)) == Ok(Compiler([], e + c, tl));
    if Passes(env, t) {
      if s.AddrOf? {
        AddressWords(env, s, e);
      } else {
        StepWords(env, s, e);
      }
      LoopEnds(env, Compiler([], e + RawWords(env, s, |e|), RawType(env, s)));
    }
  }

  /** A prefix operator reads its operand at the level of prefix operators. */
  lemma PrefixOperandIs(env: Env, k: int, toks: seq<Token>, e: seq<int>, ty: int)
    requires k in {TK_AND, TK_INC, TK_DEC}
    ensures var st := Compiler([Sym(k)] + toks, e, ty);
            var r := Expr(env, TK_INC, Compiler(toks, e, ty));
            Expr(env, TK_ASSIGN, st) ==
            if r.Err? || Prefix(k, r.st).Err? then Err else Loop(env, TK_ASSIGN, Prefix(k, r.st).st)
  {
    hide Loop, Prefix;
    Behind(Sym(k), toks);
    var st := Compiler([Sym(k)] + toks, e, ty);
    assert st.Skip() == Compiler(toks, e, ty);
    assert ExprParse.Operand(env, st) == (var r := Expr(env, TK_INC, st.Skip()); if r.Err? then Err else Prefix(k, r.st));
  }

  lemma AddressWords(env: Env, s: Tree, e: seq<int>)
    requires s.AddrOf? && WellTyped(env, s.e) && EndsInLoad(e + Code(env, s.e, |e|))
    ensures Prefix(TK_AND, Compiler([], e + Code(env, s.e, |e|), TypeOf(env, s.e)))
            == Ok(Compiler([], e + RawWords(env, s, |e|), RawType(env, s)))
  {
    hide Code, TypeOf, Prefix, EndsInLoad, RawWords, RawType, WellTyped, Again;
    AddressTail(env, s, |e|);
    AddressedWords(e, Code(env, s.e, |e|), TypeOf(env, s.e), RawWords(env, s, |e|));
  }

  lemma AddressedWords(e: seq<int>, c: seq<int>, tl: int, words: seq<int>)
    requires |c| >= 2 && EndsInLoad(e + c) && words == c[..|c| - 2]
    ensures Prefix(TK_AND, Compiler([], e + c, tl)) == Ok(Compiler([], e + words, tl + PTR))
  {
    hide Prefix, EndsInLoad;
    CutBehind(e, c);
    AddressOf(Compiler([], e + c, tl));
  }

  lemma StepWords(env: Env, s: Tree, e: seq<int>)
    requires s.Pre? && WellTyped(env, s.e) && EndsInLoad(e + Code(env, s.e, |e|))
    ensures Prefix(if s.up then TK_INC else TK_DEC, Compiler([], e + Code(env, s.e, |e|), TypeOf(env, s.e)))
            == Ok(Compiler([], e + RawWords(env, s, |e|), RawType(env, s)))
  {
    hide Code, TypeOf, Prefix, EndsInLoad, RawWords, RawType, WellTyped, Again;
    var c, tl := Code(env, s.e, |e|), TypeOf(env, s.e);
    StepTailIs(env, s, |e|);
    SteppedWords(e, c, tl, s.up, RawWords(env, s, |e|));
  }

  lemma SteppedWords(e: seq<int>, c: seq<int>, tl: int, up: bool, words: seq<int>)
    requires |c| >= 2 && EndsInLoad(e + c) && words == c[..|c| - 2] + ([PSH] + Again(c[|c| - 1], tl, up))
    ensures Prefix(if up then TK_INC else TK_DEC, Compiler([], e + c, tl)) == Ok(Compiler([], e + words, tl))
  {
    hide Prefix, EndsInLoad, Stepping, Again;
    CutBehind(e, c);
    var a, last := c[..|c| - 2], c[|c| - 1];
    StepBy(Compiler([], e + c, tl), up, e + a, last);
    var x := [PSH] + Again(last, tl, up);
    Assoc(e, a, x);
  }

  lemma AddressOf(st: Compiler)
    requires EndsInLoad(st.e)
    ensures Prefix(TK_AND, st) == Ok(Compiler(st.toks, st.e[..|st.e| - 2], st.ty + PTR))
  {
  }

  lemma StepBy(st: Compiler, up: bool, a: seq<int>, last: int)
    requires EndsInLoad(st.e) && st.e[..|st.e| - 2] == a && st.e[|st.e| - 1] == last
    ensures Prefix(if up then TK_INC else TK_DEC, st) == Ok(Stepping(st, up))
    ensures Stepping(st, up) == st.(e := a + ([PSH] + Again(last, st.ty, up)))
  {
    hide StepOf, Width, KeepAddress, Again;
    RaisedLoad(st.e);
    StepIsAgain(last, st.ty, up);
    Assoc(a, [PSH, LI, last], [PSH, IMM, StepOf(st.ty), StepOpcode(up), SI, Width(st.ty)]);
  }

  lemma AddressTail(env: Env, s: Tree, base: nat)
    requires s.AddrOf? && WellTyped(env, s.e)
    ensures RawType(env, s) == TypeOf(env, s.e) + PTR
    ensures var c := Code(env, s.e, base); |c| >= 2 && RawWords(env, s, base) == c[..|c| - 2]
  {
    hide Code, TypeOf, WellTyped;
    CodeLength(env, s.e, base);
    var c := Code(env, s.e, base);
    assert c[..|c| - 2] + [] == c[..|c| - 2];
  }

  lemma StepTailIs(env: Env, s: Tree, base: nat)
    requires s.Pre? && WellTyped(env, s.e)
    ensures RawType(env, s) == TypeOf(env, s.e)
    ensures var c, tl := Code(env, s.e, base), TypeOf(env, s.e);
            |c| >= 2 && RawWords(env, s, base) == c[..|c| - 2] + ([PSH] + Again(c[|c| - 1], tl, s.up))
  {
    hide Code, TypeOf, Again, WellTyped;
    CodeLength(env, s.e, base);
  }

  /** The text of s is accepted exactly when its operand is an lvalue or Raw. */
  lemma RawCompiles(env: Env, s: Tree, e: seq<int>, ty: int)
    requires Rewrites(s) && Readable(env, s)
    ensures Compiles(env, s, e, ty)
  {
    hide Compiles, Readable;
    match s
    case Assign(_, _) => AssignCompiles(env, s, e, ty);
    case Post(_, _) => PostCompiles(env, s, e, ty);
    case Pre(_, _) => PrefixCompiles(env, s, e, ty);
    case AddrOf(_) => PrefixCompiles(env, s, e, ty);
  }

  /** As a whole program: accepted exactly when the operand passes, shaped exactly when it does not end in a branch. */
  lemma RawProgram(env: Env, s: Tree)
    requires Rewrites(s) && Readable(env, s)
    ensures var r := Program(env, Compiler(Print(s), [0], 0));
            if Passes(env, Target(s)) then
              && r.Ok? && r.st.e == RawImage(env, s)
              && (Shaped(r.st.e, 1, |r.st.e|) <==> !Branches(Target(s)))
            else r.Err?
  {
    hide Expr, Code, Raw, WellTyped, Grouped, RawWords, Shaped, IsLvalue, TypeOf;
    RawCompiles(env, s, [0], 0);
    if Passes(env, Target(s)) {
      RawShape(env, s);
    }
  }

  // ---- an accepted program that runs away -------------------------------------------------------------------

  predicate IntField(env: Env, x: string) { x in env && env[x].Global? && env[x].elem == INT && !env[x].isArray }

  /** `x && y = n` */
  function AndAssign(x: string, y: string, n: int): Tree { Assign(Logic(false, Name(x), Name(y)), Lit(n)) }

  lemma AndAssignReadable(env: Env, x: string, y: string, n: int)
    requires IntField(env, x) && IntField(env, y) && IsWord(n)
    ensures var s := AndAssign(x, y, n); Readable(env, s) && Passes(env, s.l) && Branches(s.l)
  {
  }

  lemma FieldCode(env: Env, x: string, base: nat)
    requires IntField(env, x)
    ensures WellTyped(env, Name(x)) && Code(env, Name(x), base) == [IMM, env[x].addr, LI, 4]
  {
  }

  lemma AndAssignImage(env: Env, x: string, y: string, n: int)
    requires IntField(env, x) && IntField(env, y) && IsWord(n)
    ensures Readable(env, AndAssign(x, y, n))
    ensures RawImage(env, AndAssign(x, y, n)) == [0, IMM, env[x].addr, LI, 4, BZ, 11, IMM, env[y].addr, PSH, IMM, n, SI, 4, EXIT]
  {
    AndAssignReadable(env, x, y, n);
    var s := AndAssign(x, y, n);
    var t := s.l;
    FieldCode(env, x, 1);
    FieldCode(env, y, 7);
    CodeOfLogic(env, t, 1);
    var c := Code(env, t, 1);
    assert c == [IMM, env[x].addr, LI, 4, BZ, 11, IMM, env[y].addr, LI, 4];
    assert c[..|c| - 2] == [IMM, env[x].addr, LI, 4, BZ, 11, IMM, env[y].addr];
    assert RawTail(env, s, 10, 4, INT) == [PSH] + [IMM, n] + [SI, 4];
  }

  /** For two int fields it is accepted, and the branch over the assignment goes into the middle of an instruction. */
  lemma AndAssignAccepted(env: Env, x: string, y: string, n: int)
    requires IntField(env, x) && IntField(env, y) && IsWord(n)
    ensures var r := Program(env, Compiler(Print(AndAssign(x, y, n)), [0], 0));
            && r.Ok? && !Shaped(r.st.e, 1, |r.st.e|)
            && r.st.e == [0, IMM, env[x].addr, LI, 4, BZ, 11, IMM, env[y].addr, PSH, IMM, n, SI, 4, EXIT]
  {
    hide *;
    AndAssignReadable(env, x, y, n);
    AndAssignProgram(env, x, y, n);
    AndAssignImage(env, x, y, n);
  }

  lemma AndAssignProgram(env: Env, x: string, y: string, n: int)
    requires IntField(env, x) && IntField(env, y) && IsWord(n)
    ensures Readable(env, AndAssign(x, y, n))
    ensures var r := Program(env, Compiler(Print(AndAssign(x, y, n)), [0], 0));
            r.Ok? && r.st.e == RawImage(env, AndAssign(x, y, n)) && !Shaped(r.st.e, 1, |r.st.e|)
  {
    hide Program, Shaped, RawImage, Print, Readable, Passes, Branches;
    AndAssignReadable(env, x, y, n);
    RawProgram(env, AndAssign(x, y, n));
  }

  /** With x == 0, `x && y = 5` takes its own constant for an instruction and jumps out of the program. */
  lemma AndAssignRunsAway(w: seq<int>, ax: int, ay: int, m: Memory)
    requires w == [0, IMM, ax, LI, 4, BZ, 11, IMM, ay, PSH, IMM, 5, SI, 4, EXIT] && Load(m, ax, 4) == 0
    ensures Steps(w, Running(Start(m)), 6) == Fault
  {
    hide Load, Store, Alu, Builtin, Steps;
    var s := Start(m);
    var s1 := s.(pc := 3, a := ax);
    var s2 := s.(pc := 5, a := 0);
    var s3 := s.(pc := 11, a := 0);
    var s4 := s.(pc := 13, a := 0);
    var s5 := s.(pc := 33, a := 0);
    assert Step(w, s) == Running(s1);
    assert Step(w, s1) == Running(s2);
    assert Step(w, s2) == Running(s3);
    assert Step(w, s3) == Running(s4);
    assert Step(w, s4) == Running(s5);
    assert Step(w, s5) == Fault;
    SixSteps(w, s, s1, s2, s3, s4, s5);
  }

  lemma SixSteps(w: seq<int>, s: Machine, s1: Machine, s2: Machine, s3: Machine, s4: Machine, s5: Machine)
    requires Step(w, s) == Running(s1) && Step(w, s1) == Running(s2) && Step(w, s2) == Running(s3)
    requires Step(w, s3) == Running(s4) && Step(w, s4) == Running(s5) && Step(w, s5) == Fault
    ensures Steps(w, Running(s), 6) == Fault
  {
    hide Step;
    assert Steps(w, Running(s5), 1) == Steps(w, Fault, 0) == Fault;
    assert Steps(w, Running(s4), 2) == Fault;
    assert Steps(w, Running(s3), 3) == Fault;
    assert Steps(w, Running(s2), 4) == Fault;
    assert Steps(w, Running(s1), 5) == Fault;
  }
}
