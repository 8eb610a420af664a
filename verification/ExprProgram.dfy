/** Whole programs: comma-separated expressions, the shape of their code, and expr_run. */
module ExprProgram {
  import opened Words
  import opened ExprSyntax
  import opened ExprCode
  import opened ExprMachine
  import opened ExprCorrect

  predicate AllWellTyped(env: Env, ts: seq<Tree>) {
    forall i :: 0 <= i < |ts| ==> WellTyped(env, ts[i])
  }

  function ProgramCode(env: Env, ts: seq<Tree>, base: nat): seq<int>
    requires AllWellTyped(env, ts)
  {
    if ts == [] then []
    else
      var c := Code(env, ts[0], base);
      c + ProgramCode(env, ts[1..], base + |c|)
  }

  /** The instruction buffer: word 0 is never used, EXIT ends it (expr.c:371, 438-447). */
  function Image(env: Env, ts: seq<Tree>): seq<int>
    requires AllWellTyped(env, ts)
  {
    [0] + ProgramCode(env, ts, 1) + [EXIT]
  }

  /** Each expression in turn; the last value counts. */
  function ProgramValue(env: Env, ts: seq<Tree>, v: int, m: Memory): Eval
    requires AllWellTyped(env, ts)
  {
    if ts == [] then Val(v, m)
    else
      var (v1, m1) :- Value(env, ts[0], m);
      ProgramValue(env, ts[1..], v1, m1)
  }

  predicate FitsStack(ts: seq<Tree>) {
    forall i :: 0 <= i < |ts| ==> Depth(ts[i]) <= STACK_SIZE
  }

  lemma {:induction false} ProgramCorrect(env: Env, ts: seq<Tree>, w: seq<int>, s: Machine) returns (n: nat)
    requires GoodEnv(env) && AllWellTyped(env, ts) && FitsStack(ts) && s.stack == []
    requires At(w, s.pc, ProgramCode(env, ts, s.pc))
    ensures n <= |ProgramCode(env, ts, s.pc)|
    ensures Leads(w, s, n, After(s, |ProgramCode(env, ts, s.pc)|, ProgramValue(env, ts, s.a, s.mem)))
    decreases |ts|
  {
    hide Step, Steps, Leads, At, Code, Value, WellTyped, Depth;
    if ts == [] {
      n := 0;
      Stay(w, s);
    } else {
      var c := Code(env, ts[0], s.pc);
      AtParts(w, s.pc, c, ProgramCode(env, ts[1..], s.pc + |c|));
      n := CodeCorrect(env, ts[0], w, s);
      var r := Value(env, ts[0], s.mem);
      if r.Val? {
        var s1 := s.(pc := s.pc + |c|, a := r.v, mem := r.mem);
        var k := ProgramCorrect(env, ts[1..], w, s1);
        var rest := ProgramCode(env, ts[1..], s1.pc);
        Chain(w, s, n, s1, k, After(s1, |rest|, ProgramValue(env, ts[1..], r.v, r.mem)));
        n := n + k;
      }
    }
  }

  lemma Stay(w: seq<int>, s: Machine)
    ensures Leads(w, s, 0, Running(s))
  {
  }

  /** The state expr_run starts in (expr.c:483-486). */
  function Start(m: Memory): Machine { Machine(1, 0, [], m) }

  function Expected(r: Eval): Outcome {
    match r
    case Val(v, m) => Halted(v, m)
    case Trap => DivideError
  }

  /** expr_run on a compiled program returns its value, within as many steps as the image has words. */
  lemma {:induction false} ImageCorrect(env: Env, ts: seq<Tree>, m: Memory)
    requires GoodEnv(env) && AllWellTyped(env, ts) && FitsStack(ts)
    ensures Steps(Image(env, ts), Running(Start(m)), |Image(env, ts)|) == Expected(ProgramValue(env, ts, 0, m))
  {
    hide Steps, Code, Value, WellTyped;
    var w, c, s := Image(env, ts), ProgramCode(env, ts, 1), Start(m);
    assert At(w, 1, c);
    var n := ProgramCorrect(env, ts, w, s);
    var r := ProgramValue(env, ts, 0, m);
    if r.Val? {
      var s1 := s.(pc := 1 + |c|, a := r.v, mem := r.mem);
      assert w[s1.pc] == EXIT;
      One(w, s1);
      Chain(w, s, n, s1, 1, Halted(r.v, r.mem));
      Stop(w, s, n + 1, |w| - n - 1, Halted(r.v, r.mem));
    } else {
      Stop(w, s, n, |w| - n, DivideError);
    }
  }

  // ---- shape ----------------------------------------------------------------------------------

  function InstructionLength(op: int): (r: nat)
    ensures 1 <= r <= 2
  {
    if op <= SI then 2 else 1
  }

  /** k is an instruction boundary when decoding starts at lo. */
  predicate Boundary(w: seq<int>, lo: nat, k: nat)
    decreases k - lo
  {
    lo == k || (lo < k && lo < |w| && Boundary(w, lo + InstructionLength(w[lo]), k))
  }

  predicate IsBranch(op: int) { op == JMP || op == BZ || op == BNZ }

  /** The branch at p, if there is one, goes forward over at least two words to a boundary no later than hi. */
  predicate GoodBranch(w: seq<int>, lo: nat, hi: nat, p: nat) {
    p + 1 < |w| && IsBranch(w[p]) ==> p + 4 <= w[p + 1] <= hi && Boundary(w, lo, w[p + 1])
  }

  /** [lo, hi) decodes into whole instructions whose branches are good. */
  ghost predicate Shaped(w: seq<int>, lo: nat, hi: nat) {
    && hi <= |w| && Boundary(w, lo, hi)
    && forall p :: lo <= p < hi && Boundary(w, lo, p) ==> GoodBranch(w, lo, hi, p)
  }

  /** No branch in [lo, hi) goes to hi itself. */
  ghost predicate Sealed(w: seq<int>, lo: nat, hi: nat) {
    forall p :: lo <= p < hi && Boundary(w, lo, p) && p + 1 < |w| && IsBranch(w[p]) ==> w[p + 1] != hi
  }

  /** The code of t ends with that of a `?:`, `&&` or `||`, whose branches go to its end. */
  predicate Branches(t: Tree)
    decreases t
  {
    match t
    case Cond(_, _, _) => true
    case Logic(_, _, _) => true
    case Paren(e) => Branches(e)
    case Cast(_, e) => Branches(e)
    case Un(u, e) => u.Plus? && Branches(e)
    case AddrOf(e) => AddrBranches(e)
    case _ => false
  }

  predicate AddrBranches(t: Tree)
    decreases t
  {
    match t
    case Paren(e) => AddrBranches(e)
    case Deref(e) => Branches(e)
    case _ => false
  }

  lemma {:induction false} BoundaryTrans(w: seq<int>, lo: nat, mid: nat, k: nat)
    requires Boundary(w, lo, mid) && Boundary(w, mid, k)
    ensures Boundary(w, lo, k) && lo <= mid <= k
    decreases mid - lo
  {
    BoundaryOrder(w, mid, k);
    if lo != mid {
      BoundaryTrans(w, lo + InstructionLength(w[lo]), mid, k);
    }
  }

  lemma BoundaryOrder(w: seq<int>, lo: nat, k: nat)
    requires Boundary(w, lo, k)
    ensures lo <= k
  {
  }

  lemma BoundaryNext(w: seq<int>, lo: nat, k: nat)
    requires Boundary(w, lo, k) && lo < |w|
    ensures k == lo || k >= lo + InstructionLength(w[lo])
  {
    if k != lo {
      BoundaryOrder(w, lo + InstructionLength(w[lo]), k);
    }
  }

  /** Boundaries from lo form one chain: a later one is a boundary from any earlier one. */
  lemma {:induction false} BoundaryChain(w: seq<int>, lo: nat, mid: nat, k: nat)
    requires Boundary(w, lo, mid) && Boundary(w, lo, k) && mid <= k
    ensures Boundary(w, mid, k)
    decreases mid - lo
  {
    if lo != mid {
      BoundaryChain(w, lo + InstructionLength(w[lo]), mid, k);
    }
  }

  lemma ShapedJoin(w: seq<int>, lo: nat, mid: nat, hi: nat)
    requires Shaped(w, lo, mid) && Shaped(w, mid, hi)
    ensures Shaped(w, lo, hi)
  {
    BoundaryTrans(w, lo, mid, hi);
    forall p | lo <= p < hi && Boundary(w, lo, p)
      ensures GoodBranch(w, lo, hi, p)
    {
      if p < mid {
        assert GoodBranch(w, lo, mid, p);
      } else {
        BoundaryChain(w, lo, mid, p);
        assert GoodBranch(w, mid, hi, p);
        if p + 1 < |w| && IsBranch(w[p]) {
          BoundaryTrans(w, lo, mid, w[p + 1]);
        }
      }
    }
  }

  /** A branch at b over shaped code to a boundary of that code. */
  lemma ShapedBranch(w: seq<int>, b: nat, hi: nat)
    requires b + 1 < |w| && IsBranch(w[b]) && Shaped(w, b + 2, hi)
    requires b + 4 <= w[b + 1] <= hi && Boundary(w, b + 2, w[b + 1])
    ensures Shaped(w, b, hi)
  {
    BoundaryOrder(w, b + 2, hi);
    assert Boundary(w, b, b + 2);
    forall p | b <= p < hi && Boundary(w, b, p)
      ensures GoodBranch(w, b, hi, p)
    {
      if p >= b + 2 {
        BoundaryChain(w, b, b + 2, p);
        assert GoodBranch(w, b + 2, hi, p);
        if p + 1 < |w| && IsBranch(w[p]) {
          BoundaryTrans(w, b, b + 2, w[p + 1]);
        }
      } else {
        BoundaryNext(w, b, p);
        BoundaryTrans(w, b, b + 2, w[b + 1]);
      }
    }
  }

  /** One instruction without a branch. */
  predicate Plain(c: seq<int>) {
    |c| >= 1 && !IsBranch(c[0]) && |c| == InstructionLength(c[0])
  }

  lemma ShapedPlain(w: seq<int>, p: nat, c: seq<int>)
    requires At(w, p, c) && Plain(c)
    ensures Shaped(w, p, p + |c|)
  {
    assert w[p] == w[p..p + |c|][0];
    assert Boundary(w, p, p + |c|);
    forall q | p <= q < p + |c| && Boundary(w, p, q)
      ensures GoodBranch(w, p, p + |c|, q)
    {
      BoundaryNext(w, p, q);
    }
  }

  /** Straight-line code: a sequence of plain instructions. */
  predicate Straight(c: seq<int>) {
    c == [] ||
    (!IsBranch(c[0]) && InstructionLength(c[0]) <= |c| && Straight(c[InstructionLength(c[0])..]))
  }

  lemma {:induction false} ShapedStraight(w: seq<int>, p: nat, c: seq<int>)
    requires At(w, p, c) && Straight(c)
    ensures Shaped(w, p, p + |c|) && (c != [] ==> Sealed(w, p, p + |c|))
    decreases |c|
  {
    NoBranches(w, p, c);
    if c != [] {
      var k := InstructionLength(c[0]);
      assert c == c[..k] + c[k..];
      AtParts(w, p, c[..k], c[k..]);
      ShapedPlain(w, p, c[..k]);
      ShapedStraight(w, p + k, c[k..]);
      ShapedJoin(w, p, p + k, p + |c|);
    }
  }

  /** There is no branch in straight-line code. */
  lemma {:induction false} NoBranches(w: seq<int>, p: nat, c: seq<int>)
    requires At(w, p, c) && Straight(c)
    ensures forall k :: p <= k < p + |c| && Boundary(w, p, k) ==> !IsBranch(w[k])
    decreases |c|
  {
    if c != [] {
      var n := InstructionLength(c[0]);
      assert c == c[..n] + c[n..];
      AtParts(w, p, c[..n], c[n..]);
      NoBranches(w, p + n, c[n..]);
      assert w[p] == w[p..p + |c|][0] == c[0];
      forall k | p <= k < p + |c| && Boundary(w, p, k)
        ensures !IsBranch(w[k])
      {
        if k != p {
          assert Boundary(w, p + n, k);
          BoundaryOrder(w, p + n, k);
        }
      }
    }
  }

  lemma {:induction false} StraightCat(c: seq<int>, d: seq<int>)
    requires Straight(c) && Straight(d)
    ensures Straight(c + d)
    decreases |c|
  {
    if c == [] {
      assert c + d == d;
    } else {
      var k := InstructionLength(c[0]);
      StraightCat(c[k..], d);
      assert (c + d)[k..] == c[k..] + d;
    }
  }

  lemma StraightPlain(c: seq<int>)
    requires Plain(c)
    ensures Straight(c)
  {
    assert c[InstructionLength(c[0])..] == [];
  }

  lemma StraightConstant(v: int, op: int)
    requires op > SI
    ensures Straight([PSH, IMM, v, op])
  {
    StraightPlain([PSH]);
    StraightPlain([IMM, v]);
    StraightPlain([op]);
    StraightCat([IMM, v], [op]);
    StraightCat([PSH], [IMM, v] + [op]);
    assert [PSH, IMM, v, op] == [PSH] + ([IMM, v] + [op]);
  }

  lemma StraightScale(ty: int, op: int)
    requires op > SI
    ensures Straight(ScaleCode(ty) + [op])
  {
    if ty > PTR {
      StraightConstant(Pointee(ty), MUL);
    }
    StraightPlain([op]);
    StraightCat(ScaleCode(ty), [op]);
  }

  lemma StraightBin(op: BinToken, tl: int, tr: int)
    ensures Straight(BinCode(op, tl, tr))
  {
    if op == TK_ADD {
      StraightScale(tl, ADD);
    } else if op == TK_SUB && IsDistance(tl, tr) {
      StraightPlain([SUB]);
      StraightConstant(Pointee(tl), DIV);
      StraightCat([SUB], [PSH, IMM, Pointee(tl), DIV]);
      assert BinCode(op, tl, tr) == [SUB] + [PSH, IMM, Pointee(tl), DIV];
    } else if op == TK_SUB {
      StraightScale(tl, SUB);
    } else {
      StraightPlain([Opcode(op)]);
    }
  }

  lemma StraightStep(up: bool, ty: int)
    ensures Straight(StepCode(up, ty))
  {
    var a, b, c, d := [PSH], [LI, Width(ty)], [PSH, IMM, StepOf(ty), StepOpcode(up)], [SI, Width(ty)];
    StraightPlain(a);
    StraightPlain(b);
    StraightConstant(StepOf(ty), StepOpcode(up));
    StraightPlain(d);
    StraightCat(c, d);
    StraightCat(b, c + d);
    StraightCat(a, b + (c + d));
    assert StepCode(up, ty) == a + (b + (c + d));
  }

  /** Shaped code followed by straight-line code. */
  lemma ShapedTail(w: seq<int>, p: nat, c: seq<int>, d: seq<int>)
    requires At(w, p, c + d) && Straight(d)
    requires Shaped(w, p, p + |c|)
    ensures Shaped(w, p, p + |c + d|) && (d != [] ==> Sealed(w, p, p + |c + d|))
  {
    AtParts(w, p, c, d);
    ShapedStraight(w, p + |c|, d);
    ShapedJoin(w, p, p + |c|, p + |c| + |d|);
    if d != [] {
      TailSeals(w, p, p + |c|, d);
    }
  }

  lemma TailSeals(w: seq<int>, p: nat, x: nat, d: seq<int>)
    requires Shaped(w, p, x) && At(w, x, d) && Straight(d) && d != []
    ensures Sealed(w, p, x + |d|)
  {
    hide At;
    NoBranches(w, x, d);
    forall k | p <= k < x + |d| && Boundary(w, p, k) && k + 1 < |w| && IsBranch(w[k])
      ensures w[k + 1] != x + |d|
    {
      if k < x {
        assert GoodBranch(w, p, x, k);
      } else {
        BoundaryChain(w, p, x, k);
      }
    }
  }

  /**
   * The code of a tree decodes into whole instructions, and every branch in it goes forward to an
   * instruction boundary inside or just behind it.
   */
  lemma {:induction false} CodeShaped(env: Env, t: Tree, w: seq<int>, p: nat)
    requires WellTyped(env, t) && At(w, p, Code(env, t, p))
    ensures Shaped(w, p, p + |Code(env, t, p)|) && (Sealed(w, p, p + |Code(env, t, p)|) <==> !Branches(t))
    decreases t, 3
  {
    hide Shaped, Sealed, At, Width, StepCode, BinCode, ScaleCode;
    match t
    case Lit(n) => StraightPlain([IMM, n]); ShapedStraight(w, p, [IMM, n]);
    case SizeOf(ty) => StraightPlain([IMM, Width(ty)]); ShapedStraight(w, p, [IMM, Width(ty)]);
    case Name(x) => NameShaped(env, t, w, p);
    case Paren(e) => CodeShaped(env, e, w, p);
    case Cast(_, e) => CodeShaped(env, e, w, p);
    case Deref(_) => LoadShaped(env, t, w, p);
    case AddrOf(e) => AddrShaped(env, e, w, p);
    case Un(_, _) => UnaryShaped(env, t, w, p);
    case Pre(_, _) => PreShaped(env, t, w, p);
    case Post(_, _) => PostShaped(env, t, w, p);
    case Assign(_, _) => AssignShaped(env, t, w, p);
    case Cond(_, _, _) => CondShaped(env, t, w, p);
    case Logic(_, _, _) => LogicShaped(env, t, w, p);
    case Bin(_, _, _) => BinShaped(env, t, w, p);
    case Index(_, _) => LoadShaped(env, t, w, p);
    case Call(_, _) => CallShaped(env, t, w, p);
  }

  lemma {:induction false} PreShaped(env: Env, t: Tree, w: seq<int>, p: nat)
    requires t.Pre? && WellTyped(env, t) && At(w, p, Code(env, t, p))
    ensures Shaped(w, p, p + |Code(env, t, p)|) && (Sealed(w, p, p + |Code(env, t, p)|) <==> !Branches(t))
    decreases t, 1
  {
    hide Shaped, Sealed, At, StepCode;
    var c, tail := AddrCode(env, t.e, p), StepCode(t.up, TypeOf(env, t.e));
    AtParts(w, p, c, tail);
    AddrShaped(env, t.e, w, p);
    StraightStep(t.up, TypeOf(env, t.e));
    StepCodeLength(t.up, TypeOf(env, t.e));
    ShapedTail(w, p, c, tail);
  }

  lemma {:induction false} CallShaped(env: Env, t: Tree, w: seq<int>, p: nat)
    requires t.Call? && WellTyped(env, t) && At(w, p, Code(env, t, p))
    ensures Shaped(w, p, p + |Code(env, t, p)|) && (Sealed(w, p, p + |Code(env, t, p)|) <==> !Branches(t))
    decreases t, 1
  {
    hide Shaped, Sealed, At;
    var c, tail := Code(env, t.e, p), [PSH, env[t.f].op, ADJ, 1];
    AtParts(w, p, c, tail);
    CodeShaped(env, t.e, w, p);
    StraightCall(env[t.f].op);
    ShapedTail(w, p, c, tail);
  }

  lemma StraightCall(op: int)
    requires op > SI
    ensures Straight([PSH, op, ADJ, 1])
  {
    StraightPlain([PSH]);
    StraightPlain([op]);
    StraightPlain([ADJ, 1]);
    StraightCat([op], [ADJ, 1]);
    StraightCat([PSH], [op] + [ADJ, 1]);
    assert [PSH, op, ADJ, 1] == [PSH] + ([op] + [ADJ, 1]);
  }

  lemma NameShaped(env: Env, t: Tree, w: seq<int>, p: nat)
    requires t.Name? && WellTyped(env, t) && At(w, p, Code(env, t, p))
    ensures Shaped(w, p, p + |Code(env, t, p)|) && (Sealed(w, p, p + |Code(env, t, p)|) <==> !Branches(t))
  {
    var x := t.x;
    StraightPlain([IMM, env[x].addr]);
    StraightPlain([LI, Width(env[x].elem)]);
    StraightCat([IMM, env[x].addr], [LI, Width(env[x].elem)]);
    assert env[x].isArray ==> Code(env, t, p) == [IMM, env[x].addr];
    ShapedStraight(w, p, Code(env, t, p));
  }

  lemma {:induction false} AddrShaped(env: Env, t: Tree, w: seq<int>, p: nat)
    requires WellTyped(env, t) && IsLvalue(env, t) && At(w, p, AddrCode(env, t, p))
    ensures Shaped(w, p, p + |AddrCode(env, t, p)|) && (Sealed(w, p, p + |AddrCode(env, t, p)|) <==> !AddrBranches(t))
    decreases t, 1
  {
    hide Shaped, Sealed, At;
    match t
    case Name(x) => StraightPlain([IMM, env[x].addr]); ShapedStraight(w, p, [IMM, env[x].addr]);
    case Paren(e) => AddrShaped(env, e, w, p);
    case Deref(e) => CodeShaped(env, e, w, p);
    case Index(_, _) => IndexShaped(env, t, w, p);
  }

  lemma {:induction false} IndexShaped(env: Env, t: Tree, w: seq<int>, p: nat)
    requires t.Index? && WellTyped(env, t) && At(w, p, AddrCode(env, t, p))
    ensures Shaped(w, p, p + |AddrCode(env, t, p)|) && (Sealed(w, p, p + |AddrCode(env, t, p)|) <==> !AddrBranches(t))
    decreases t, 0
  {
    hide Shaped, Sealed, At, ScaleCode;
    var cl := Code(env, t.l, p);
    var cr := Code(env, t.r, p + |cl| + 1);
    var tail := ScaleCode(TypeOf(env, t.l)) + [ADD];
    assert AddrCode(env, t, p) == cl + [PSH] + cr + tail;
    AtParts(w, p, cl + [PSH] + cr, tail);
    AtParts(w, p, cl + [PSH], cr);
    AtParts(w, p, cl, [PSH]);
    CodeShaped(env, t.l, w, p);
    CodeShaped(env, t.r, w, p + |cl| + 1);
    OperandsShaped(w, p, cl, cr);
    StraightScale(TypeOf(env, t.l), ADD);
    ShapedTail(w, p, cl + [PSH] + cr, tail);
  }

  lemma OperandsShaped(w: seq<int>, p: nat, cl: seq<int>, cr: seq<int>)
    requires At(w, p, cl + [PSH] + cr)
    requires Shaped(w, p, p + |cl|) && Shaped(w, p + |cl| + 1, p + |cl| + 1 + |cr|)
    ensures Shaped(w, p, p + |cl + [PSH] + cr|)
  {
    hide Shaped, Sealed, At;
    AtParts(w, p, cl + [PSH], cr);
    StraightPlain([PSH]);
    ShapedTail(w, p, cl, [PSH]);
    ShapedJoin(w, p, p + |cl| + 1, p + |cl| + 1 + |cr|);
  }

  lemma {:induction false} LoadShaped(env: Env, t: Tree, w: seq<int>, p: nat)
    requires (t.Deref? || t.Index?) && WellTyped(env, t) && At(w, p, Code(env, t, p))
    ensures Shaped(w, p, p + |Code(env, t, p)|) && (Sealed(w, p, p + |Code(env, t, p)|) <==> !Branches(t))
    decreases t, 2
  {
    hide Shaped, Sealed, At, Width;
    var c, tail := AddrCode(env, t, p), [LI, Width(TypeOf(env, t))];
    LvalueCode(env, t, p);
    AtParts(w, p, c, tail);
    AddrShaped(env, t, w, p);
    StraightPlain(tail);
    ShapedTail(w, p, c, tail);
  }

  lemma {:induction false} UnaryShaped(env: Env, t: Tree, w: seq<int>, p: nat)
    requires t.Un? && WellTyped(env, t) && At(w, p, Code(env, t, p))
    ensures Shaped(w, p, p + |Code(env, t, p)|) && (Sealed(w, p, p + |Code(env, t, p)|) <==> !Branches(t))
    decreases t, 1
  {
    hide Shaped, Sealed, At;
    if t.u.Minus? {
      MinusShaped(env, t, w, p);
    } else if t.u.Plus? {
      CodeShaped(env, t.e, w, p);
    } else {
      var c := Code(env, t.e, p);
      var tail := if t.u.Not? then [PSH, IMM, 0, EQ] else [PSH, IMM, -1, XOR];
      assert Code(env, t, p) == c + tail;
      AtParts(w, p, c, tail);
      CodeShaped(env, t.e, w, p);
      StraightConstant(0, EQ);
      StraightConstant(-1, XOR);
      ShapedTail(w, p, c, tail);
    }
  }

  lemma MinusCode(env: Env, t: Tree, p: nat)
    requires t.Un? && t.u.Minus? && WellTyped(env, t) && !t.e.Lit?
    ensures WellTyped(env, t.e) && Code(env, t, p) == [IMM, -1, PSH] + Code(env, t.e, p + 3) + [MUL]
  {
    hide AddrCode;
  }

  lemma {:induction false} MinusShaped(env: Env, t: Tree, w: seq<int>, p: nat)
    requires t.Un? && t.u.Minus? && WellTyped(env, t) && At(w, p, Code(env, t, p))
    ensures Shaped(w, p, p + |Code(env, t, p)|) && (Sealed(w, p, p + |Code(env, t, p)|) <==> !Branches(t))
    decreases t, 0
  {
    hide Shaped, Sealed, At, Negated;
    if t.e.Lit? {
      StraightPlain([IMM, Negated(t.e.n)]);
      ShapedStraight(w, p, [IMM, Negated(t.e.n)]);
    } else {
      MinusCode(env, t, p);
      hide Code, WellTyped;
      var c, front := Code(env, t.e, p + 3), [IMM, -1, PSH];
      AtParts(w, p, front + c, [MUL]);
      AtParts(w, p, front, c);
      StraightPlain([IMM, -1]);
      StraightPlain([PSH]);
      StraightCat([IMM, -1], [PSH]);
      assert front == [IMM, -1] + [PSH];
      ShapedStraight(w, p, front);
      CodeShaped(env, t.e, w, p + 3);
      ShapedJoin(w, p, p + 3, p + 3 + |c|);
      StraightPlain([MUL]);
      ShapedTail(w, p, front + c, [MUL]);
    }
  }

  lemma {:induction false} PostShaped(env: Env, t: Tree, w: seq<int>, p: nat)
    requires t.Post? && WellTyped(env, t) && At(w, p, Code(env, t, p))
    ensures Shaped(w, p, p + |Code(env, t, p)|) && (Sealed(w, p, p + |Code(env, t, p)|) <==> !Branches(t))
    decreases t, 1
  {
    hide Shaped, Sealed, At, StepCode;
    var c, ty := AddrCode(env, t.e, p), TypeOf(env, t.e);
    var tail := [PSH, IMM, StepOf(ty), StepOpcode(!t.up)];
    AtParts(w, p, c + StepCode(t.up, ty), tail);
    AtParts(w, p, c, StepCode(t.up, ty));
    AddrShaped(env, t.e, w, p);
    StraightStep(t.up, ty);
    ShapedTail(w, p, c, StepCode(t.up, ty));
    StraightConstant(StepOf(ty), StepOpcode(!t.up));
    ShapedTail(w, p, c + StepCode(t.up, ty), tail);
  }

  lemma {:induction false} AssignShaped(env: Env, t: Tree, w: seq<int>, p: nat)
    requires t.Assign? && WellTyped(env, t) && At(w, p, Code(env, t, p))
    ensures Shaped(w, p, p + |Code(env, t, p)|) && (Sealed(w, p, p + |Code(env, t, p)|) <==> !Branches(t))
    decreases t, 1
  {
    hide Shaped, Sealed, At, Width;
    var c := AddrCode(env, t.l, p);
    var cr := Code(env, t.r, p + |c| + 1);
    var tail := [SI, Width(TypeOf(env, t.l))];
    AtParts(w, p, c + [PSH] + cr, tail);
    AtParts(w, p, c + [PSH], cr);
    AtParts(w, p, c, [PSH]);
    AddrShaped(env, t.l, w, p);
    CodeShaped(env, t.r, w, p + |c| + 1);
    OperandsShaped(w, p, c, cr);
    StraightPlain(tail);
    ShapedTail(w, p, c + [PSH] + cr, tail);
  }

  lemma {:induction false} BinShaped(env: Env, t: Tree, w: seq<int>, p: nat)
    requires t.Bin? && WellTyped(env, t) && At(w, p, Code(env, t, p))
    ensures Shaped(w, p, p + |Code(env, t, p)|) && (Sealed(w, p, p + |Code(env, t, p)|) <==> !Branches(t))
    decreases t, 1
  {
    hide Shaped, Sealed, At, BinCode;
    var cl := Code(env, t.l, p);
    var cr := Code(env, t.r, p + |cl| + 1);
    var tail := BinCode(t.op, TypeOf(env, t.l), TypeOf(env, t.r));
    AtParts(w, p, cl + [PSH] + cr, tail);
    AtParts(w, p, cl + [PSH], cr);
    AtParts(w, p, cl, [PSH]);
    CodeShaped(env, t.l, w, p);
    CodeShaped(env, t.r, w, p + |cl| + 1);
    OperandsShaped(w, p, cl, cr);
    StraightBin(t.op, TypeOf(env, t.l), TypeOf(env, t.r));
    ShapedTail(w, p, cl + [PSH] + cr, tail);
  }

  /** Code, a branch over more code, and that code. */
  lemma BranchShaped(w: seq<int>, p: nat, c: seq<int>, op: int, target: int, d: seq<int>)
    requires IsBranch(op) && At(w, p, c + [op, target] + d)
    requires Shaped(w, p, p + |c|)
    requires var b := p + |c| + 2;
             Shaped(w, b, b + |d|) && b + 2 <= target <= b + |d| && Boundary(w, b, target)
    ensures Shaped(w, p, p + |c + [op, target] + d|)
    ensures var b, end := p + |c| + 2, p + |c + [op, target] + d|;
            target == end || !Sealed(w, b, end) ==> !Sealed(w, p, end)
  {
    hide Shaped, Sealed, Boundary;
    AtParts(w, p, c + [op, target], d);
    AtParts(w, p, c, [op, target]);
    var q := p + |c|;
    assert w[q] == w[q..q + 2][0] && w[q + 1] == w[q..q + 2][1];
    ShapedBranch(w, q, q + 2 + |d|);
    ShapedJoin(w, p, q, q + 2 + |d|);
    BranchUnseals(w, p, q, q + 2 + |d|);
  }

  lemma BranchUnseals(w: seq<int>, p: nat, q: nat, hi: nat)
    requires Shaped(w, p, q) && q + 1 < |w| && IsBranch(w[q]) && q < hi
    ensures w[q + 1] == hi || !Sealed(w, q + 2, hi) ==> !Sealed(w, p, hi)
  {
    BoundaryOrder(w, p, q);
    if !Sealed(w, q + 2, hi) {
      var k :| q + 2 <= k < hi && Boundary(w, q + 2, k) && k + 1 < |w| && IsBranch(w[k]) && w[k + 1] == hi;
      assert Boundary(w, q, q + 2);
      BoundaryTrans(w, q, q + 2, k);
      BoundaryTrans(w, p, q, k);
    }
  }

  lemma ShapedEnds(w: seq<int>, lo: nat, hi: nat)
    requires Shaped(w, lo, hi)
    ensures Boundary(w, lo, hi) && lo <= hi <= |w|
  {
    BoundaryOrder(w, lo, hi);
  }

  lemma {:induction false} LogicShaped(env: Env, t: Tree, w: seq<int>, p: nat)
    requires t.Logic? && WellTyped(env, t) && At(w, p, Code(env, t, p))
    ensures Shaped(w, p, p + |Code(env, t, p)|) && (Sealed(w, p, p + |Code(env, t, p)|) <==> !Branches(t))
    decreases t, 1
  {
    hide Shaped, Sealed, At, Boundary, Code, Value, Depth, WellTyped;
    LogicUnfold(env, t, p, map[]);
    var cl := Code(env, t.l, p);
    var cr := Code(env, t.r, p + |cl| + 2);
    var op, end := if t.or then BNZ else BZ, p + |cl| + 2 + |cr|;
    AtParts(w, p, cl + [op, end], cr);
    AtParts(w, p, cl, [op, end]);
    CodeShaped(env, t.l, w, p);
    CodeShaped(env, t.r, w, p + |cl| + 2);
    ShapedEnds(w, p + |cl| + 2, end);
    CodeLength(env, t.r, p + |cl| + 2);
    BranchShaped(w, p, cl, op, end, cr);
  }

  lemma {:induction false} CondShaped(env: Env, t: Tree, w: seq<int>, p: nat)
    requires t.Cond? && WellTyped(env, t) && At(w, p, Code(env, t, p))
    ensures Shaped(w, p, p + |Code(env, t, p)|) && (Sealed(w, p, p + |Code(env, t, p)|) <==> !Branches(t))
    decreases t, 1
  {
    hide Shaped, Sealed, At, Boundary, Code, Value, Depth, WellTyped;
    CondUnfold(env, t, p, map[]);
    var cc := Code(env, t.c, p);
    var q := p + |cc| + 2;
    var cl := Code(env, t.l, q);
    var skip := q + |cl| + 2;
    var cr := Code(env, t.r, skip);
    var end := skip + |cr|;
    var rest := cl + [JMP, end] + cr;
    assert Code(env, t, p) == cc + [BZ, skip] + rest;
    AtParts(w, p, cc + [BZ, skip], rest);
    AtParts(w, p, cc, [BZ, skip]);
    AtParts(w, q, cl + [JMP, end], cr);
    AtParts(w, q, cl, [JMP, end]);
    CodeShaped(env, t.c, w, p);
    CodeShaped(env, t.l, w, q);
    CodeShaped(env, t.r, w, skip);
    ShapedEnds(w, skip, end);
    CodeLength(env, t.r, skip);
    BranchShaped(w, q, cl, JMP, end, cr);
    ElseIsBoundary(w, q, cl, end);
    BranchShaped(w, p, cc, BZ, skip, rest);
  }

  lemma ElseIsBoundary(w: seq<int>, q: nat, cl: seq<int>, end: int)
    requires Shaped(w, q, q + |cl|) && At(w, q + |cl|, [JMP, end])
    ensures Boundary(w, q, q + |cl| + 2)
  {
    var j := q + |cl|;
    assert w[j] == w[j..j + 2][0];
    assert Boundary(w, j, j + 2);
    BoundaryTrans(w, q, j, j + 2);
  }

  lemma {:induction false} ProgramShaped(env: Env, ts: seq<Tree>, w: seq<int>, p: nat)
    requires AllWellTyped(env, ts) && At(w, p, ProgramCode(env, ts, p))
    ensures Shaped(w, p, p + |ProgramCode(env, ts, p)|)
    decreases |ts|
  {
    hide Code, WellTyped;
    if ts != [] {
      var c := Code(env, ts[0], p);
      AtParts(w, p, c, ProgramCode(env, ts[1..], p + |c|));
      CodeShaped(env, ts[0], w, p);
      ProgramShaped(env, ts[1..], w, p + |c|);
      ShapedJoin(w, p, p + |c|, p + |ProgramCode(env, ts, p)|);
    }
  }

  /** The whole image decodes from word 1 to its end with forward branches only. */
  lemma ImageShaped(env: Env, ts: seq<Tree>)
    requires AllWellTyped(env, ts)
    ensures Shaped(Image(env, ts), 1, |Image(env, ts)|)
  {
    hide Shaped;
    var w, c := Image(env, ts), ProgramCode(env, ts, 1);
    assert At(w, 1, c + [EXIT]);
    assert At(w, 1, c);
    ProgramShaped(env, ts, w, 1);
    StraightPlain([EXIT]);
    ShapedTail(w, 1, c, [EXIT]);
  }

  // ---- expr_run -------------------------------------------------------------------------------

  /** On shaped code a step moves forward to another boundary, or stops. */
  lemma StepAdvances(w: seq<int>, s: Machine)
    requires Shaped(w, 1, |w|) && 1 <= s.pc < |w| && Boundary(w, 1, s.pc)
    ensures Step(w, s).Running? ==> s.pc < Step(w, s).vm.pc <= |w| && Boundary(w, 1, Step(w, s).vm.pc)
  {
    hide Alu, Load, Store, Builtin;
    assert GoodBranch(w, 1, |w|, s.pc);
    var k := InstructionLength(w[s.pc]);
    if s.pc + k <= |w| {
      assert Boundary(w, s.pc, s.pc + k);
      BoundaryTrans(w, 1, s.pc, s.pc + k);
    }
  }

  /** expr_run: the loop halts because every step goes forward. */
  method ExprRun(w: seq<int>, m: Memory) returns (o: Outcome)
    requires Shaped(w, 1, |w|)
    ensures !o.Running?
    ensures o == Steps(w, Running(Start(m)), |w|)
  {
    hide Step, Boundary, Shaped;
    var s := Start(m);
    ghost var n := 0;
    BoundaryStart(w);
    StepsZero(w, Running(s));
    while true
      invariant n + 1 <= s.pc <= |w| && Boundary(w, 1, s.pc)
      invariant Steps(w, Running(Start(m)), n) == Running(s)
      decreases |w| - s.pc
    {
      if s.pc == |w| {
        StepPastEnd(w, s);
      } else {
        StepAdvances(w, s);
      }
      o := Step(w, s);
      StepsAdd(w, Running(Start(m)), n, 1);
      StepsZero(w, o);
      n := n + 1;
      match o
      case Running(t) => s := t;
      case _ =>
        StepsAdd(w, Running(Start(m)), n, |w| - n);
        return;
    }
  }

  lemma BoundaryStart(w: seq<int>)
    requires Shaped(w, 1, |w|)
    ensures 1 <= |w| && Boundary(w, 1, 1)
  {
    BoundaryOrder(w, 1, |w|);
  }

  lemma StepsZero(w: seq<int>, o: Outcome)
    ensures Steps(w, o, 0) == o
  {
  }

  lemma StepPastEnd(w: seq<int>, s: Machine)
    requires s.pc >= |w|
    ensures Step(w, s) == Fault
  {
  }

  /** Compiled programs satisfy expr_run's needs, and it returns their value. */
  method RunCompiled(env: Env, ts: seq<Tree>, m: Memory) returns (o: Outcome)
    requires GoodEnv(env) && AllWellTyped(env, ts) && FitsStack(ts)
    ensures o == Expected(ProgramValue(env, ts, 0, m))
  {
    ImageShaped(env, ts);
    ImageCorrect(env, ts, m);
    o := ExprRun(Image(env, ts), m);
  }
}
