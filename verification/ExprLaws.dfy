/** What expressions evaluate to, in plain arithmetic and with the sizes of C's types written out. */
module ExprLaws {
  import opened Common
  import opened Words
  import opened WordLaws
  import opened ExprSyntax

  // ---- types in numbers -----------------------------------------------------------------------------

  /** The size of a value: 1, 2, 4 or 8 bytes for char, short, int and long, 8 for every pointer. */
  predicate Sized(ty: int, k: nat) {
    (ty == 0 && k == 1) || (ty == 1 && k == 2) || (ty == 2 && k == 4) || (ty == 3 && k == 8) || (ty >= 8 && k == 8)
  }

  lemma SizeIs(ty: int)
    requires GoodType(ty)
    ensures Width(ty) in {1, 2, 4, 8} && Sized(ty, Width(ty))
  {
  }

  /** The same of what a pointer points to, by which indices, offsets, ++ and -- are scaled; other values step by 1. */
  lemma StrideIs(ty: int)
    requires GoodType(ty)
    ensures ty >= 8 ==> Sized(ty - 8, Pointee(ty)) && StepOf(ty) == Pointee(ty)
    ensures ty < 8 ==> StepOf(ty) == 1
    ensures forall i :: IsWord(i) ==> Scaled(ty, i) == Wrap(i * StepOf(ty))
  {
    hide Wrap;
    forall i | IsWord(i)
      ensures Scaled(ty, i) == Wrap(i * StepOf(ty))
    {
      if ty > 8 {
      } else {
        assert i * 1 == i && StepOf(ty) == 1;
      }
    }
  }

  // ---- fields -----------------------------------------------------------------------------------------

  predicate Field(env: Env, x: string, elem: int, k: nat) {
    x in env && env[x].Global? && !env[x].isArray && env[x].elem == elem && 0 <= elem <= 3 && Sized(elem, k)
  }

  /** A field is read as the signed number that is in memory. */
  lemma FieldReads(env: Env, x: string, elem: int, k: nat, m: Memory, v: int)
    requires Field(env, x, elem, k) && InRange(v, k)
    ensures var m1 := Store(m, env[x].addr, k, v); Value(env, Name(x), m1) == Val(v, m1)
  {
    RoundTrip(m, env[x].addr, k, v);
  }

  /**
   * An assignment has the value of its right side; the field then holds it, or what is left of it, and no
   * byte outside the field has changed.
   */
  lemma AssignReads(env: Env, x: string, elem: int, k: nat, r: Tree, m: Memory, v: int, m1: Memory)
    requires Field(env, x, elem, k) && WellTyped(env, r) && Value(env, r, m) == Val(v, m1)
    ensures WellTyped(env, Assign(Name(x), r))
    ensures var e := Value(env, Assign(Name(x), r), m);
            && e.Val? && e.v == v
            && (forall b :: b < env[x].addr || env[x].addr + k <= b ==> ByteAt(e.mem, b) == ByteAt(m1, b))
            && var f := Value(env, Name(x), e.mem);
               f.Val? && f.mem == e.mem && InRange(f.v, k) && (f.v - v) % Span(k) == 0 && (InRange(v, k) ==> f.v == v)
  {
    hide Store, Load, InRange, Span, ByteAt;
    var a := env[x].addr;
    Truncates(m1, a, k, v);
    LoadRange(Store(m1, a, k, v), a, k);
    if InRange(v, k) {
      RoundTrip(m1, a, k, v);
    }
    forall b | b < a || a + k <= b
      ensures ByteAt(Store(m1, a, k, v), b) == ByteAt(m1, b)
    {
      StoreElsewhere(m1, a, k, v, b);
    }
  }

  // ---- locations ----------------------------------------------------------------------------------------

  /** The value of a location is what is stored there, in the size of its type. */
  lemma {:induction false} LocationReads(env: Env, e: Tree, m: Memory)
    requires WellTyped(env, e) && IsLvalue(env, e)
    ensures Location(env, e, m).Trap? ==> Value(env, e, m).Trap?
    ensures var l := Location(env, e, m); l.Val? ==> Value(env, e, m) == Val(Load(l.mem, l.v, Width(TypeOf(env, e))), l.mem)
    decreases e
  {
    hide Load, Width;
    if e.Paren? {
      LocationReads(env, e.e, m);
    }
  }

  /** `*` and `&` undo each other. */
  lemma DerefAddrOf(env: Env, e: Tree, m: Memory)
    requires WellTyped(env, e) && IsLvalue(env, e) && TypeOf(env, e) >= 0
    ensures WellTyped(env, Deref(AddrOf(e))) && Value(env, Deref(AddrOf(e)), m) == Value(env, e, m)
  {
    hide Load, Width;
    LocationReads(env, e, m);
    assert Location(env, Deref(AddrOf(e)), m) == Value(env, AddrOf(e), m);
    assert Value(env, AddrOf(e), m) == Location(env, e, m);
  }

  lemma AddrOfDeref(env: Env, e: Tree, m: Memory)
    requires WellTyped(env, Deref(e))
    ensures WellTyped(env, AddrOf(Deref(e))) && Value(env, AddrOf(Deref(e)), m) == Value(env, e, m)
    ensures TypeOf(env, AddrOf(Deref(e))) == TypeOf(env, e)
  {
  }

  /** `l[r]` is `*(l + r)`. */
  lemma IndexIsDeref(env: Env, l: Tree, r: Tree, m: Memory)
    requires WellTyped(env, Index(l, r))
    ensures WellTyped(env, Deref(Bin(TK_ADD, l, r)))
    ensures Value(env, Index(l, r), m) == Value(env, Deref(Bin(TK_ADD, l, r)), m)
  {
    hide Load, Width, Scaled, Wrap;
    assert Location(env, Deref(Bin(TK_ADD, l, r)), m) == Value(env, Bin(TK_ADD, l, r), m);
    assert Value(env, Bin(TK_ADD, l, r), m) == Location(env, Index(l, r), m);
  }

  /** Element i of an array field lies i elements behind its first. */
  lemma ElementReads(env: Env, x: string, elem: int, k: nat, r: Tree, m: Memory, i: int, m1: Memory, v: int)
    requires x in env && env[x].Global? && env[x].isArray && env[x].elem == elem && 0 <= elem <= 3 && Sized(elem, k)
    requires WellTyped(env, r) && IsWord(i) && IsWord(env[x].addr + i * k) && IsWord(i * k) && InRange(v, k)
    requires Value(env, r, m) == Val(i, Store(m1, env[x].addr + i * k, k, v))
    ensures WellTyped(env, Index(Name(x), r))
    ensures Value(env, Index(Name(x), r), m) == Val(v, Store(m1, env[x].addr + i * k, k, v))
  {
    hide Store, Load, InRange, Scaled, Wrap, Pointee;
    StrideIs(elem + 8);
    SizeIs(elem);
    assert Sized(elem, Pointee(elem + 8)) && Pointee(elem + 8) == k;
    assert Wrap(i * k) == i * k && Wrap(env[x].addr + i * k) == env[x].addr + i * k;
    RoundTrip(m1, env[x].addr + i * k, k, v);
    assert TypeOf(env, Name(x)) == elem + 8;
    assert Location(env, Index(Name(x), r), m) == Val(env[x].addr + i * k, Store(m1, env[x].addr + i * k, k, v));
  }

  // ---- ++ and -- --------------------------------------------------------------------------------------------

  /** The value one step on or back. */
  function Moved(up: bool, x: int, d: nat): int { Wrap(if up then x + d else x - d) }

  lemma MovedIs(up: bool, x: int, d: nat)
    ensures IsWord(Moved(up, x, d)) && (Moved(up, x, d) - (if up then x + d else x - d)) % 0x1_0000_0000_0000_0000 == 0
  {
    hide Wrap;
    WrapIs(x + d);
    WrapIs(x - d);
  }

  /**
   * `++` and `--` store the value one more or less, for a pointer one element further; before the location
   * they give the new value, behind it the old one.
   */
  lemma Steps(env: Env, e: Tree, up: bool, m: Memory, a: int, m1: Memory, k: nat, d: nat)
    requires WellTyped(env, e) && IsLvalue(env, e) && GoodType(TypeOf(env, e)) && Location(env, e, m) == Val(a, m1)
    requires Sized(TypeOf(env, e), k) && if TypeOf(env, e) < 8 then d == 1 else Sized(TypeOf(env, e) - 8, d)
    ensures var x := Load(m1, a, k);
            var y := Moved(up, x, d);
            && Value(env, Pre(up, e), m) == Val(y, Store(m1, a, k, y))
            && Value(env, Post(up, e), m) == Val(x, Store(m1, a, k, y))
  {
    hide *;
    StepIs(TypeOf(env, e), k, d);
    StepTree(env, e, up);
    PreIs(env, Pre(up, e), m, a, m1);
    PostIs(env, Post(up, e), m, a, m1);
  }

  lemma StepTree(env: Env, e: Tree, up: bool)
    requires WellTyped(env, e) && IsLvalue(env, e)
    ensures WellTyped(env, Pre(up, e)) && WellTyped(env, Post(up, e))
  {
  }

  lemma PreIs(env: Env, t: Tree, m: Memory, a: int, m1: Memory)
    requires t.Pre? && WellTyped(env, t) && Location(env, t.e, m) == Val(a, m1)
    ensures var k := Width(TypeOf(env, t.e));
            k >= 0 && StepOf(TypeOf(env, t.e)) >= 0 && var y := Moved(t.up, Load(m1, a, k), StepOf(TypeOf(env, t.e)));
            Value(env, t, m) == Val(y, Store(m1, a, k, y))
  {
    hide Load, Store, Wrap;
  }

  lemma PostIs(env: Env, t: Tree, m: Memory, a: int, m1: Memory)
    requires t.Post? && WellTyped(env, t) && Location(env, t.e, m) == Val(a, m1)
    ensures var k := Width(TypeOf(env, t.e));
            k >= 0 && StepOf(TypeOf(env, t.e)) >= 0 && var y := Moved(t.up, Load(m1, a, k), StepOf(TypeOf(env, t.e)));
            Value(env, t, m) == Val(Load(m1, a, k), Store(m1, a, k, y))
  {
    hide Load, Store, Wrap;
  }

  lemma StepIs(ty: int, k: nat, d: nat)
    requires GoodType(ty) && Sized(ty, k) && if ty < 8 then d == 1 else Sized(ty - 8, d)
    ensures Width(ty) == k && StepOf(ty) == d
  {
  }

  /** A field that can hold the next value holds it afterwards. */
  lemma FieldSteps(env: Env, x: string, elem: int, k: nat, up: bool, m: Memory, v: int)
    requires Field(env, x, elem, k) && InRange(v, k) && InRange(if up then v + 1 else v - 1, k)
    requires Value(env, Name(x), m) == Val(v, m)
    ensures var y := if up then v + 1 else v - 1;
            var pre, post := Value(env, Pre(up, Name(x)), m), Value(env, Post(up, Name(x)), m);
            && post.Val? && post.v == v && pre == Val(y, post.mem) && Value(env, Name(x), pre.mem) == Val(y, pre.mem)
  {
    hide Load, Store, Wrap;
    var y := if up then v + 1 else v - 1;
    assert IsWord(y);
    RoundTrip(m, env[x].addr, k, y);
  }

  // ---- pointers ---------------------------------------------------------------------------------------------

  /** Adding an integer to a pointer moves it by that many elements. */
  lemma PointerMoves(tl: int, tr: int, d: nat, x: int, i: int)
    requires GoodType(tl) && tl >= 8 && Sized(tl - 8, d) && IsWord(x) && IsWord(i)
    ensures var r := Arith(TK_ADD, tl, tr, x, i);
            r.Some? && IsWord(r.value) && (r.value - (x + i * d)) % 0x1_0000_0000_0000_0000 == 0
    ensures tl != tr || tl == 8 ==> var r := Arith(TK_SUB, tl, tr, x, i);
                                    r.Some? && IsWord(r.value) && (r.value - (x - i * d)) % 0x1_0000_0000_0000_0000 == 0
  {
    hide Wrap, Scaled, Pointee, StepOf;
    StrideIs(tl);
    assert StepOf(tl) == d;
    var p := i * d;
    Twice(x, p);
    assert Scaled(tl, i) == Wrap(p);
  }

  lemma Twice(x: int, p: int)
    ensures (Wrap(x + Wrap(p)) - (x + p)) % 0x1_0000_0000_0000_0000 == 0
    ensures (Wrap(x - Wrap(p)) - (x - p)) % 0x1_0000_0000_0000_0000 == 0
  {
    hide Wrap;
    WrapIs(p);
    WrapIs(x + Wrap(p));
    WrapIs(x - Wrap(p));
    var q, s, t := (Wrap(p) - p) / TWO_64, (Wrap(x + Wrap(p)) - (x + Wrap(p))) / TWO_64, (Wrap(x - Wrap(p)) - (x - Wrap(p))) / TWO_64;
    DivModIs(Wrap(x + Wrap(p)) - (x + p), TWO_64, q + s, 0);
    DivModIs(Wrap(x - Wrap(p)) - (x - p), TWO_64, t - q, 0);
  }

  /** The difference of two pointers to wider elements than char is the number of elements between them. */
  lemma PointersApart(ty: int, d: nat, a: int, i: int, j: int)
    requires GoodType(ty) && ty > 8 && Sized(ty - 8, d) && IsWord((i - j) * d)
    ensures Arith(TK_SUB, ty, ty, a + i * d, a + j * d) == Some(i - j)
  {
    hide Wrap, Pointee, TruncDiv;
    StrideIs(ty);
    assert Pointee(ty) == d;
    assert (a + i * d) - (a + j * d) == (i - j) * d;
    ExactQuotient(i - j, d);
  }

  lemma ExactQuotient(n: int, d: nat)
    requires d > 0
    ensures TruncDiv(n * d, d) == n
  {
    if n >= 0 {
      DivModIs(n * d, d, n, 0);
      assert n * d >= 0;
    } else {
      assert (-n) * d == -(n * d) && (-n) * d > 0;
      DivModIs((-n) * d, d, -n, 0);
    }
  }

  // ---- control ------------------------------------------------------------------------------------------------

  /** `||` and `&&`: the right side is left alone when the left decides; the result is true as the operator says. */
  lemma LogicMeans(env: Env, l: Tree, r: Tree, m: Memory, x: int, m1: Memory)
    requires WellTyped(env, l) && WellTyped(env, r) && Value(env, l, m) == Val(x, m1)
    ensures var e := Value(env, Logic(true, l, r), m);
            && (x != 0 ==> e.Val? && e.v != 0 && e.mem == m1) && (x == 0 ==> e == Value(env, r, m1))
    ensures var e := Value(env, Logic(false, l, r), m);
            && (x == 0 ==> e == Val(0, m1)) && (x != 0 ==> e == Value(env, r, m1))
  {
  }

  /** `?:` takes one of its branches. */
  lemma CondMeans(env: Env, c: Tree, l: Tree, r: Tree, m: Memory, x: int, m1: Memory)
    requires WellTyped(env, Cond(c, l, r)) && Value(env, c, m) == Val(x, m1)
    ensures x != 0 ==> Value(env, Cond(c, l, r), m) == Value(env, l, m1)
    ensures x == 0 ==> Value(env, Cond(c, l, r), m) == Value(env, r, m1)
  {
  }

  // ---- operators on numbers -------------------------------------------------------------------------------------

  /** The prefix operators. */
  lemma UnaryMeans(env: Env, e: Tree, m: Memory, x: int, m1: Memory)
    requires WellTyped(env, e) && Value(env, e, m) == Val(x, m1) && IsWord(x)
    ensures Value(env, Un(Not, e), m) == Val(if x == 0 then 1 else 0, m1)
    ensures Value(env, Un(ExprSyntax.Complement, e), m) == Val(-1 - x, m1)
    ensures Value(env, Un(Plus, e), m) == Val(x, m1)
    ensures Value(env, Un(Minus, e), m) == Val(if x == -0x8000_0000_0000_0000 then x else -x, m1)
  {
    hide *;
    AluComplement(x);
    NegatedIs(x);
    UnIs(env, Un(Not, e), m, x, m1);
    UnIs(env, Un(ExprSyntax.Complement, e), m, x, m1);
    UnIs(env, Un(Plus, e), m, x, m1);
    UnIs(env, Un(Minus, e), m, x, m1);
  }

  lemma UnIs(env: Env, t: Tree, m: Memory, x: int, m1: Memory)
    requires t.Un? && WellTyped(env, t.e) && Value(env, t.e, m) == Val(x, m1)
    ensures WellTyped(env, t)
    ensures t.u == Not ==> Value(env, t, m) == Val(if x == 0 then 1 else 0, m1)
    ensures t.u == ExprSyntax.Complement ==> (forall r :: Alu(XOR, x, -1) == Some(r) ==> Value(env, t, m) == Val(r, m1))
    ensures t.u == Plus ==> Value(env, t, m) == Val(x, m1)
    ensures t.u == Minus ==> Value(env, t, m) == Val(Negated(x), m1)
  {
    hide Alu, Negated;
  }

  lemma AluComplement(x: int)
    requires IsWord(x)
    ensures Alu(XOR, x, -1) == Some(-1 - x)
  {
    hide Bitwise;
    WordLaws.Complement(x);
  }

  lemma NegatedIs(x: int)
    requires IsWord(x)
    ensures Negated(x) == if x == -0x8000_0000_0000_0000 then x else -x
  {
  }

  /** Operands are evaluated left to right; the operator is applied to their values. */
  lemma BinMeans(env: Env, op: BinToken, l: Tree, r: Tree, m: Memory, x: int, m1: Memory, y: int, m2: Memory)
    requires WellTyped(env, Bin(op, l, r)) && TypeOf(env, l) < 8
    requires Value(env, l, m) == Val(x, m1) && Value(env, r, m1) == Val(y, m2) && IsWord(x) && IsWord(y)
    ensures Value(env, Bin(op, l, r), m) == if Apply(op, x, y).Some? then Val(Apply(op, x, y).value, m2) else Trap
  {
    hide *;
    PlainArith(op, TypeOf(env, l), TypeOf(env, r), x, y);
    BinIs(env, Bin(op, l, r), m, x, m1, y, m2);
  }

  lemma BinIs(env: Env, t: Tree, m: Memory, x: int, m1: Memory, y: int, m2: Memory)
    requires t.Bin? && WellTyped(env, t) && Value(env, t.l, m) == Val(x, m1) && Value(env, t.r, m1) == Val(y, m2)
    ensures var a := Arith(t.op, TypeOf(env, t.l), TypeOf(env, t.r), x, y);
            Value(env, t, m) == if a.Some? then Val(a.value, m2) else Trap
  {
    hide Arith;
  }

  lemma PlainArith(op: BinToken, tl: int, tr: int, x: int, y: int)
    requires tl < 8
    ensures Arith(op, tl, tr, x, y) == Apply(op, x, y)
  {
    hide Wrap, Bitwise, TruncDiv, Pow2;
  }

  /** Comparisons. */
  lemma Compares(x: int, y: int)
    ensures Apply(TK_EQ, x, y) == Some(if x == y then 1 else 0) && Apply(TK_NE, x, y) == Some(if x != y then 1 else 0)
    ensures Apply(TK_LT, x, y) == Some(if x < y then 1 else 0) && Apply(TK_GT, x, y) == Some(if x > y then 1 else 0)
    ensures Apply(TK_LE, x, y) == Some(if x <= y then 1 else 0) && Apply(TK_GE, x, y) == Some(if x >= y then 1 else 0)
  {
  }

  predicate Modulo64(r: Option<int>, exact: int) {
    r.Some? && IsWord(r.value) && (r.value - exact) % 0x1_0000_0000_0000_0000 == 0
  }

  /** Sums, differences and products wrap. */
  lemma Wraps(x: int, y: int)
    ensures Modulo64(Apply(TK_ADD, x, y), x + y) && Modulo64(Apply(TK_SUB, x, y), x - y) && Modulo64(Apply(TK_MUL, x, y), x * y)
  {
    hide Wrap, Pow2, Bitwise, TruncDiv;
    WrapIs(x + y);
    WrapIs(x - y);
    WrapIs(x * y);
  }

  /** So do left shifts; a right shift rounds down. */
  lemma Shifts(x: int, n: nat)
    requires n < 64
    ensures Modulo64(Apply(TK_SHL, x, n), x * Pow2(n))
    ensures var r := Apply(TK_SHR, x, n); r.Some? && r.value * Pow2(n) <= x < (r.value + 1) * Pow2(n)
  {
    hide Wrap, Pow2, Apply;
    ShiftIs(x, n);
    WrapIs(x * Pow2(n));
    RoundedDown(x, Pow2(n));
  }

  lemma ShiftIs(x: int, n: nat)
    requires n < 64
    ensures Apply(TK_SHL, x, n) == Some(Wrap(x * Pow2(n))) && Apply(TK_SHR, x, n) == Some(x / Pow2(n))
  {
    hide Wrap, Pow2, Bitwise, TruncDiv;
    assert n % 64 == n;
  }

  /** Division fails for a zero divisor and for the one quotient that does not fit; otherwise it truncates. */
  lemma Divides(x: int, y: int)
    requires IsWord(x) && IsWord(y)
    ensures var q, r := Apply(TK_DIV, x, y), Apply(TK_MOD, x, y);
            && (q.None? <==> y == 0 || (x == -0x8000_0000_0000_0000 && y == -1)) && (r.None? <==> q.None?)
            && (q.Some? ==>
                  && x == y * q.value + r.value
                  && (x >= 0 ==> r.value >= 0) && (x <= 0 ==> r.value <= 0)
                  && (y > 0 ==> -y < r.value < y) && (y < 0 ==> y < r.value < -y))
  {
    hide Wrap, Pow2, Bitwise, TruncDiv;
    if y != 0 {
      Truncated(x, y);
    }
  }

  /** `|`, `^` and `&` bit by bit. */
  lemma CombinesBits(x: int, y: int, i: nat)
    requires i < 64
    ensures var r := Apply(TK_OR, x, y); r.Some? && (BitAt(r.value, i) <==> BitAt(x, i) || BitAt(y, i))
    ensures var r := Apply(TK_XOR, x, y); r.Some? && (BitAt(r.value, i) <==> (BitAt(x, i) <==> !BitAt(y, i)))
    ensures var r := Apply(TK_AND, x, y); r.Some? && (BitAt(r.value, i) <==> BitAt(x, i) && BitAt(y, i))
  {
    hide BitAt, Bitwise;
    BitwiseBits(x, y, i);
  }

  /** The two built-in functions give the low bytes of their argument in reverse, as a signed number. */
  lemma CallMeans(env: Env, f: string, e: Tree, m: Memory, x: int, m1: Memory)
    requires WellTyped(env, Call(f, e)) && Value(env, e, m) == Val(x, m1)
    ensures var c := Value(env, Call(f, e), m);
            && c.Val? && c.mem == m1
            && (env[f].op == NTHL ==>
                  && InRange(c.v, 4)
                  && c.v % 0x100 == (x / 0x100_0000) % 0x100 && (c.v / 0x100) % 0x100 == (x / 0x1_0000) % 0x100
                  && (c.v / 0x1_0000) % 0x100 == (x / 0x100) % 0x100 && (c.v / 0x100_0000) % 0x100 == x % 0x100)
            && (env[f].op == NTHS ==>
                  InRange(c.v, 2) && c.v % 0x100 == (x / 0x100) % 0x100 && (c.v / 0x100) % 0x100 == x % 0x100)
  {
    hide Builtin, InRange;
    BytesReversed(x);
  }

  // ---- precedence -------------------------------------------------------------------------------------------------

  /** The rows of the documented table, 1 binding tightest: the operators on values, */
  lemma BinaryRows()
    ensures BinPrecedence(TK_MUL) == 3 && BinPrecedence(TK_DIV) == 3 && BinPrecedence(TK_MOD) == 3
    ensures BinPrecedence(TK_ADD) == 4 && BinPrecedence(TK_SUB) == 4
    ensures BinPrecedence(TK_SHL) == 5 && BinPrecedence(TK_SHR) == 5
    ensures BinPrecedence(TK_LT) == 6 && BinPrecedence(TK_GT) == 6 && BinPrecedence(TK_LE) == 6 && BinPrecedence(TK_GE) == 6
    ensures BinPrecedence(TK_EQ) == 7 && BinPrecedence(TK_NE) == 7
    ensures BinPrecedence(TK_AND) == 8 && BinPrecedence(TK_XOR) == 9 && BinPrecedence(TK_OR) == 10
  {
  }

  /** suffixes and prefixes, and control. */
  lemma OtherRows(l: Tree, r: Tree, up: bool, ty: int, u: Unary)
    ensures Precedence(Post(up, l)) == 1 && Precedence(Index(l, r)) == 1
    ensures Precedence(Pre(up, l)) == 2 && Precedence(Un(u, l)) == 2 && Precedence(Cast(ty, l)) == 2
    ensures Precedence(Deref(l)) == 2 && Precedence(AddrOf(l)) == 2
    ensures Precedence(Logic(false, l, r)) == 11 && Precedence(Logic(true, l, r)) == 12
    ensures Precedence(Cond(l, l, r)) == 13 && Precedence(Assign(l, r)) == 14
  {
  }
}
