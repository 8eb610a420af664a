/** The expression language of expr.c: tokens, trees, types, printing and evaluation. */
module ExprSyntax {
  import opened Common
  import opened Words

  // ---- types (expr.c:89) --------------------------------------------------------------------

  const CHAR := 0
  const SHORT := 1
  const INT := 2
  const LONG := 3
  const PTR := 8

  /** A base type plus any number of pointer levels. */
  predicate GoodType(ty: int) { ty >= 0 && ty % 8 <= LONG }

  /** `(ty >= PTR) ? sizeof(void *) : (1 << ty)` */
  function Width(ty: int): int {
    if ty >= PTR then 8 else if ty == CHAR then 1 else if ty == SHORT then 2 else if ty == INT then 4 else 8
  }

  /** The size of what a pointer of type ty points to. */
  function Pointee(ty: int): int { Width(ty - PTR) }

  /** The amount ++ and -- change a value of type ty by. */
  function StepOf(ty: int): int { if ty >= PTR then Pointee(ty) else 1 }

  // ---- tokens (expr.c:77-81) ----------------------------------------------------------------

  const TK_NUM := 128
  const TK_ID := 133
  const TK_INT := 134
  const TK_SIZEOF := 135
  const TK_ASSIGN := 136
  const TK_COND := 137
  const TK_LOR := 138
  const TK_LAN := 139
  const TK_OR := 140
  const TK_XOR := 141
  const TK_AND := 142
  const TK_EQ := 143
  const TK_NE := 144
  const TK_LT := 145
  const TK_GT := 146
  const TK_LE := 147
  const TK_GE := 148
  const TK_SHL := 149
  const TK_SHR := 150
  const TK_ADD := 151
  const TK_SUB := 152
  const TK_MUL := 153
  const TK_DIV := 154
  const TK_MOD := 155
  const TK_INC := 156
  const TK_DEC := 157
  const TK_BRAK := 158

  // Single-character tokens keep their character code.
  const TK_BANG := 33
  const TK_OPEN := 40
  const TK_CLOSE := 41
  const TK_COMMA := 44
  const TK_COLON := 58
  const TK_CLOSE_BRAK := 93
  const TK_TILDE := 126

  /** A token; Sym carries the numeric code the source compares against. */
  datatype Token =
    | Num(n: int)
    | Ident(name: string)
    | TypeName(base: int)
    | SizeofWord
    | Sym(code: int)

  /** The number the source keeps in `tk`; 0 is the end of the text. */
  function Rank(t: Token): int {
    match t
    case Num(_) => TK_NUM
    case Ident(_) => TK_ID
    case TypeName(_) => TK_INT
    case SizeofWord => TK_SIZEOF
    case Sym(k) => k
  }

  function Head(toks: seq<Token>): int { if toks == [] then 0 else Rank(toks[0]) }

  type BinToken = k: int | TK_OR <= k <= TK_MOD witness TK_OR

  /** The opcode emitted for a binary operator: both enumerations list them in the same order. */
  function Opcode(op: BinToken): (r: int)
    ensures OR <= r <= MOD
  {
    op - TK_OR + OR
  }

  /** The level the right operand of a binary operator is parsed at (expr.c:299-323). */
  function RightLevel(op: BinToken): int {
    if op == TK_OR then TK_XOR
    else if op == TK_XOR then TK_AND
    else if op == TK_AND then TK_EQ
    else if op <= TK_NE then TK_LT
    else if op <= TK_GE then TK_SHL
    else if op <= TK_SHR then TK_ADD
    else if op <= TK_SUB then TK_MUL
    else TK_INC
  }

  // ---- symbols ------------------------------------------------------------------------------

  /** A declared event field or a built-in function. */
  datatype Symbol =
    | Global(addr: int, elem: int, isArray: bool)
    | Sys(op: int, result: int)

  type Env = map<string, Symbol>

  /** What expr_compile puts into the symbol table (expr.c:385-424). */
  predicate GoodSymbol(s: Symbol) {
    match s
    case Global(_, elem, _) => CHAR <= elem <= LONG
    case Sys(_, ty) => GoodType(ty)
  }

  predicate GoodEnv(env: Env) {
    forall x :: x in env ==> GoodSymbol(env[x])
  }

  // ---- trees --------------------------------------------------------------------------------

  datatype Unary = Not | Complement | Plus | Minus

  datatype Tree =
    | Lit(n: int)
    | SizeOf(ty: int)
    | Name(x: string)
    | Paren(e: Tree)
    | Cast(ty: int, e: Tree)
    | Deref(e: Tree)
    | AddrOf(e: Tree)
    | Un(u: Unary, e: Tree)
    | Pre(up: bool, e: Tree)
    | Post(up: bool, e: Tree)
    | Assign(l: Tree, r: Tree)
    | Cond(c: Tree, l: Tree, r: Tree)
    | Logic(or: bool, l: Tree, r: Tree)
    | Bin(op: BinToken, l: Tree, r: Tree)
    | Index(l: Tree, r: Tree)
    | Call(f: string, e: Tree)

  function TypeOf(env: Env, t: Tree): int {
    match t
    case Lit(_) => INT
    case SizeOf(_) => INT
    case Name(x) =>
      if x in env && env[x].Global? then
        if env[x].isArray then env[x].elem + PTR else env[x].elem
      else INT
    case Paren(e) => TypeOf(env, e)
    case Cast(ty, _) => ty
    case Deref(e) => TypeOf(env, e) - PTR
    case AddrOf(e) => TypeOf(env, e) + PTR
    case Un(_, _) => INT
    case Pre(_, e) => TypeOf(env, e)
    case Post(_, e) => TypeOf(env, e)
    case Assign(l, _) => TypeOf(env, l)
    case Cond(_, _, r) => TypeOf(env, r)
    case Logic(_, _, _) => INT
    case Bin(op, l, r) =>
      if op == TK_ADD then TypeOf(env, l)
      else if op == TK_SUB && !IsDistance(TypeOf(env, l), TypeOf(env, r)) then TypeOf(env, l)
      else INT
    case Index(l, _) => TypeOf(env, l) - PTR
    case Call(f, _) => if f in env && env[f].Sys? then env[f].result else INT
  }

  /** Subtraction of two pointers counted in elements: `t > PTR && t == ty` (expr.c:317). */
  predicate IsDistance(tl: int, tr: int) { tl > PTR && tl == tr }

  /** The forms that denote a location. */
  predicate IsLvalue(env: Env, t: Tree) {
    match t
    case Name(x) => x in env && env[x].Global? && !env[x].isArray
    case Deref(_) => true
    case Index(_, _) => true
    case Paren(e) => IsLvalue(env, e)
    case _ => false
  }

  /** What the compiler accepts, with lvalues restricted to the forms above. */
  predicate WellTyped(env: Env, t: Tree) {
    match t
    case Lit(n) => IsWord(n)
    case SizeOf(ty) => GoodType(ty)
    case Name(x) => x in env && env[x].Global?
    case Paren(e) => WellTyped(env, e)
    case Cast(ty, e) => GoodType(ty) && WellTyped(env, e)
    case Deref(e) => WellTyped(env, e) && TypeOf(env, e) >= PTR
    case AddrOf(e) => WellTyped(env, e) && IsLvalue(env, e)
    case Un(_, e) => WellTyped(env, e)
    case Pre(_, e) => WellTyped(env, e) && IsLvalue(env, e)
    case Post(_, e) => WellTyped(env, e) && IsLvalue(env, e)
    case Assign(l, r) => WellTyped(env, l) && IsLvalue(env, l) && WellTyped(env, r)
    case Cond(c, l, r) => WellTyped(env, c) && WellTyped(env, l) && WellTyped(env, r)
    case Logic(_, l, r) => WellTyped(env, l) && WellTyped(env, r)
    case Bin(_, l, r) => WellTyped(env, l) && WellTyped(env, r)
    case Index(l, r) => WellTyped(env, l) && WellTyped(env, r) && TypeOf(env, l) >= PTR
    case Call(f, e) => f in env && env[f].Sys? && env[f].op in {NTHL, NTHS} && WellTyped(env, e)
  }

  /** Pointers to good types and what good pointers point to. */
  lemma PointerTypes()
    ensures GoodType(CHAR) && GoodType(SHORT) && GoodType(INT) && GoodType(LONG)
    ensures forall ty :: GoodType(ty) ==> GoodType(ty + PTR) && (ty >= PTR ==> GoodType(ty - PTR))
  {
  }

  lemma {:induction false} TypesAreGood(env: Env, t: Tree)
    requires GoodEnv(env) && WellTyped(env, t)
    ensures GoodType(TypeOf(env, t))
  {
    hide GoodType, IsLvalue, IsDistance;
    PointerTypes();
    match t
    case Lit(_) =>
    case SizeOf(_) =>
    case Name(x) => assert GoodSymbol(env[x]);
    case Paren(e) => TypesAreGood(env, e);
    case Cast(_, _) =>
    case Deref(e) => TypesAreGood(env, e);
    case AddrOf(e) => TypesAreGood(env, e);
    case Un(_, _) =>
    case Pre(_, e) => TypesAreGood(env, e);
    case Post(_, e) => TypesAreGood(env, e);
    case Assign(l, _) => TypesAreGood(env, l);
    case Cond(_, _, r) => TypesAreGood(env, r);
    case Logic(_, _, _) =>
    case Bin(_, l, _) => TypesAreGood(env, l);
    case Index(l, _) => TypesAreGood(env, l);
    case Call(f, _) => assert GoodSymbol(env[f]);
  }

  // ---- meaning ------------------------------------------------------------------------------

  /** A value with the memory after the side effects, or the divide error. */
  datatype Eval = Val(v: int, mem: Memory) | Trap {
    predicate IsFailure() { Trap? }
    function PropagateFailure(): Eval requires Trap? { Trap }
    function Extract(): (int, Memory) requires Val? { (v, mem) }
  }

  function Lift(v: Option<int>, m: Memory): Eval {
    if v.Some? then Val(v.value, m) else Trap
  }

  /** An index or offset counted in elements of the pointer type ty. */
  function Scaled(ty: int, i: int): int {
    if ty > PTR then Wrap(i * Pointee(ty)) else i
  }

  /** A binary operator on operands of types tl and tr. */
  function Arith(op: BinToken, tl: int, tr: int, x: int, y: int): Option<int> {
    if op == TK_ADD then Some(Wrap(x + Scaled(tl, y)))
    else if op == TK_SUB && IsDistance(tl, tr) then Some(TruncDiv(Wrap(x - y), Pointee(tl)))
    else if op == TK_SUB then Some(Wrap(x - Scaled(tl, y)))
    else Apply(op, x, y)
  }

  /** What the operators mean on plain numbers; None is the divide error. */
  function Apply(op: BinToken, x: int, y: int): Option<int> {
    if op == TK_OR then Some(Bitwise(BitOr, x, y))
    else if op == TK_XOR then Some(Bitwise(BitXor, x, y))
    else if op == TK_AND then Some(Bitwise(BitAnd, x, y))
    else if op == TK_EQ then Some(if x == y then 1 else 0)
    else if op == TK_NE then Some(if x == y then 0 else 1)
    else if op == TK_LT then Some(if x < y then 1 else 0)
    else if op == TK_GT then Some(if y < x then 1 else 0)
    else if op == TK_LE then Some(if y < x then 0 else 1)
    else if op == TK_GE then Some(if x < y then 0 else 1)
    else if op == TK_SHL then Some(Wrap(x * Pow2(y % 64)))
    else if op == TK_SHR then Some(x / Pow2(y % 64))
    else if op == TK_ADD then Some(Wrap(x + y))
    else if op == TK_SUB then Some(Wrap(x - y))
    else if op == TK_MUL then Some(Wrap(x * y))
    else if y == 0 || (x == -TWO_63 && y == -1) then None
    else if op == TK_DIV then Some(TruncDiv(x, y))
    else Some(x - y * TruncDiv(x, y))
  }

  /** The machine's instruction for an operator computes what the operator means. */
  lemma InstructionMeans(op: BinToken, x: int, y: int)
    ensures Alu(Opcode(op), x, y) == Apply(op, x, y)
  {
    hide Bitwise, Wrap, Pow2, TruncDiv;
  }

  function Negated(x: int): int { Wrap(-x) }

  /** The value of a tree, operands left to right. */
  function Value(env: Env, t: Tree, m: Memory): Eval
    requires WellTyped(env, t)
    decreases t, 1
  {
    match t
    case Lit(n) => Val(n, m)
    case SizeOf(ty) => Val(Width(ty), m)
    case Name(x) =>
      if env[x].isArray then Val(env[x].addr, m)
      else Val(Load(m, env[x].addr, Width(env[x].elem)), m)
    case Paren(e) => Value(env, e, m)
    case Cast(_, e) => Value(env, e, m)
    case Deref(_) =>
      var (a, m1) :- Location(env, t, m);
      Val(Load(m1, a, Width(TypeOf(env, t))), m1)
    case Index(_, _) =>
      var (a, m1) :- Location(env, t, m);
      Val(Load(m1, a, Width(TypeOf(env, t))), m1)
    case AddrOf(e) => Location(env, e, m)
    case Un(u, e) =>
      var (x, m1) :- Value(env, e, m);
      (match u
       case Not => Val(Bool(x == 0), m1)
       case Complement => Lift(Alu(XOR, x, -1), m1)
       case Plus => Val(x, m1)
       case Minus => Val(Negated(x), m1))
    case Pre(up, e) =>
      var (a, m1) :- Location(env, e, m);
      var ty := TypeOf(env, e);
      var x := Load(m1, a, Width(ty));
      var y := if up then Wrap(x + StepOf(ty)) else Wrap(x - StepOf(ty));
      Val(y, Store(m1, a, Width(ty), y))
    case Post(up, e) =>
      var (a, m1) :- Location(env, e, m);
      var ty := TypeOf(env, e);
      var x := Load(m1, a, Width(ty));
      var y := if up then Wrap(x + StepOf(ty)) else Wrap(x - StepOf(ty));
      Val(x, Store(m1, a, Width(ty), y))
    case Assign(l, r) =>
      var (a, m1) :- Location(env, l, m);
      var (v, m2) :- Value(env, r, m1);
      Val(v, Store(m2, a, Width(TypeOf(env, l)), v))
    case Cond(c, l, r) =>
      var (v, m1) :- Value(env, c, m);
      if v != 0 then Value(env, l, m1) else Value(env, r, m1)
    case Logic(or, l, r) =>
      var (v, m1) :- Value(env, l, m);
      if or == (v != 0) then Val(v, m1) else Value(env, r, m1)
    case Bin(op, l, r) =>
      var (x, m1) :- Value(env, l, m);
      var (y, m2) :- Value(env, r, m1);
      Lift(Arith(op, TypeOf(env, l), TypeOf(env, r), x, y), m2)
    case Call(f, e) =>
      var (x, m1) :- Value(env, e, m);
      Val(Builtin(env[f].op, x), m1)
  }

  /** The address an lvalue denotes. */
  function Location(env: Env, t: Tree, m: Memory): Eval
    requires WellTyped(env, t) && IsLvalue(env, t)
    decreases t, 0
  {
    match t
    case Name(x) => Val(env[x].addr, m)
    case Paren(e) => Location(env, e, m)
    case Deref(e) => Value(env, e, m)
    case Index(l, r) =>
      var (x, m1) :- Value(env, l, m);
      var (y, m2) :- Value(env, r, m1);
      Val(Wrap(x + Scaled(TypeOf(env, l), y)), m2)
  }

  // ---- printing -----------------------------------------------------------------------------

  function UnaryToken(u: Unary): Token {
    match u
    case Not => Sym(TK_BANG)
    case Complement => Sym(TK_TILDE)
    case Plus => Sym(TK_ADD)
    case Minus => Sym(TK_SUB)
  }

  function StepToken(up: bool): Token { Sym(if up then TK_INC else TK_DEC) }

  function LogicToken(or: bool): Token { Sym(if or then TK_LOR else TK_LAN) }

  function Stars(k: nat): seq<Token> { if k == 0 then [] else [Sym(TK_MUL)] + Stars(k - 1) }

  /** `(` base type, one `*` per pointer level, `)`. */
  function TypeTokens(ty: int): seq<Token>
    requires ty >= 0
  {
    [Sym(TK_OPEN), TypeName(ty % 8)] + Stars(ty / 8) + [Sym(TK_CLOSE)]
  }

  function Print(t: Tree): seq<Token> {
    match t
    case Lit(n) => [Num(n)]
    case SizeOf(ty) => [SizeofWord] + (if ty >= 0 then TypeTokens(ty) else [])
    case Name(x) => [Ident(x)]
    case Paren(e) => [Sym(TK_OPEN)] + Print(e) + [Sym(TK_CLOSE)]
    case Cast(ty, e) => (if ty >= 0 then TypeTokens(ty) else []) + Print(e)
    case Deref(e) => [Sym(TK_MUL)] + Print(e)
    case AddrOf(e) => [Sym(TK_AND)] + Print(e)
    case Un(u, e) => [UnaryToken(u)] + Print(e)
    case Pre(up, e) => [StepToken(up)] + Print(e)
    case Post(up, e) => Print(e) + [StepToken(up)]
    case Assign(l, r) => Print(l) + [Sym(TK_ASSIGN)] + Print(r)
    case Cond(c, l, r) => Print(c) + [Sym(TK_COND)] + Print(l) + [Sym(TK_COLON)] + Print(r)
    case Logic(or, l, r) => Print(l) + [LogicToken(or)] + Print(r)
    case Bin(op, l, r) => Print(l) + [Sym(op)] + Print(r)
    case Index(l, r) => Print(l) + [Sym(TK_BRAK)] + Print(r) + [Sym(TK_CLOSE_BRAK)]
    case Call(f, e) => [Ident(f), Sym(TK_OPEN)] + Print(e) + [Sym(TK_CLOSE)]
  }

  // ---- the documented precedence table (expr.c:826-851) --------------------------------------

  function BinPrecedence(op: BinToken): nat {
    if op >= TK_MUL then 3
    else if op >= TK_ADD then 4
    else if op >= TK_SHL then 5
    else if op >= TK_LT then 6
    else if op >= TK_EQ then 7
    else if op == TK_AND then 8
    else if op == TK_XOR then 9
    else 10
  }

  function LogicPrecedence(or: bool): nat { if or then 12 else 11 }

  /** Row of the table; literals, names, sizeof and parentheses bind like row 1. */
  function Precedence(t: Tree): nat {
    match t
    case Lit(_) => 1
    case SizeOf(_) => 1
    case Name(_) => 1
    case Paren(_) => 1
    case Call(_, _) => 1
    case Post(_, _) => 1
    case Index(_, _) => 1
    case Cast(_, _) => 2
    case Deref(_) => 2
    case AddrOf(_) => 2
    case Un(_, _) => 2
    case Pre(_, _) => 2
    case Bin(op, _, _) => BinPrecedence(op)
    case Logic(or, _, _) => LogicPrecedence(or)
    case Cond(_, _, _) => 13
    case Assign(_, _) => 14
  }

  /**
   * Every operand binds at least as tightly as its place needs: row 1 before a suffix, row 2 after
   * a prefix, left operands of binary operators in the operator's row or a tighter one, right
   * operands strictly tighter, `?:` and `=` grouping to the right.
   */
  predicate Grouped(t: Tree) {
    match t
    case Lit(_) => true
    case SizeOf(_) => true
    case Name(_) => true
    case Paren(e) => Grouped(e)
    case Call(_, e) => Grouped(e)
    case Post(_, e) => Grouped(e) && Precedence(e) <= 1
    case Index(l, r) => Grouped(l) && Precedence(l) <= 1 && Grouped(r)
    case Cast(_, e) => Grouped(e) && Precedence(e) <= 2
    case Deref(e) => Grouped(e) && Precedence(e) <= 2
    case AddrOf(e) => Grouped(e) && Precedence(e) <= 2
    case Un(_, e) => Grouped(e) && Precedence(e) <= 2
    case Pre(_, e) => Grouped(e) && Precedence(e) <= 2
    case Bin(op, l, r) =>
      Grouped(l) && Grouped(r) && Precedence(l) <= BinPrecedence(op) && Precedence(r) < BinPrecedence(op)
    case Logic(or, l, r) =>
      Grouped(l) && Grouped(r) && Precedence(l) <= LogicPrecedence(or) && Precedence(r) < LogicPrecedence(or)
    case Cond(c, l, r) => Grouped(c) && Grouped(l) && Grouped(r) && Precedence(c) < 13 && Precedence(r) <= 13
    case Assign(l, r) => Grouped(l) && Grouped(r) && Precedence(l) <= 2
  }
}
