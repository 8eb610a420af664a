/** The one-pass compiler of expr.c on a token stream: precedence climbing with code emission. */
module ExprParse {
  import opened Words
  import opened ExprSyntax
  import opened ExprCode

  /** The globals `tk`/`p` (remaining tokens), `e` (emitted words) and `ty`. */
  datatype Compiler = Compiler(toks: seq<Token>, e: seq<int>, ty: int) {
    function Skip(): Compiler { if toks == [] then this else this.(toks := toks[1..]) }
    function Emit(ws: seq<int>): Compiler { this.(e := e + ws) }
    function Typed(t: int): Compiler { this.(ty := t) }
    function Next(): int { Head(toks) }
  }

  /** Err is a syntax error: the source leaves through longjmp. */
  datatype Parse = Ok(st: Compiler) | Err {
    predicate IsFailure() { Err? }
    function PropagateFailure(): Parse requires Err? { Err }
    function Extract(): Compiler requires Ok? { st }
  }

  /**
   * From st to r at least `least` tokens were consumed, at most twelve words emitted for each, and no more
   * taken back than the `&` among them may.
   */
  predicate Progress(st: Compiler, r: Parse, least: nat) {
    r.Ok? ==>
      && |r.st.toks| + least <= |st.toks|
      && |r.st.e| + least <= |st.e| + WORDS_PER_TOKEN * (|st.toks| - |r.st.toks|)
      && Back(r.st.toks) <= Back(st.toks) && |st.e| + Back(r.st.toks) <= |r.st.e| + Back(st.toks)
  }

  /** Words that are taken back by prefix `&`, if each in the tokens is one. */
  function Back(toks: seq<Token>): nat {
    if toks == [] then 0 else Back(toks[1..]) + if toks[0] == Sym(TK_AND) then 2 else 0
  }

  lemma {:induction false} BackRest(toks: seq<Token>, k: nat)
    requires k <= |toks|
    ensures Back(toks[k..]) <= Back(toks)
    decreases k
  {
    if k > 0 {
      BackRest(toks[1..], k - 1);
      assert toks[1..][k - 1..] == toks[k..];
    } else {
      assert toks[k..] == toks;
    }
  }

  /** The raw test `*(e-1) == LI`. */
  predicate EndsInLoad(e: seq<int>) { |e| >= 2 && e[|e| - 2] == LI }

  /** Writes a branch target into the word reserved for it. */
  function Patch(e: seq<int>, d: nat, v: int): (r: seq<int>)
    ensures |r| == |e|
  {
    if d < |e| then e[d := v] else e
  }

  /** `[.., LI, w]` becomes `[.., PSH, LI, w]` (expr.c:272, 325). */
  function KeepAddress(e: seq<int>): (r: seq<int>)
    requires EndsInLoad(e)
    ensures |r| == |e| + 1
  {
    e[..|e| - 2] + [PSH, LI, e[|e| - 1]]
  }

  /** Pointer stars after a type name. */
  function CountStars(toks: seq<Token>): (k: nat)
    ensures k <= |toks|
  {
    if Head(toks) == TK_MUL then 1 + CountStars(toks[1..]) else 0
  }

  /** A type in parentheses; the opening one is already consumed. */
  function TypeInParens(st: Compiler): (r: Parse)
    ensures r.Ok? ==> |r.st.toks| + 2 <= |st.toks| && r.st.e == st.e && Back(r.st.toks) <= Back(st.toks)
  {
    if st.toks != [] && st.toks[0].TypeName? then
      var k := CountStars(st.toks[1..]);
      var rest := st.toks[1 + k..];
      BackRest(st.toks, 1 + k);
      if Head(rest) == TK_CLOSE then Ok(Compiler(rest[1..], st.e, st.toks[0].base + PTR * k)) else Err
    else Err
  }

  /** expr(lev) */
  function Expr(env: Env, lev: int, st: Compiler): (r: Parse)
    requires lev > 0
    ensures Progress(st, r, 1)
    decreases |st.toks|, 2
  {
    var s1 :- Operand(env, st);
    Loop(env, lev, s1)
  }

  /** The `while (tk >= lev)` loop. */
  function Loop(env: Env, lev: int, st: Compiler): (r: Parse)
    requires lev > 0
    ensures Progress(st, r, 0)
    decreases |st.toks|, 1
  {
    if st.Next() < lev then Ok(st)
    else
      var s1 :- Infix(env, st);
      Loop(env, lev, s1)
  }

  /** The first half of expr(): expr.c:199-279. */
  function Operand(env: Env, st: Compiler): (r: Parse)
    ensures Progress(st, r, 1)
    decreases |st.toks|, 1
  {
    if st.toks == [] then Err
    else
      var rest := st.Skip();
      match st.toks[0]
      case Num(n) => Ok(rest.Emit([IMM, n]).Typed(INT))
      case SizeofWord =>
        if rest.Next() != TK_OPEN then Err
        else
          var s :- TypeInParens(rest.Skip());
          Ok(s.Emit([IMM, Width(s.ty)]).Typed(INT))
      case Ident(x) => if rest.Next() == TK_OPEN then CallOperand(env, x, rest.Skip()) else NameOperand(env, x, rest)
      case TypeName(_) => Err
      case Sym(k) =>
        if k == TK_OPEN then
          if rest.toks != [] && rest.toks[0].TypeName? then
            var s :- TypeInParens(rest);
            var s1 :- Expr(env, TK_INC, s);
            Ok(s1.Typed(s.ty))
          else
            var s :- Expr(env, TK_ASSIGN, rest);
            if s.Next() == TK_CLOSE then Ok(s.Skip()) else Err
        else if k == TK_SUB then MinusOperand(env, rest)
        else if k in {TK_MUL, TK_AND, TK_BANG, TK_TILDE, TK_ADD, TK_INC, TK_DEC} then
          var s :- Expr(env, TK_INC, rest);
          Prefix(k, s)
        else Err
  }

  /** What a prefix operator adds behind its operand. */
  function Prefix(k: int, s: Compiler): (r: Parse)
    ensures r.Ok? ==> r.st.toks == s.toks && |s.e| - (if k == TK_AND then 2 else 0) <= |r.st.e| <= |s.e| + 8
  {
    if k == TK_MUL then
      if s.ty >= PTR then Ok(s.Emit([LI, Width(s.ty - PTR)]).Typed(s.ty - PTR)) else Err
    else if k == TK_AND then
      if EndsInLoad(s.e) then Ok(s.(e := s.e[..|s.e| - 2], ty := s.ty + PTR)) else Err
    else if k == TK_BANG then Ok(s.Emit([PSH, IMM, 0, EQ]).Typed(INT))
    else if k == TK_TILDE then Ok(s.Emit([PSH, IMM, -1, XOR]).Typed(INT))
    else if k == TK_ADD then Ok(s.Typed(INT))
    else if EndsInLoad(s.e) then Ok(Stepping(s, k == TK_INC))
    else Err
  }

  /** Shared by pre- and post-increment: expr.c:272-277 and 325-330. */
  function Stepping(s: Compiler, up: bool): (r: Compiler)
    requires EndsInLoad(s.e)
    ensures r.toks == s.toks && r.ty == s.ty && |r.e| == |s.e| + 7
  {
    s.(e := KeepAddress(s.e)).Emit([PSH, IMM, StepOf(s.ty), StepOpcode(up), SI, Width(s.ty)])
  }

  function MinusOperand(env: Env, st: Compiler): (r: Parse)
    ensures r.Ok? ==> |r.st.toks| < |st.toks| && |r.st.e| + 1 <= |st.e| + WORDS_PER_TOKEN * (|st.toks| + 1 - |r.st.toks|)
    ensures r.Ok? ==> Back(r.st.toks) <= Back(st.toks) && |st.e| + Back(r.st.toks) <= |r.st.e| + Back(st.toks)
    decreases |st.toks|, 3
  {
    if st.toks != [] && st.toks[0].Num? then Ok(st.Skip().Emit([IMM, Negated(st.toks[0].n)]).Typed(INT))
    else
      var s :- Expr(env, TK_INC, st.Emit([IMM, -1, PSH]));
      Ok(s.Emit([MUL]).Typed(INT))
  }

  function NameOperand(env: Env, x: string, st: Compiler): (r: Parse)
    ensures r.Ok? ==> r.st.toks == st.toks && |st.e| <= |r.st.e| <= |st.e| + 4
  {
    if x in env && env[x].Global? then
      var s := st.Emit([IMM, env[x].addr]);
      if env[x].isArray then Ok(s.Typed(env[x].elem + PTR))
      else Ok(s.Emit([LI, Width(env[x].elem)]).Typed(env[x].elem))
    else Err
  }

  function CallOperand(env: Env, f: string, st: Compiler): (r: Parse)
    ensures r.Ok? ==>
      && |r.st.toks| < |st.toks|
      && |r.st.e| + 1 <= |st.e| + WORDS_PER_TOKEN * (|st.toks| + 2 - |r.st.toks|)
      && Back(r.st.toks) <= Back(st.toks) && |st.e| + Back(r.st.toks) <= |r.st.e| + Back(st.toks)
    decreases |st.toks|, 4
  {
    var (r, n) := Arguments(env, st, 0);
    var s :- r;
    if f in env && env[f].Sys? then
      Ok(s.Emit([env[f].op] + if n > 0 then [ADJ, n] else []).Typed(env[f].result))
    else Err
  }

  /** `while (tk != ')')`: each argument is pushed; n counts them. */
  function Arguments(env: Env, st: Compiler, n: nat): (r: (Parse, nat))
    ensures r.0.Ok? ==>
      && |r.0.st.toks| < |st.toks|
      && |r.0.st.e| <= |st.e| + WORDS_PER_TOKEN * (|st.toks| - |r.0.st.toks| - 1)
      && Back(r.0.st.toks) <= Back(st.toks) && |st.e| + Back(r.0.st.toks) <= |r.0.st.e| + Back(st.toks)
    decreases |st.toks|, 3
  {
    if st.Next() == TK_CLOSE then (Ok(st.Skip()), n)
    else
      match Expr(env, TK_ASSIGN, st)
      case Err => (Err, n)
      case Ok(s) =>
        var s1 := s.Emit([PSH]);
        Arguments(env, if s1.Next() == TK_COMMA then s1.Skip() else s1, n + 1)
  }

  /** From the colon of `?:` on: the branch at d is patched, and a jump reserved. */
  function AtColon(s: Compiler, d: nat): Compiler {
    s.Skip().(e := Patch(s.e, d, |s.e| + 2)).Emit([JMP, 0])
  }

  /** `?:` behind the condition: two reserved words, patched when their targets are known (expr.c:288-296). */
  function CondTurn(env: Env, st: Compiler): (r: Parse)
    ensures r.Ok? ==>
      && |r.st.toks| < |st.toks|
      && |r.st.e| + 1 <= |st.e| + WORDS_PER_TOKEN * (|st.toks| + 1 - |r.st.toks|)
      && Back(r.st.toks) <= Back(st.toks) && |st.e| + Back(r.st.toks) <= |r.st.e| + Back(st.toks)
    decreases |st.toks|, 3
  {
    var s :- Expr(env, TK_ASSIGN, st.Emit([BZ, 0]));
    if s.Next() == TK_COLON then
      var s1 := AtColon(s, |st.e| + 1);
      var s2 :- Expr(env, TK_COND, s1);
      Ok(s2.(e := Patch(s2.e, |s1.e| - 1, |s2.e|)))
    else Err
  }

  /** One turn of the loop: expr.c:282-345. */
  function Infix(env: Env, st: Compiler): (r: Parse)
    requires st.toks != []
    ensures Progress(st, r, 1)
    decreases |st.toks|, 0
  {
    var k, t, rest := st.Next(), st.ty, st.Skip();
    if k == TK_ASSIGN then
      if EndsInLoad(st.e) then
        var s :- Expr(env, TK_ASSIGN, rest.(e := st.e[..|st.e| - 2] + [PSH]));
        Ok(s.Emit([SI, Width(t)]).Typed(t))
      else Err
    else if k == TK_COND then
      CondTurn(env, rest)
    else if k == TK_LOR || k == TK_LAN then
      var s :- Expr(env, if k == TK_LOR then TK_LAN else TK_OR, rest.Emit([if k == TK_LOR then BNZ else BZ, 0]));
      Ok(s.(e := Patch(s.e, |st.e| + 1, |s.e|)).Typed(INT))
    else if TK_OR <= k <= TK_MOD then
      var s :- Expr(env, RightLevel(k), rest.Emit([PSH]));
      Ok(s.Emit(BinCode(k, t, s.ty)).Typed(BinType(k, t, s.ty)))
    else if k == TK_INC || k == TK_DEC then
      if EndsInLoad(st.e) then
        var s := Stepping(rest, k == TK_INC);
        Ok(s.Emit([PSH, IMM, StepOf(t), StepOpcode(k != TK_INC)]))
      else Err
    else if k == TK_BRAK then
      var s :- Expr(env, TK_ASSIGN, rest.Emit([PSH]));
      if s.Next() == TK_CLOSE_BRAK && t >= PTR then
        Ok(s.Skip().Emit(ScaleCode(t) + [ADD, LI, Width(t - PTR)]).Typed(t - PTR))
      else Err
    else Err
  }

  function BinType(op: BinToken, tl: int, tr: int): int {
    if op == TK_ADD then tl
    else if op == TK_SUB && !IsDistance(tl, tr) then tl
    else INT
  }

  /** Comma-separated expressions and the final EXIT (expr.c:438-447). */
  function Program(env: Env, st: Compiler): (r: Parse)
    ensures r.Ok? ==> |r.st.e| <= |st.e| + WORDS_PER_TOKEN * |st.toks| + 1
    ensures r.Ok? ==> Back(r.st.toks) <= Back(st.toks) && |st.e| + 1 + Back(r.st.toks) <= |r.st.e| + Back(st.toks)
    decreases |st.toks|
  {
    var s :- Expr(env, TK_ASSIGN, st);
    if s.Next() == TK_COMMA then Program(env, s.Skip()) else Ok(s.Emit([EXIT]))
  }

  /** The turn for `?:`. */
  lemma InfixCond(env: Env, st: Compiler)
    requires st.toks != [] && st.Next() == TK_COND
    ensures var r1 := Expr(env, TK_ASSIGN, st.Skip().Emit([BZ, 0]));
            if r1.Err? || r1.st.Next() != TK_COLON then Infix(env, st).Err?
            else
              var s1 := AtColon(r1.st, |st.e| + 1);
              var r2 := Expr(env, TK_COND, s1);
              if r2.Err? then Infix(env, st).Err?
              else Infix(env, st) == Ok(r2.st.(e := Patch(r2.st.e, |s1.e| - 1, |r2.st.e|)))
  {
    hide Expr, Patch;
  }

  /** The turn for post-increment and -decrement. */
  lemma InfixStep(env: Env, st: Compiler)
    requires st.toks != [] && (st.Next() == TK_INC || st.Next() == TK_DEC)
    ensures Infix(env, st) ==
            if !EndsInLoad(st.e) then Err
            else
              var up := st.Next() == TK_INC;
              Ok(Stepping(st.Skip(), up).Emit([PSH, IMM, StepOf(st.ty), StepOpcode(!up)]))
  {
    hide Expr, Stepping, StepOf;
  }

  /** The turn for a subscript. */
  lemma InfixIndex(env: Env, st: Compiler)
    requires st.toks != [] && st.Next() == TK_BRAK
    ensures var r := Expr(env, TK_ASSIGN, st.Skip().Emit([PSH]));
            if r.Err? || r.st.Next() != TK_CLOSE_BRAK || st.ty < PTR then Infix(env, st).Err?
            else Infix(env, st) == Ok(r.st.Skip().Emit(ScaleCode(st.ty) + [ADD, LI, Width(st.ty - PTR)]).Typed(st.ty - PTR))
  {
    hide Expr, ScaleCode;
  }
}
