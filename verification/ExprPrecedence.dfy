/** Compiling printed trees: the parser groups by the documented precedence table. */
module ExprPrecedence {
  import opened Words
  import opened ExprSyntax
  import opened ExprCode
  import opened ExprParse

  /** The lowest level at which an expression of a given row of the table is parsed whole. */
  function LevelOf(row: nat): int {
    if row <= 2 then TK_INC
    else if row == 3 then TK_MUL
    else if row == 4 then TK_ADD
    else if row == 5 then TK_SHL
    else if row == 6 then TK_LT
    else if row == 7 then TK_EQ
    else if row == 8 then TK_AND
    else if row == 9 then TK_XOR
    else if row == 10 then TK_OR
    else if row == 11 then TK_LAN
    else if row == 12 then TK_LOR
    else if row == 13 then TK_COND
    else TK_ASSIGN
  }

  /** A token of this rank or higher behind t would be taken into t's last operand. */
  function Absorbs(t: Tree): int {
    match t
    case Bin(op, _, _) => RightLevel(op)
    case Logic(or, _, _) => if or then TK_LAN else TK_OR
    case Cond(_, _, _) => TK_COND
    case Assign(_, _) => TK_ASSIGN
    case _ => if Precedence(t) <= 1 then 1000 else TK_INC
  }

  predicate IsLevel(lev: int) { TK_ASSIGN <= lev <= TK_INC }

  /** t may be parsed at level lev with `rest` behind it. */
  predicate Placed(env: Env, t: Tree, lev: int, rest: seq<Token>) {
    && WellTyped(env, t) && Grouped(t)
    && IsLevel(lev) && lev <= LevelOf(Precedence(t))
    && Head(rest) < Absorbs(t) && Head(rest) != TK_OPEN
  }

  /** Parsing the text of t emits exactly its code and goes on with the loop behind it. */
  predicate Parses(env: Env, t: Tree, lev: int, rest: seq<Token>, e: seq<int>, ty: int)
    requires WellTyped(env, t) && lev > 0
  {
    Expr(env, lev, Compiler(Print(t) + rest, e, ty))
    == Loop(env, lev, Compiler(rest, e + Code(env, t, |e|), TypeOf(env, t)))
  }

  /** The first half of expr() takes the whole of t. */
  predicate IsOperand(env: Env, t: Tree, rest: seq<Token>, e: seq<int>, ty: int)
    requires WellTyped(env, t)
  {
    Operand(env, Compiler(Print(t) + rest, e, ty))
    == Ok(Compiler(rest, e + Code(env, t, |e|), TypeOf(env, t)))
  }

  // ---- first tokens ---------------------------------------------------------------------------

  lemma {:induction false} FirstToken(env: Env, t: Tree)
    requires WellTyped(env, t) && Grouped(t)
    ensures Print(t) != [] && !Print(t)[0].TypeName? && Head(Print(t)) != TK_CLOSE
    ensures Precedence(t) <= 2 && Print(t)[0].Num? ==> t.Lit?
  {
    hide TypeOf, IsLvalue;
    match t
    case Post(_, e) => FirstToken(env, e); NoLiteralBase(env, t);
    case Index(l, _) => FirstToken(env, l); NoLiteralBase(env, t);
    case Assign(l, _) => FirstToken(env, l); LoosePrecedence(t);
    case Cond(c, _, _) => FirstToken(env, c); LoosePrecedence(t);
    case Logic(_, l, _) => FirstToken(env, l); LoosePrecedence(t);
    case Bin(_, l, _) => FirstToken(env, l); LoosePrecedence(t);
    case _ =>
  }

  lemma NoLiteralBase(env: Env, t: Tree)
    requires WellTyped(env, t)
    ensures t.Post? ==> !t.e.Lit?
    ensures t.Index? ==> !t.l.Lit?
  {
  }

  lemma LoosePrecedence(t: Tree)
    requires t.Assign? || t.Cond? || t.Logic? || t.Bin?
    ensures Precedence(t) > 2
  {
  }

  /** A token list split off its printed front. */
  lemma Behind(first: Token, toks: seq<Token>)
    ensures ([first] + toks)[0] == first && ([first] + toks)[1..] == toks
  {
  }

  lemma {:induction false} StarsCount(k: nat, rest: seq<Token>)
    requires Head(rest) != TK_MUL
    ensures |Stars(k)| == k && CountStars(Stars(k) + rest) == k
  {
    if k == 0 {
      assert Stars(k) + rest == rest;
    } else {
      StarsCount(k - 1, rest);
      assert (Stars(k) + rest)[1..] == Stars(k - 1) + rest;
    }
  }

  lemma TypeParses(ty: int, rest: seq<Token>, e: seq<int>, ty0: int)
    requires GoodType(ty)
    ensures TypeTokens(ty) == [Sym(TK_OPEN)] + TypeTokens(ty)[1..]
    ensures TypeTokens(ty)[1..] != [] && TypeTokens(ty)[1..][0].TypeName?
    ensures TypeInParens(Compiler(TypeTokens(ty)[1..] + rest, e, ty0)) == Ok(Compiler(rest, e, ty))
  {
    hide Stars, CountStars;
    var k, tail := ty / 8, [Sym(TK_CLOSE)] + rest;
    StarsCount(k, tail);
    var toks := TypeTokens(ty)[1..] + rest;
    assert toks == [TypeName(ty % 8)] + (Stars(k) + tail);
    assert toks[1..] == Stars(k) + tail;
    assert toks[1 + k..] == tail;
    assert tail[1..] == rest;
  }

  // ---- the two ways a tree is parsed -----------------------------------------------------------

  lemma ByOperand(env: Env, t: Tree, lev: int, rest: seq<Token>, e: seq<int>, ty: int)
    requires WellTyped(env, t) && lev > 0 && IsOperand(env, t, rest, e, ty)
    ensures Parses(env, t, lev, rest, e, ty)
  {
    hide Operand, Loop, Code, Print, TypeOf;
  }

  lemma ByInfix(env: Env, lev: int, st: Compiler, s1: Compiler)
    requires 0 < lev <= st.Next() && Infix(env, st) == Ok(s1)
    ensures Loop(env, lev, st) == Loop(env, lev, s1)
  {
    hide Infix;
  }

  /** t followed by a token too weak for level lev: expr(lev) stops right behind t. */
  lemma {:induction false} ParseAt(env: Env, t: Tree, lev: int, rest: seq<Token>, e: seq<int>, ty: int)
    requires WellTyped(env, t) && Grouped(t)
    requires IsLevel(lev) && Head(rest) < lev <= LevelOf(Precedence(t)) && Head(rest) != TK_OPEN
    ensures Expr(env, lev, Compiler(Print(t) + rest, e, ty))
         == Ok(Compiler(rest, e + Code(env, t, |e|), TypeOf(env, t)))
    decreases t, 3
  {
    hide Expr, Operand, Infix, Code, Print, TypeOf, WellTyped, Grouped;
    ParseTree(env, t, lev, rest, e, ty);
  }

  /**
   * Precedence climbing groups as the table says: for every well-typed tree whose operands are
   * grouped by the table, the tokens of its text compile to the code of that tree.
   */
  lemma {:induction false} ParseTree(env: Env, t: Tree, lev: int, rest: seq<Token>, e: seq<int>, ty: int)
    requires Placed(env, t, lev, rest)
    ensures Parses(env, t, lev, rest, e, ty)
    decreases t, 2
  {
    hide Operand, Infix, Loop, Expr;
    match t
    case Post(_, _) => PostParses(env, t, lev, rest, e, ty);
    case Index(_, _) => IndexParses(env, t, lev, rest, e, ty);
    case Assign(_, _) => AssignParses(env, t, lev, rest, e, ty);
    case Cond(_, _, _) => CondParses(env, t, lev, rest, e, ty);
    case Logic(_, _, _) => LogicParses(env, t, lev, rest, e, ty);
    case Bin(_, _, _) => BinParses(env, t, lev, rest, e, ty);
    case Lit(_) => LeafOperand(env, t, rest, e, ty); ByOperand(env, t, lev, rest, e, ty);
    case Name(_) => LeafOperand(env, t, rest, e, ty); ByOperand(env, t, lev, rest, e, ty);
    case SizeOf(_) => SizeOperand(env, t, rest, e, ty); ByOperand(env, t, lev, rest, e, ty);
    case Paren(_) => ParenOperand(env, t, rest, e, ty); ByOperand(env, t, lev, rest, e, ty);
    case Call(_, _) => CallParses(env, t, rest, e, ty); ByOperand(env, t, lev, rest, e, ty);
    case Cast(_, _) => CastOperand(env, t, rest, e, ty); ByOperand(env, t, lev, rest, e, ty);
    case Deref(_) => PrefixOperand(env, t, rest, e, ty); ByOperand(env, t, lev, rest, e, ty);
    case AddrOf(_) => PrefixOperand(env, t, rest, e, ty); ByOperand(env, t, lev, rest, e, ty);
    case Un(u, _) =>
      if u.Minus? {
        MinusParses(env, t, rest, e, ty);
      } else {
        PrefixOperand(env, t, rest, e, ty);
      }
      ByOperand(env, t, lev, rest, e, ty);
    case Pre(_, _) => PrefixOperand(env, t, rest, e, ty); ByOperand(env, t, lev, rest, e, ty);
  }

  // ---- operands --------------------------------------------------------------------------------

  lemma LeafOperand(env: Env, t: Tree, rest: seq<Token>, e: seq<int>, ty: int)
    requires (t.Lit? || t.Name?) && WellTyped(env, t) && Head(rest) != TK_OPEN
    ensures IsOperand(env, t, rest, e, ty)
  {
    Behind(Print(t)[0], rest);
    if t.Name? {
      assert e + [IMM, env[t.x].addr] + [LI, Width(env[t.x].elem)] == e + ([IMM, env[t.x].addr] + [LI, Width(env[t.x].elem)]);
    }
  }

  lemma SizeOperand(env: Env, t: Tree, rest: seq<Token>, e: seq<int>, ty: int)
    requires t.SizeOf? && WellTyped(env, t)
    ensures IsOperand(env, t, rest, e, ty)
  {
    hide TypeInParens, TypeTokens, Width;
    TypeParses(t.ty, rest, e, ty);
    var inner := TypeTokens(t.ty)[1..] + rest;
    assert Print(t) + rest == [SizeofWord] + ([Sym(TK_OPEN)] + inner);
    Behind(SizeofWord, [Sym(TK_OPEN)] + inner);
    Behind(Sym(TK_OPEN), inner);
  }

  lemma {:induction false} ParenOperand(env: Env, t: Tree, rest: seq<Token>, e: seq<int>, ty: int)
    requires t.Paren? && WellTyped(env, t) && Grouped(t)
    ensures IsOperand(env, t, rest, e, ty)
    decreases t, 1
  {
    hide Expr, TypeInParens;
    var tail := [Sym(TK_CLOSE)] + rest;
    assert Print(t) + rest == [Sym(TK_OPEN)] + (Print(t.e) + tail);
    Behind(Sym(TK_OPEN), Print(t.e) + tail);
    Behind(Sym(TK_CLOSE), rest);
    FirstToken(env, t.e);
    assert (Print(t.e) + tail)[0] == Print(t.e)[0];
    ParseAt(env, t.e, TK_ASSIGN, tail, e, ty);
  }

  lemma {:induction false} CastOperand(env: Env, t: Tree, rest: seq<Token>, e: seq<int>, ty: int)
    requires t.Cast? && WellTyped(env, t) && Grouped(t) && Head(rest) < TK_INC && Head(rest) != TK_OPEN
    ensures IsOperand(env, t, rest, e, ty)
    decreases t, 1
  {
    hide Expr, TypeInParens, TypeTokens;
    var tail := Print(t.e) + rest;
    TypeParses(t.ty, tail, e, ty);
    var inner := TypeTokens(t.ty)[1..] + tail;
    assert Print(t) + rest == [Sym(TK_OPEN)] + inner;
    Behind(Sym(TK_OPEN), inner);
    assert inner[0] == TypeTokens(t.ty)[1..][0];
    ParseAt(env, t.e, TK_INC, rest, e, t.ty);
  }

  function PrefixToken(t: Tree): int {
    match t
    case Deref(_) => TK_MUL
    case AddrOf(_) => TK_AND
    case Un(u, _) => Rank(UnaryToken(u))
    case Pre(up, _) => Rank(StepToken(up))
    case _ => 0
  }

  predicate IsPrefix(t: Tree) {
    t.Deref? || t.AddrOf? || (t.Un? && !t.u.Minus?) || t.Pre?
  }

  lemma {:induction false} PrefixOperand(env: Env, t: Tree, rest: seq<Token>, e: seq<int>, ty: int)
    requires IsPrefix(t) && WellTyped(env, t) && Grouped(t) && Head(rest) < TK_INC && Head(rest) != TK_OPEN
    ensures IsOperand(env, t, rest, e, ty)
    decreases t, 1
  {
    hide Expr, Prefix, TypeInParens, Code, TypeOf;
    var k := PrefixToken(t);
    assert Print(t) + rest == [Sym(k)] + (Print(t.e) + rest);
    Behind(Sym(k), Print(t.e) + rest);
    ParseAt(env, t.e, TK_INC, rest, e, ty);
    PrefixEmits(env, t, rest, e);
  }

  function UnaryTail(u: Unary): seq<int> {
    if u.Not? then [PSH, IMM, 0, EQ] else if u.Complement? then [PSH, IMM, -1, XOR] else []
  }

  /** Code and type of a prefix expression in terms of its operand's. */
  lemma PrefixUnfold(env: Env, t: Tree, base: nat)
    requires IsPrefix(t) && WellTyped(env, t)
    ensures WellTyped(env, t.e)
    ensures t.Deref? ==>
              && TypeOf(env, t.e) >= PTR && TypeOf(env, t) == TypeOf(env, t.e) - PTR
              && Code(env, t, base) == Code(env, t.e, base) + [LI, Width(TypeOf(env, t))]
    ensures t.AddrOf? || t.Pre? ==> IsLvalue(env, t.e)
    ensures t.AddrOf? ==>
              TypeOf(env, t) == TypeOf(env, t.e) + PTR && Code(env, t, base) == AddrCode(env, t.e, base)
    ensures t.Pre? ==>
              && TypeOf(env, t) == TypeOf(env, t.e)
              && Code(env, t, base) == AddrCode(env, t.e, base) + StepCode(t.up, TypeOf(env, t.e))
    ensures t.Un? ==>
              && TypeOf(env, t) == INT
              && Code(env, t, base) == Code(env, t.e, base) + UnaryTail(t.u)
  {
    hide Width, StepCode;
  }

  lemma PrefixEmits(env: Env, t: Tree, rest: seq<Token>, e: seq<int>)
    requires IsPrefix(t) && WellTyped(env, t)
    ensures Prefix(PrefixToken(t), Compiler(rest, e + Code(env, t.e, |e|), TypeOf(env, t.e)))
         == Ok(Compiler(rest, e + Code(env, t, |e|), TypeOf(env, t)))
  {
    hide Code, TypeOf, Prefix, WellTyped;
    if t.AddrOf? || t.Pre? {
      LvaluePrefixEmits(env, t, rest, e);
    } else if t.Deref? {
      DerefPrefixEmits(env, t, rest, e);
    } else {
      UnaryPrefixEmits(env, t, rest, e);
    }
  }

  lemma LvaluePrefixEmits(env: Env, t: Tree, rest: seq<Token>, e: seq<int>)
    requires (t.AddrOf? || t.Pre?) && WellTyped(env, t)
    ensures WellTyped(env, t.e)
    ensures Prefix(PrefixToken(t), Compiler(rest, e + Code(env, t.e, |e|), TypeOf(env, t.e)))
         == Ok(Compiler(rest, e + Code(env, t, |e|), TypeOf(env, t)))
  {
    hide Width, StepOf, Stepping, EndsInLoad, StepCode, Code, AddrCode, TypeOf, WellTyped, IsLvalue, Prefix;
    PrefixUnfold(env, t, |e|);
    var c, ty := Code(env, t.e, |e|), TypeOf(env, t.e);
    if t.AddrOf? {
      LvalueCode(env, t.e, |e|);
      AddressEmits(rest, e, AddrCode(env, t.e, |e|), ty);
    } else {
      SteppingEmits(env, t.e, t.up, rest, e);
      StepEmits(Compiler(rest, e + c, ty), t.up);
    }
  }

  lemma DerefPrefixEmits(env: Env, t: Tree, rest: seq<Token>, e: seq<int>)
    requires t.Deref? && WellTyped(env, t)
    ensures WellTyped(env, t.e)
    ensures Prefix(PrefixToken(t), Compiler(rest, e + Code(env, t.e, |e|), TypeOf(env, t.e)))
         == Ok(Compiler(rest, e + Code(env, t, |e|), TypeOf(env, t)))
  {
    hide Width, Code, AddrCode, TypeOf, WellTyped, IsLvalue, StepCode, Prefix;
    PrefixUnfold(env, t, |e|);
    DerefEmits(rest, e, Code(env, t.e, |e|), TypeOf(env, t.e), TypeOf(env, t));
  }

  lemma UnaryPrefixEmits(env: Env, t: Tree, rest: seq<Token>, e: seq<int>)
    requires t.Un? && !t.u.Minus? && WellTyped(env, t)
    ensures WellTyped(env, t.e)
    ensures Prefix(PrefixToken(t), Compiler(rest, e + Code(env, t.e, |e|), TypeOf(env, t.e)))
         == Ok(Compiler(rest, e + Code(env, t, |e|), TypeOf(env, t)))
  {
    hide Width, Code, AddrCode, TypeOf, WellTyped, IsLvalue, StepCode, Prefix, UnaryTail;
    PrefixUnfold(env, t, |e|);
    UnaryEmits(rest, e, Code(env, t.e, |e|), TypeOf(env, t.e), t.u);
  }

  lemma AddressEmits(rest: seq<Token>, e: seq<int>, a: seq<int>, ty: int)
    ensures Prefix(TK_AND, Compiler(rest, e + (a + [LI, Width(ty)]), ty)) == Ok(Compiler(rest, e + a, ty + PTR))
  {
    hide Width;
    LoadAtEnd(e, a, Width(ty));
  }

  lemma StepEmits(s: Compiler, up: bool)
    requires EndsInLoad(s.e)
    ensures Prefix(Rank(StepToken(up)), s) == Ok(Stepping(s, up))
  {
    hide Stepping, EndsInLoad;
  }

  lemma DerefEmits(rest: seq<Token>, e: seq<int>, c: seq<int>, ty: int, pointee: int)
    requires ty >= PTR && pointee == ty - PTR
    ensures Prefix(TK_MUL, Compiler(rest, e + c, ty)) == Ok(Compiler(rest, e + (c + [LI, Width(pointee)]), pointee))
  {
    hide Width;
    Assoc(e, c, [LI, Width(pointee)]);
  }

  lemma UnaryEmits(rest: seq<Token>, e: seq<int>, c: seq<int>, ty: int, u: Unary)
    requires !u.Minus?
    ensures Prefix(Rank(UnaryToken(u)), Compiler(rest, e + c, ty)) == Ok(Compiler(rest, e + (c + UnaryTail(u)), INT))
  {
    Assoc(e, c, UnaryTail(u));
    assert e + c + [] == e + c;
  }

  /** Code ending in a load: what the raw test sees and what is left without the load. */
  lemma LoadAtEnd(e: seq<int>, a: seq<int>, w: int)
    ensures var c := e + (a + [LI, w]);
            && EndsInLoad(c)
            && c[..|c| - 2] == e + a
            && c[|c| - 1] == w
  {
  }

  lemma SteppingEmits(env: Env, t: Tree, up: bool, rest: seq<Token>, e: seq<int>)
    requires WellTyped(env, t) && IsLvalue(env, t)
    ensures var c := e + Code(env, t, |e|);
            && EndsInLoad(c)
            && Stepping(Compiler(rest, c, TypeOf(env, t)), up)
            == Compiler(rest, e + (AddrCode(env, t, |e|) + StepCode(up, TypeOf(env, t))), TypeOf(env, t))
  {
    hide Width, StepOf, Code, AddrCode, TypeOf, WellTyped, IsLvalue, EndsInLoad;
    var a, ty := AddrCode(env, t, |e|), TypeOf(env, t);
    LvalueCode(env, t, |e|);
    LoadAtEnd(e, a, Width(ty));
    StepTail(e, a, Width(ty), StepOf(ty), StepOpcode(up));
  }

  lemma StepTail(e: seq<int>, a: seq<int>, w: int, d: int, op: int)
    ensures e + a + [PSH, LI, w] + [PSH, IMM, d, op, SI, w] == e + (a + [PSH, LI, w, PSH, IMM, d, op, SI, w])
  {
    Assoc(e + a, [PSH, LI, w], [PSH, IMM, d, op, SI, w]);
    Assoc(e, a, [PSH, LI, w, PSH, IMM, d, op, SI, w]);
  }

  lemma MinusUnfold(env: Env, t: Tree, base: nat)
    requires t.Un? && t.u.Minus? && WellTyped(env, t) && Grouped(t)
    ensures WellTyped(env, t.e) && Grouped(t.e) && Precedence(t.e) <= 2 && TypeOf(env, t) == INT
    ensures Code(env, t, base) ==
            if t.e.Lit? then [IMM, Negated(t.e.n)] else [IMM, -1, PSH] + Code(env, t.e, base + 3) + [MUL]
  {
    hide Negated, AddrCode;
  }

  lemma {:induction false} MinusParses(env: Env, t: Tree, rest: seq<Token>, e: seq<int>, ty: int)
    requires t.Un? && t.u.Minus? && WellTyped(env, t) && Grouped(t) && Head(rest) < TK_INC && Head(rest) != TK_OPEN
    ensures IsOperand(env, t, rest, e, ty)
    decreases t, 1
  {
    hide Expr, TypeInParens, Negated, Code, WellTyped, Grouped;
    MinusUnfold(env, t, |e|);
    var tail := Print(t.e) + rest;
    assert Print(t) + rest == [Sym(TK_SUB)] + tail;
    Behind(Sym(TK_SUB), tail);
    FirstToken(env, t.e);
    assert tail[0] == Print(t.e)[0];
    var st := Compiler(tail, e, ty);
    assert Operand(env, Compiler(Print(t) + rest, e, ty)) == MinusOperand(env, st);
    if t.e.Lit? {
      assert tail[1..] == rest;
      assert MinusOperand(env, st) == Ok(Compiler(rest, e + [IMM, Negated(t.e.n)], INT));
    } else {
      var front := [IMM, -1, PSH];
      var c := Code(env, t.e, |e| + 3);
      ParseAt(env, t.e, TK_INC, rest, e + front, ty);
      NegativeOperand(env, st, Compiler(rest, e + front + c, TypeOf(env, t.e)));
      Assoc(e, front, c);
      Assoc(e, front + c, [MUL]);
    }
  }

  lemma NegativeOperand(env: Env, st: Compiler, s: Compiler)
    requires st.toks != [] && !st.toks[0].Num? && Expr(env, TK_INC, st.Emit([IMM, -1, PSH])) == Ok(s)
    ensures MinusOperand(env, st) == Ok(s.Emit([MUL]).Typed(INT))
  {
    hide Expr;
  }

  lemma CallUnfold(env: Env, t: Tree, base: nat)
    requires t.Call? && WellTyped(env, t) && Grouped(t)
    ensures WellTyped(env, t.e) && Grouped(t.e) && t.f in env && env[t.f].Sys? && TypeOf(env, t) == env[t.f].result
    ensures Code(env, t, base) == Code(env, t.e, base) + [PSH, env[t.f].op, ADJ, 1]
  {
  }

  lemma {:induction false} CallParses(env: Env, t: Tree, rest: seq<Token>, e: seq<int>, ty: int)
    requires t.Call? && WellTyped(env, t) && Grouped(t)
    ensures IsOperand(env, t, rest, e, ty)
    decreases t, 1
  {
    hide Expr, TypeInParens, Loop, Infix, Arguments, Code, WellTyped, Grouped, TypeOf;
    CallUnfold(env, t, |e|);
    var tail := [Sym(TK_CLOSE)] + rest;
    var inner := Print(t.e) + tail;
    assert Print(t) + rest == [Ident(t.f)] + ([Sym(TK_OPEN)] + inner);
    Behind(Ident(t.f), [Sym(TK_OPEN)] + inner);
    Behind(Sym(TK_OPEN), inner);
    Behind(Sym(TK_CLOSE), rest);
    FirstToken(env, t.e);
    assert inner[0] == Print(t.e)[0];
    var st := Compiler(inner, e, ty);
    assert Operand(env, Compiler(Print(t) + rest, e, ty)) == CallOperand(env, t.f, st);
    ParseAt(env, t.e, TK_ASSIGN, tail, e, ty);
    var c := Code(env, t.e, |e|);
    OneArgument(env, st, rest, e + c, TypeOf(env, t.e));
    Assoc(e + c, [PSH], [env[t.f].op] + [ADJ, 1]);
    Assoc(e, c, [PSH, env[t.f].op, ADJ, 1]);
    assert [PSH] + ([env[t.f].op] + [ADJ, 1]) == [PSH, env[t.f].op, ADJ, 1];
  }

  lemma OneArgument(env: Env, st: Compiler, rest: seq<Token>, e: seq<int>, ty: int)
    requires st.Next() != TK_CLOSE
    requires Expr(env, TK_ASSIGN, st) == Ok(Compiler([Sym(TK_CLOSE)] + rest, e, ty))
    ensures Arguments(env, st, 0) == (Ok(Compiler(rest, e + [PSH], ty)), 1)
  {
    hide Expr;
    var s1 := Compiler([Sym(TK_CLOSE)] + rest, e + [PSH], ty);
    Behind(Sym(TK_CLOSE), rest);
    assert Arguments(env, s1, 1) == (Ok(s1.Skip()), 1);
  }

  // ---- infix and postfix -----------------------------------------------------------------------

  lemma {:induction false} PostParses(env: Env, t: Tree, lev: int, rest: seq<Token>, e: seq<int>, ty: int)
    requires t.Post? && Placed(env, t, lev, rest)
    ensures Parses(env, t, lev, rest, e, ty)
    decreases t, 1
  {
    hide Expr, Operand, Loop, Code, AddrCode, TypeOf, StepCode, StepOf, Infix, Stepping;
    var op := StepToken(t.up);
    assert Print(t) + rest == Print(t.e) + ([op] + rest);
    Behind(op, rest);
    ParseTree(env, t.e, lev, [op] + rest, e, ty);
    var st := Compiler([op] + rest, e + Code(env, t.e, |e|), TypeOf(env, t.e));
    InfixStep(env, st);
    SteppingEmits(env, t.e, t.up, rest, e);
    PostCode(env, t, e);
    ByInfix(env, lev, st, Compiler(rest, e + Code(env, t, |e|), TypeOf(env, t)));
  }

  lemma PostCode(env: Env, t: Tree, e: seq<int>)
    requires t.Post? && WellTyped(env, t)
    ensures TypeOf(env, t) == TypeOf(env, t.e)
    ensures var ty := TypeOf(env, t.e);
            e + (AddrCode(env, t.e, |e|) + StepCode(t.up, ty)) + [PSH, IMM, StepOf(ty), StepOpcode(!t.up)]
            == e + Code(env, t, |e|)
  {
    hide StepCode, StepOf, AddrCode;
    var ty := TypeOf(env, t.e);
    Assoc(e, AddrCode(env, t.e, |e|) + StepCode(t.up, ty), [PSH, IMM, StepOf(ty), StepOpcode(!t.up)]);
  }

  lemma {:induction false} BinParses(env: Env, t: Tree, lev: int, rest: seq<Token>, e: seq<int>, ty: int)
    requires t.Bin? && Placed(env, t, lev, rest)
    ensures Parses(env, t, lev, rest, e, ty)
    decreases t, 1
  {
    hide Expr, Operand, Loop, Code, TypeOf, BinCode;
    var op := Sym(t.op);
    var mid := Print(t.r) + rest;
    assert Print(t) + rest == Print(t.l) + ([op] + mid);
    Behind(op, mid);
    ParseTree(env, t.l, lev, [op] + mid, e, ty);
    var cl, tl := Code(env, t.l, |e|), TypeOf(env, t.l);
    var st := Compiler([op] + mid, e + cl, tl);
    var e1 := e + cl + [PSH];
    ParseAt(env, t.r, RightLevel(t.op), rest, e1, tl);
    BinCodeIs(env, t, e);
    ByInfix(env, lev, st, Compiler(rest, e + Code(env, t, |e|), TypeOf(env, t)));
  }

  lemma BinCodeIs(env: Env, t: Tree, e: seq<int>)
    requires t.Bin? && WellTyped(env, t)
    ensures var tl, tr := TypeOf(env, t.l), TypeOf(env, t.r);
            var e1 := e + Code(env, t.l, |e|) + [PSH];
            && TypeOf(env, t) == BinType(t.op, tl, tr)
            && e1 + Code(env, t.r, |e1|) + BinCode(t.op, tl, tr) == e + Code(env, t, |e|)
  {
    hide BinCode, Code, WellTyped;
    BinParts(env, t);
    CodeOfBin(env, t, |e|);
    var tl, tr := TypeOf(env, t.l), TypeOf(env, t.r);
    var cl := Code(env, t.l, |e|) + [PSH];
    Assoc(e, Code(env, t.l, |e|), [PSH]);
    Assoc(e, cl, Code(env, t.r, |e| + |cl|));
    Assoc(e, cl + Code(env, t.r, |e| + |cl|), BinCode(t.op, tl, tr));
  }

  lemma IndexPlaced(env: Env, t: Tree, lev: int, rest: seq<Token>)
    requires t.Index? && Placed(env, t, lev, rest)
    ensures lev <= TK_BRAK && WellTyped(env, t.l) && WellTyped(env, t.r) && Grouped(t.l) && Grouped(t.r)
    ensures lev <= LevelOf(Precedence(t.l)) && TK_BRAK < Absorbs(t.l) && TK_ASSIGN <= LevelOf(Precedence(t.r))
    ensures Print(t) == Print(t.l) + [Sym(TK_BRAK)] + Print(t.r) + [Sym(TK_CLOSE_BRAK)]
  {
  }

  lemma {:induction false} IndexParses(env: Env, t: Tree, lev: int, rest: seq<Token>, e: seq<int>, ty: int)
    requires t.Index? && Placed(env, t, lev, rest)
    ensures Parses(env, t, lev, rest, e, ty)
    decreases t, 1
  {
    hide Expr, Operand, Loop, Code, TypeOf, ScaleCode, Width, Infix, WellTyped, Grouped, Precedence, LevelOf, Absorbs, Print;
    IndexPlaced(env, t, lev, rest);
    var tail := [Sym(TK_CLOSE_BRAK)] + rest;
    var mid := Print(t.r) + tail;
    assert Print(t) + rest == Print(t.l) + ([Sym(TK_BRAK)] + mid);
    Behind(Sym(TK_BRAK), mid);
    Behind(Sym(TK_CLOSE_BRAK), rest);
    ParseTree(env, t.l, lev, [Sym(TK_BRAK)] + mid, e, ty);
    var cl, tl := Code(env, t.l, |e|), TypeOf(env, t.l);
    var st := Compiler([Sym(TK_BRAK)] + mid, e + cl, tl);
    IndexParts(env, t);
    InfixIndex(env, st);
    var e1 := e + cl + [PSH];
    ParseAt(env, t.r, TK_ASSIGN, tail, e1, tl);
    IndexCodeIs(env, t, e);
    ByInfix(env, lev, st, Compiler(rest, e + Code(env, t, |e|), TypeOf(env, t)));
  }

  lemma IndexCodeIs(env: Env, t: Tree, e: seq<int>)
    requires t.Index? && WellTyped(env, t)
    ensures var tl := TypeOf(env, t.l);
            var e1 := e + Code(env, t.l, |e|) + [PSH];
            && tl >= PTR && TypeOf(env, t) == tl - PTR
            && e1 + Code(env, t.r, |e1|) + (ScaleCode(tl) + [ADD, LI, Width(tl - PTR)]) == e + Code(env, t, |e|)
  {
    hide *;
    IndexParts(env, t);
    CodeOfIndex(env, t, |e|);
    var cl, tl := Code(env, t.l, |e|) + [PSH], TypeOf(env, t.l);
    assert e + Code(env, t.l, |e|) + [PSH] == e + cl;
    var cr, scale, load := Code(env, t.r, |e| + |cl|), ScaleCode(tl), [LI, Width(tl - PTR)];
    Assoc(e, cl, cr);
    Assoc(e, cl + cr, scale);
    Assoc(e, cl + cr + scale, [ADD]);
    Assoc(e, cl + cr + scale + [ADD], load);
    assert scale + [ADD, LI, Width(tl - PTR)] == scale + [ADD] + load;
    Assoc(e + cl + cr, scale + [ADD], load);
    Assoc(e + cl + cr, scale, [ADD]);
  }

  lemma {:induction false} AssignParses(env: Env, t: Tree, lev: int, rest: seq<Token>, e: seq<int>, ty: int)
    requires t.Assign? && Placed(env, t, lev, rest)
    ensures Parses(env, t, lev, rest, e, ty)
    decreases t, 1
  {
    hide Expr, Operand, Loop, Code, AddrCode, TypeOf, Width;
    var op := Sym(TK_ASSIGN);
    var mid := Print(t.r) + rest;
    assert Print(t) + rest == Print(t.l) + ([op] + mid);
    Behind(op, mid);
    ParseTree(env, t.l, lev, [op] + mid, e, ty);
    var c, tl := e + Code(env, t.l, |e|), TypeOf(env, t.l);
    var st := Compiler([op] + mid, c, tl);
    LvalueCode(env, t.l, |e|);
    var a := AddrCode(env, t.l, |e|);
    assert c == e + a + [LI, Width(tl)];
    assert c[..|c| - 2] + [PSH] == e + a + [PSH];
    var e1 := e + a + [PSH];
    ParseAt(env, t.r, TK_ASSIGN, rest, e1, tl);
    AssignCodeIs(env, t, e);
    ByInfix(env, lev, st, Compiler(rest, e + Code(env, t, |e|), TypeOf(env, t)));
  }

  lemma AssignCodeIs(env: Env, t: Tree, e: seq<int>)
    requires t.Assign? && WellTyped(env, t)
    ensures var tl := TypeOf(env, t.l);
            var e1 := e + AddrCode(env, t.l, |e|) + [PSH];
            && TypeOf(env, t) == tl
            && e1 + Code(env, t.r, |e1|) + [SI, Width(tl)] == e + Code(env, t, |e|)
  {
    hide AddrCode, Width;
  }

  lemma {:induction false} LogicParses(env: Env, t: Tree, lev: int, rest: seq<Token>, e: seq<int>, ty: int)
    requires t.Logic? && Placed(env, t, lev, rest)
    ensures Parses(env, t, lev, rest, e, ty)
    decreases t, 1
  {
    hide Expr, Operand, Loop, Code, TypeOf;
    var op := LogicToken(t.or);
    var mid := Print(t.r) + rest;
    assert Print(t) + rest == Print(t.l) + ([op] + mid);
    Behind(op, mid);
    ParseTree(env, t.l, lev, [op] + mid, e, ty);
    var c, tl := e + Code(env, t.l, |e|), TypeOf(env, t.l);
    var st := Compiler([op] + mid, c, tl);
    var e1 := c + [if t.or then BNZ else BZ, 0];
    ParseAt(env, t.r, if t.or then TK_LAN else TK_OR, rest, e1, tl);
    LogicCodeIs(env, t, e);
    ByInfix(env, lev, st, Compiler(rest, e + Code(env, t, |e|), TypeOf(env, t)));
  }

  lemma LogicCodeIs(env: Env, t: Tree, e: seq<int>)
    requires t.Logic? && WellTyped(env, t)
    ensures var c := e + Code(env, t.l, |e|);
            var e1 := c + [if t.or then BNZ else BZ, 0];
            var e2 := e1 + Code(env, t.r, |e1|);
            && TypeOf(env, t) == INT
            && Patch(e2, |c| + 1, |e2|) == e + Code(env, t, |e|)
  {
    hide *;
    LogicParts(env, t);
    CodeOfLogic(env, t, |e|);
    var op := if t.or then BNZ else BZ;
    var cl := Code(env, t.l, |e|);
    var cr := Code(env, t.r, |e| + |cl| + 2);
    var end := |e| + |cl| + 2 + |cr|;
    PatchIs(e + cl, op, cr, end);
    Assoc(e, cl, [op, end]);
    Assoc(e, cl + [op, end], cr);
  }

  lemma PatchIs(c: seq<int>, op: int, d: seq<int>, v: int)
    ensures Patch(c + [op, 0] + d, |c| + 1, v) == c + [op, v] + d
  {
  }

  lemma CondPlaced(env: Env, t: Tree, lev: int, rest: seq<Token>)
    requires t.Cond? && Placed(env, t, lev, rest)
    ensures lev <= TK_COND && Head(rest) < TK_COND && Head(rest) != TK_OPEN
    ensures WellTyped(env, t.c) && WellTyped(env, t.l) && WellTyped(env, t.r)
    ensures Grouped(t.c) && Grouped(t.l) && Grouped(t.r)
    ensures lev <= LevelOf(Precedence(t.c)) && TK_COND < Absorbs(t.c)
    ensures TK_ASSIGN <= LevelOf(Precedence(t.l)) && TK_COND <= LevelOf(Precedence(t.r))
    ensures Print(t) == Print(t.c) + [Sym(TK_COND)] + Print(t.l) + [Sym(TK_COLON)] + Print(t.r)
  {
  }

  lemma {:induction false} CondParses(env: Env, t: Tree, lev: int, rest: seq<Token>, e: seq<int>, ty: int)
    requires t.Cond? && Placed(env, t, lev, rest)
    ensures Parses(env, t, lev, rest, e, ty)
    decreases t, 1
  {
    hide Expr, Operand, Loop, Code, TypeOf, Patch, WellTyped, Grouped, Precedence, LevelOf, Absorbs, Print, Infix;
    CondPlaced(env, t, lev, rest);
    var last := Print(t.r) + rest;
    var tail := [Sym(TK_COLON)] + last;
    var mid := Print(t.l) + tail;
    assert Print(t) + rest == Print(t.c) + ([Sym(TK_COND)] + mid);
    Behind(Sym(TK_COND), mid);
    Behind(Sym(TK_COLON), last);
    ParseTree(env, t.c, lev, [Sym(TK_COND)] + mid, e, ty);
    var c := e + Code(env, t.c, |e|);
    var st := Compiler([Sym(TK_COND)] + mid, c, TypeOf(env, t.c));
    InfixCond(env, st);
    var e1 := c + [BZ, 0];
    ParseAt(env, t.l, TK_ASSIGN, tail, e1, st.ty);
    var e2 := e1 + Code(env, t.l, |e1|);
    var e3 := Patch(e2, |c| + 1, |e2| + 2) + [JMP, 0];
    ParseAt(env, t.r, TK_COND, rest, e3, TypeOf(env, t.l));
    CondCodeIs(env, t, e);
    ByInfix(env, lev, st, Compiler(rest, e + Code(env, t, |e|), TypeOf(env, t)));
  }

  lemma CondCodeIs(env: Env, t: Tree, e: seq<int>)
    requires t.Cond? && WellTyped(env, t)
    ensures var c := e + Code(env, t.c, |e|);
            var e1 := c + [BZ, 0];
            var e2 := e1 + Code(env, t.l, |e1|);
            var e3 := Patch(e2, |c| + 1, |e2| + 2) + [JMP, 0];
            var e4 := e3 + Code(env, t.r, |e3|);
            && TypeOf(env, t) == TypeOf(env, t.r)
            && Patch(e4, |e3| - 1, |e4|) == e + Code(env, t, |e|)
  {
    hide Patch, Code, TypeOf, WellTyped;
    CondParts(env, t);
    CodeOfCond(env, t, |e|);
    var cc := Code(env, t.c, |e|);
    var cl := Code(env, t.l, |e| + |cc| + 2);
    var skip := |e| + |cc| + 2 + |cl| + 2;
    var cr := Code(env, t.r, skip);
    PatchIs(e + cc, BZ, cl, skip);
    PatchIs(e + cc + [BZ, skip] + cl, JMP, cr, skip + |cr|);
    Assoc5(e, cc, [BZ, skip], cl, [JMP, skip + |cr|], cr);
  }

  lemma Assoc5(e: seq<int>, a: seq<int>, b: seq<int>, c: seq<int>, d: seq<int>, f: seq<int>)
    ensures e + a + b + c + d + f == e + (a + b + c + d + f)
  {
    Assoc(e, a, b);
    Assoc(e, a + b, c);
    Assoc(e, a + b + c, d);
    Assoc(e, a + b + c + d, f);
  }
}
