/** What the parser of expr.c refuses: each syntax error of expr(), but for operands that are no lvalues. */
module ExprErrors {
  import opened Common
  import opened Words
  import opened ExprSyntax
  import opened ExprCode
  import opened ExprParse
  import opened ExprPrecedence

  lemma OperandFails(env: Env, lev: int, st: Compiler)
    requires lev > 0 && Operand(env, st).Err?
    ensures Expr(env, lev, st).Err?
  {
    hide Operand, Loop;
  }

  /** The operator behind t fails. */
  lemma InfixFails(env: Env, t: Tree, lev: int, rest: seq<Token>, e: seq<int>, ty: int)
    requires Placed(env, t, lev, rest) && rest != [] && Head(rest) >= lev
    requires Infix(env, Compiler(rest, e + Code(env, t, |e|), TypeOf(env, t))).Err?
    ensures Expr(env, lev, Compiler(Print(t) + rest, e, ty)).Err?
  {
    hide Operand, Infix, Code, Print, TypeOf, Expr;
    ParseTree(env, t, lev, rest, e, ty);
  }

  /** Nothing that can begin an expression: the end of the text, a type name, or another operator than a prefix. */
  predicate BeginsNothing(toks: seq<Token>) {
    toks == [] || toks[0].TypeName? ||
    (toks[0].Sym? && toks[0].code !in {TK_OPEN, TK_MUL, TK_AND, TK_BANG, TK_TILDE, TK_ADD, TK_SUB, TK_INC, TK_DEC})
  }

  /** "unexpected eof in expression", "bad expression" */
  lemma NoOperand(env: Env, lev: int, toks: seq<Token>, e: seq<int>, ty: int)
    requires lev > 0 && BeginsNothing(toks)
    ensures Expr(env, lev, Compiler(toks, e, ty)).Err?
  {
    hide Expr, CallOperand, NameOperand, MinusOperand, Prefix, TypeInParens;
    OperandFails(env, lev, Compiler(toks, e, ty));
  }

  /** The same behind a binary operator. */
  lemma NoRightOperand(env: Env, t: Tree, lev: int, op: BinToken, toks: seq<Token>, e: seq<int>, ty: int)
    requires Placed(env, t, lev, [Sym(op)] + toks) && op >= lev && BeginsNothing(toks)
    ensures Expr(env, lev, Compiler(Print(t) + ([Sym(op)] + toks), e, ty)).Err?
  {
    hide Code, Print, TypeOf, WellTyped, Grouped, BinCode, BinType;
    var rest := [Sym(op)] + toks;
    Behind(Sym(op), toks);
    var st := Compiler(rest, e + Code(env, t, |e|), TypeOf(env, t));
    assert st.Skip().toks == toks;
    NoOperand(env, RightLevel(op), toks, st.e + [PSH], st.ty);
    assert st.Skip().Emit([PSH]) == Compiler(toks, st.e + [PSH], st.ty);
    InfixFails(env, t, lev, rest, e, ty);
  }

  /** t is followed by a token at which an expression in brackets ends. */
  predicate EndsAt(env: Env, t: Tree, rest: seq<Token>) {
    WellTyped(env, t) && Grouped(t) && Head(rest) < TK_ASSIGN && Head(rest) != TK_OPEN
  }

  lemma EndOf(env: Env, t: Tree, rest: seq<Token>, e: seq<int>, ty: int)
    requires EndsAt(env, t, rest)
    ensures Expr(env, TK_ASSIGN, Compiler(Print(t) + rest, e, ty)) == Ok(Compiler(rest, e + Code(env, t, |e|), TypeOf(env, t)))
  {
    hide Expr, Code, Print, TypeOf, WellTyped, Grouped;
    ParseAt(env, t, TK_ASSIGN, rest, e, ty);
  }

  /** "close paren expected" */
  lemma Unclosed(env: Env, t: Tree, lev: int, rest: seq<Token>, e: seq<int>, ty: int)
    requires lev > 0 && EndsAt(env, t, rest) && Head(rest) != TK_CLOSE
    ensures Expr(env, lev, Compiler([Sym(TK_OPEN)] + (Print(t) + rest), e, ty)).Err?
  {
    hide Expr, Code, Print, TypeOf, WellTyped, Grouped, CallOperand, NameOperand, MinusOperand, Prefix, TypeInParens;
    Behind(Sym(TK_OPEN), Print(t) + rest);
    FirstToken(env, t);
    assert (Print(t) + rest)[0] == Print(t)[0];
    EndOf(env, t, rest, e, ty);
    OperandFails(env, lev, Compiler([Sym(TK_OPEN)] + (Print(t) + rest), e, ty));
  }

  /** "close bracket expected", "pointer type expected" */
  lemma BadIndex(env: Env, l: Tree, r: Tree, lev: int, rest: seq<Token>, e: seq<int>, ty: int)
    requires WellTyped(env, l) && Grouped(l) && Precedence(l) <= 1 && IsLevel(lev) && EndsAt(env, r, rest)
    requires Head(rest) != TK_CLOSE_BRAK || TypeOf(env, l) < PTR
    ensures Expr(env, lev, Compiler(Print(l) + ([Sym(TK_BRAK)] + (Print(r) + rest)), e, ty)).Err?
  {
    hide Expr, Infix, Code, Print, TypeOf, WellTyped, Grouped, EndsAt;
    var behind := [Sym(TK_BRAK)] + (Print(r) + rest);
    Behind(Sym(TK_BRAK), Print(r) + rest);
    var st := Compiler(behind, e + Code(env, l, |e|), TypeOf(env, l));
    assert st.Skip().Emit([PSH]) == Compiler(Print(r) + rest, st.e + [PSH], st.ty);
    EndOf(env, r, rest, st.e + [PSH], st.ty);
    InfixIndex(env, st);
    SuffixPlaced(env, l, lev, behind);
    InfixFails(env, l, lev, behind, e, ty);
  }

  lemma SuffixPlaced(env: Env, l: Tree, lev: int, rest: seq<Token>)
    requires WellTyped(env, l) && Grouped(l) && Precedence(l) <= 1 && IsLevel(lev) && Head(rest) == TK_BRAK
    ensures Placed(env, l, lev, rest)
  {
    hide WellTyped, Grouped;
  }

  /** "conditional missing colon" */
  lemma NoColon(env: Env, c: Tree, l: Tree, lev: int, rest: seq<Token>, e: seq<int>, ty: int)
    requires Placed(env, c, lev, [Sym(TK_COND)] + (Print(l) + rest)) && lev <= TK_COND && EndsAt(env, l, rest) && Head(rest) != TK_COLON
    ensures Expr(env, lev, Compiler(Print(c) + ([Sym(TK_COND)] + (Print(l) + rest)), e, ty)).Err?
  {
    hide Expr, Infix, Code, Print, TypeOf, EndsAt, WellTyped, Grouped;
    var behind := [Sym(TK_COND)] + (Print(l) + rest);
    Behind(Sym(TK_COND), Print(l) + rest);
    var st := Compiler(behind, e + Code(env, c, |e|), TypeOf(env, c));
    assert st.Skip().Emit([BZ, 0]) == Compiler(Print(l) + rest, st.e + [BZ, 0], st.ty);
    EndOf(env, l, rest, st.e + [BZ, 0], st.ty);
    InfixCond(env, st);
    InfixFails(env, c, lev, behind, e, ty);
  }

  /** "bad dereference" */
  lemma NotAPointer(env: Env, t: Tree, lev: int, rest: seq<Token>, e: seq<int>, ty: int)
    requires lev > 0 && WellTyped(env, t) && Grouped(t) && Precedence(t) <= 2 && Head(rest) < TK_INC && Head(rest) != TK_OPEN
    requires TypeOf(env, t) < PTR
    ensures Expr(env, lev, Compiler([Sym(TK_MUL)] + (Print(t) + rest), e, ty)).Err?
  {
    hide Expr, Code, Print, TypeOf, WellTyped, Grouped, CallOperand, NameOperand, MinusOperand, TypeInParens;
    Behind(Sym(TK_MUL), Print(t) + rest);
    ParseAt(env, t, TK_INC, rest, e, ty);
    OperandFails(env, lev, Compiler([Sym(TK_MUL)] + (Print(t) + rest), e, ty));
  }

  /** "undefined variable": only declared fields can be named. */
  lemma Undefined(env: Env, x: string, lev: int, rest: seq<Token>, e: seq<int>, ty: int)
    requires lev > 0 && Head(rest) != TK_OPEN && !(x in env && env[x].Global?)
    ensures Expr(env, lev, Compiler([Ident(x)] + rest, e, ty)).Err?
  {
    hide Expr, CallOperand, MinusOperand, Prefix, TypeInParens;
    Behind(Ident(x), rest);
    OperandFails(env, lev, Compiler([Ident(x)] + rest, e, ty));
  }

  /** "bad function call": only functions can be called. */
  lemma BadCall(env: Env, f: string, lev: int, rest: seq<Token>, e: seq<int>, ty: int)
    requires lev > 0 && !(f in env && env[f].Sys?)
    ensures Expr(env, lev, Compiler([Ident(f)] + ([Sym(TK_OPEN)] + rest), e, ty)).Err?
  {
    hide Expr, NameOperand, MinusOperand, Prefix, TypeInParens, Arguments;
    Behind(Ident(f), [Sym(TK_OPEN)] + rest);
    Behind(Sym(TK_OPEN), rest);
    OperandFails(env, lev, Compiler([Ident(f)] + ([Sym(TK_OPEN)] + rest), e, ty));
  }

  /** No type, or one that is not closed, behind an opening parenthesis. */
  predicate NoType(toks: seq<Token>, base: int, k: nat, rest: seq<Token>) {
    || toks == [] || !toks[0].TypeName?
    || (toks == [TypeName(base)] + (Stars(k) + rest) && Head(rest) != TK_MUL && Head(rest) != TK_CLOSE)
  }

  lemma NoTypeFails(st: Compiler, base: int, k: nat, rest: seq<Token>)
    requires NoType(st.toks, base, k, rest)
    ensures TypeInParens(st).Err?
  {
    hide Stars, CountStars;
    if st.toks != [] && st.toks[0].TypeName? {
      StarsCount(k, rest);
      assert st.toks[1..] == Stars(k) + rest;
      assert st.toks[1 + k..] == rest;
    }
  }

  /** "open paren expected in sizeof", "wrong type", "close paren expected in sizeof" */
  lemma BadSizeof(env: Env, lev: int, toks: seq<Token>, base: int, k: nat, rest: seq<Token>, e: seq<int>, ty: int)
    requires lev > 0
    ensures Head(toks) != TK_OPEN ==> Expr(env, lev, Compiler([SizeofWord] + toks, e, ty)).Err?
    ensures NoType(toks, base, k, rest) ==> Expr(env, lev, Compiler([SizeofWord] + ([Sym(TK_OPEN)] + toks), e, ty)).Err?
  {
    hide Expr, CallOperand, NameOperand, MinusOperand, Prefix, TypeInParens, NoType;
    Behind(SizeofWord, toks);
    Behind(SizeofWord, [Sym(TK_OPEN)] + toks);
    Behind(Sym(TK_OPEN), toks);
    if Head(toks) != TK_OPEN {
      OperandFails(env, lev, Compiler([SizeofWord] + toks, e, ty));
    }
    if NoType(toks, base, k, rest) {
      NoTypeFails(Compiler(toks, e, ty), base, k, rest);
      OperandFails(env, lev, Compiler([SizeofWord] + ([Sym(TK_OPEN)] + toks), e, ty));
    }
  }

  /** "bad cast" */
  lemma BadCast(env: Env, lev: int, base: int, k: nat, rest: seq<Token>, e: seq<int>, ty: int)
    requires lev > 0 && Head(rest) != TK_MUL && Head(rest) != TK_CLOSE
    ensures Expr(env, lev, Compiler([Sym(TK_OPEN)] + ([TypeName(base)] + (Stars(k) + rest)), e, ty)).Err?
  {
    hide Expr, CallOperand, NameOperand, MinusOperand, Prefix, TypeInParens, Stars;
    var toks := [TypeName(base)] + (Stars(k) + rest);
    Behind(Sym(TK_OPEN), toks);
    NoTypeFails(Compiler(toks, e, ty), base, k, rest);
    OperandFails(env, lev, Compiler([Sym(TK_OPEN)] + toks, e, ty));
  }
}
