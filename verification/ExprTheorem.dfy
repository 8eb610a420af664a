/** From the text of a program to its result. */
module ExprTheorem {
  import opened Words
  import opened ExprSyntax
  import opened ExprCode
  import opened ExprMachine
  import opened ExprProgram
  import opened ExprParse
  import opened ExprPrecedence
  import opened ExprPrinting
  import opened ExprSpelling
  import opened ExprLexer
  import opened ExprCompiler

  /**
   * Writing a program, lexing and compiling the text, and running the code gives the value of the
   * program. The text fits the code buffer if its image does, with two words to spare for each `&`, or
   * if there are twelve words for each token; then it also fits the stack.
   */
  method EvaluateText(env: Env, ts: seq<Tree>, m: Memory) returns (o: Outcome)
    requires GoodEnv(env) && ts != [] && AllWellTyped(env, ts)
    requires forall t :: t in PrintProgram(ts) ==> Writable(t)
    requires var tokens := |PrintProgram(ts)|;
             |Image(env, ts)| + Back(PrintProgram(ts)) <= CODE_WORDS || WORDS_PER_TOKEN * tokens + 2 <= CODE_WORDS
    ensures o == Expected(ProgramValue(env, ts, 0, m))
  {
    hide Steps, Program, Write, LexAll, Expr, Value;
    var toks := PrintProgram(ts);
    var text := Write(toks);
    LexInvertsWrite(toks);
    ProgramParses(env, ts, [0], 0);
    SmallImageFits(env, ts, 1);
    ImageCorrect(env, ts, m);
    ImageShaped(env, ts);
    var ok, insn := ExprCompile(text, env);
    o := ExprRun(insn, m);
  }

  lemma {:induction false} SmallImageFits(env: Env, ts: seq<Tree>, base: nat)
    requires AllWellTyped(env, ts) && |ProgramCode(env, ts, base)| <= CODE_WORDS
    ensures FitsStack(ts)
    decreases |ts|
  {
    hide Depth, WellTyped, Code, Size;
    if ts != [] {
      var c := Code(env, ts[0], base);
      SizeIs(env, ts[0], base);
      DepthBySize(env, ts[0]);
      SmallImageFits(env, ts[1..], base + |c|);
      assert forall i :: 1 <= i < |ts| ==> ts[i] == ts[1..][i - 1];
    }
  }

  // ---- any spelling compiles alike --------------------------------------------------------------

  /** The tokens of a tree that are not its operands'. */
  function Own(t: Tree): seq<Token> {
    match t
    case Lit(n) => [Num(n)]
    case SizeOf(ty) => Print(t)
    case Name(x) => [Ident(x)]
    case Paren(_) => [Sym(TK_OPEN), Sym(TK_CLOSE)]
    case Cast(ty, _) => if ty >= 0 then TypeTokens(ty) else []
    case Deref(_) => [Sym(TK_MUL)]
    case AddrOf(_) => [Sym(TK_AND)]
    case Un(u, _) => [UnaryToken(u)]
    case Pre(up, _) => [StepToken(up)]
    case Post(up, _) => [StepToken(up)]
    case Assign(_, _) => [Sym(TK_ASSIGN)]
    case Cond(_, _, _) => [Sym(TK_COND), Sym(TK_COLON)]
    case Logic(or, _, _) => [LogicToken(or)]
    case Bin(op, _, _) => [Sym(op)]
    case Index(_, _) => [Sym(TK_BRAK), Sym(TK_CLOSE_BRAK)]
    case Call(f, _) => [Ident(f), Sym(TK_OPEN), Sym(TK_CLOSE)]
  }

  /** A token of an operand. */
  predicate InOperand(t: Tree, tok: Token) {
    if t.Cond? then tok in Print(t.c) || tok in Print(t.l) || tok in Print(t.r)
    else if IsInfix(t) then tok in Print(t.l) || tok in Print(t.r)
    else !(t.Lit? || t.SizeOf? || t.Name?) && tok in Print(t.e)
  }

  lemma OwnTokens(t: Tree, tok: Token)
    ensures tok in Print(t) <==> tok in Own(t) || InOperand(t, tok)
  {
    hide TypeTokens;
  }

  /** Added parentheses add no other tokens. */
  lemma {:induction false} DressedTokens(u: Tree, t: Tree, tok: Token)
    requires Dresses(u, t) && tok in Print(u)
    ensures tok in Print(t) || tok == Sym(TK_OPEN) || tok == Sym(TK_CLOSE)
    decreases u
  {
    hide Print, Own;
    OwnTokens(u, tok);
    OwnTokens(t, tok);
    if u.Paren? && Dresses(u.e, t) {
      assert Own(u) == [Sym(TK_OPEN), Sym(TK_CLOSE)] by { OwnOfParen(u); }
      if tok in Print(u.e) {
        DressedTokens(u.e, t, tok);
      }
    } else {
      DressedHead(u, t);
      SameOwn(u, t);
      if InOperand(u, tok) {
        DressedOperand(u, t, tok);
      }
    }
  }

  lemma OwnOfParen(u: Tree)
    requires u.Paren?
    ensures Own(u) == [Sym(TK_OPEN), Sym(TK_CLOSE)]
  {
  }

  lemma SameOwn(u: Tree, t: Tree)
    requires SameHead(u, t)
    ensures Own(u) == Own(t)
  {
  }

  lemma {:induction false} DressedOperand(u: Tree, t: Tree, tok: Token)
    requires Dresses(u, t) && !(u.Paren? && Dresses(u.e, t)) && InOperand(u, tok)
    ensures InOperand(t, tok) || tok == Sym(TK_OPEN) || tok == Sym(TK_CLOSE)
    decreases u, 0
  {
    hide Print;
    if t.Cond? && tok in Print(u.c) {
      DressedTokens(u.c, t.c, tok);
    } else if IsInfix(t) {
      if tok in Print(u.l) {
        DressedTokens(u.l, t.l, tok);
      } else {
        DressedTokens(u.r, t.r, tok);
      }
    } else {
      DressedTokens(u.e, t.e, tok);
    }
  }

  /** The tokens of t can be written. */
  predicate Spelled(t: Tree) { forall i :: 0 <= i < |Print(t)| ==> Writable(Print(t)[i]) }

  lemma DressedSpelled(u: Tree, t: Tree)
    requires Dresses(u, t) && Spelled(t)
    ensures Spelled(u)
  {
    hide Dresses, Print;
    forall i | 0 <= i < |Print(u)|
      ensures Writable(Print(u)[i])
    {
      DressedTokens(u, t, Print(u)[i]);
    }
  }

  /**
   * From characters: however an expression is parenthesised, as long as operands that bind less tightly
   * are in parentheses, its text compiles to the code of its tree; and that is the code of t if and only
   * if no `-n` of t has become `-(n)`.
   */
  lemma SpellingTheorem(env: Env, u: Tree, t: Tree, e: seq<int>, ty: int)
    requires WellTyped(env, t) && Dresses(u, t) && Grouped(u) && Spelled(t)
    ensures WellTyped(env, u)
    ensures var r := Program(env, Compiler(LexAll(Write(Print(u))), e, ty));
            && r == Ok(Compiler([], e + Code(env, u, |e|) + [EXIT], TypeOf(env, t)))
            && (r == Ok(Compiler([], e + Code(env, t, |e|) + [EXIT], TypeOf(env, t))) <==> Keeps(u, t))
  {
    hide Expr, Code, Print, TypeOf, WellTyped, Dresses, Grouped, Write, LexAll, Spelled, Keeps;
    DressedTyped(env, u, t);
    DressedSpelled(u, t);
    SpelledLexes(u);
    ParseAt(env, u, TK_ASSIGN, [], e, ty) by { LowestLevel(u); }
    assert Print(u) + [] == Print(u);
    SameCodeExactly(env, u, t, |e|);
    Between(e, Code(env, u, |e|), Code(env, t, |e|), [EXIT]);
  }

  lemma Between(e: seq<int>, a: seq<int>, b: seq<int>, x: seq<int>)
    ensures e + a + x == e + b + x <==> a == b
  {
    if e + a + x == e + b + x {
      assert |a| == |b|;
      assert a == (e + a + x)[|e|..|e| + |a|];
      assert b == (e + b + x)[|e|..|e| + |b|];
    }
  }

  lemma SpelledLexes(u: Tree)
    requires Spelled(u)
    ensures LexAll(Write(Print(u))) == Print(u)
  {
    hide Print, Writable;
    LexInvertsWrite(Print(u));
  }

  /**
   * The text with the fewest parentheses and the text with parentheses around every operand but a negated
   * literal compile to the same code, that of the tree.
   */
  lemma TextTheorem(env: Env, t: Tree, e: seq<int>, ty: int)
    requires WellTyped(env, t) && Spelled(t)
    ensures Program(env, Compiler(LexAll(Write(Print(Minimal(t)))), e, ty))
         == Program(env, Compiler(LexAll(Write(Print(Full(t)))), e, ty))
         == Ok(Compiler([], e + Code(env, t, |e|) + [EXIT], TypeOf(env, t)))
  {
    hide Program, Code, Print, TypeOf, WellTyped, Dresses, Grouped, Write, LexAll, Spelled, Keeps;
    MinimalDresses(t);
    FullDresses(t);
    SpellingTheorem(env, Minimal(t), t, e, ty);
    SpellingTheorem(env, Full(t), t, e, ty);
  }
}
