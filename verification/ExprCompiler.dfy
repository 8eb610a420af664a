/** expr.c as it runs: cursors, the code buffer written and patched in place. */
module ExprCompiler {
  import opened Common
  import opened Words
  import opened ExprSyntax
  import opened ExprCode
  import opened ExprParse
  import opened ExprLexer

  /**
   * `size` words are enough for compiling from st to r: twelve for each token, or, if the text is
   * accepted, what has been emitted in the end and what may have been taken back meanwhile.
   */
  predicate Fits(st: Compiler, r: Parse, size: nat) {
    || |st.e| + WORDS_PER_TOKEN * |st.toks| <= size
    || (r.Ok? && |r.st.e| + Back(st.toks) <= size + Back(r.st.toks))
  }

  function AfterStars(toks: seq<Token>): seq<Token> { if Head(toks) == TK_MUL then AfterStars(toks[1..]) else toks }

  lemma {:induction false} StarsDrop(toks: seq<Token>)
    ensures toks[CountStars(toks)..] == AfterStars(toks)
  {
    if Head(toks) == TK_MUL {
      StarsDrop(toks[1..]);
      assert toks[1..][CountStars(toks[1..])..] == toks[1 + CountStars(toks[1..])..];
    }
  }

  /** A type in parentheses, read star by star. */
  lemma TypeByStars(st: Compiler)
    ensures var r := TypeInParens(st);
            if st.toks == [] || !st.toks[0].TypeName? then r.Err?
            else
              var rest := AfterStars(st.toks[1..]);
              if Head(rest) != TK_CLOSE then r.Err?
              else r == Ok(Compiler(rest[1..], st.e, st.toks[0].base + PTR * CountStars(st.toks[1..])))
  {
    if st.toks != [] {
      var k := CountStars(st.toks[1..]);
      StarsDrop(st.toks[1..]);
      assert st.toks[1..][k..] == st.toks[1 + k..];
    }
  }

  /** What is enough for `?:` is enough for its parts. */
  lemma CondFits(env: Env, st: Compiler, size: nat)
    requires st.toks != [] && st.Next() == TK_COND && Fits(st, Infix(env, st), size)
    ensures |st.e| + 2 <= size
    ensures var r1 := Expr(env, TK_ASSIGN, st.Skip().Emit([BZ, 0]));
            && Fits(st.Skip().Emit([BZ, 0]), r1, size)
            && (r1.Ok? && r1.st.Next() == TK_COLON ==> Fits(r1.st, Expr(env, TK_COND, AtColon(r1.st, |st.e| + 1)), size))
  {
    hide Expr, Infix, Patch;
    InfixCond(env, st);
  }

  /** What is enough for `||` or `&&` is enough for its right operand. */
  lemma LogicFits(env: Env, st: Compiler, size: nat)
    requires st.toks != [] && (st.Next() == TK_LOR || st.Next() == TK_LAN) && Fits(st, Infix(env, st), size)
    ensures |st.e| + 2 <= size
    ensures var k := st.Next();
            var s0 := st.Skip().Emit([if k == TK_LOR then BNZ else BZ, 0]);
            var r := Expr(env, if k == TK_LOR then TK_LAN else TK_OR, s0);
            && Fits(s0, r, size)
            && Infix(env, st) == if r.Err? then Err else Ok(r.st.(e := Patch(r.st.e, |st.e| + 1, |r.st.e|)).Typed(INT))
  {
    hide Expr, Patch;
  }

  /** The first argument of those left, and the others behind it. */
  lemma ArgumentFits(env: Env, st: Compiler, n: nat, size: nat)
    requires st.Next() != TK_CLOSE && Fits(st, Arguments(env, st, n).0, size)
    ensures var r := Expr(env, TK_ASSIGN, st);
            && Fits(st, r, size) && (r.Err? ==> Arguments(env, st, n).0.Err?)
            && (r.Ok? ==>
                  var s := r.st.Emit([PSH]);
                  var next := if s.Next() == TK_COMMA then s.Skip() else s;
                  && |s.e| <= size && Arguments(env, st, n) == Arguments(env, next, n + 1)
                  && Fits(next, Arguments(env, next, n + 1).0, size))
  {
    hide Expr;
  }

  lemma ArgumentsEnd(env: Env, st: Compiler, n: nat)
    requires st.Next() == TK_CLOSE
    ensures Arguments(env, st, n) == (Ok(st.Skip()), n)
  {
  }

  /** As Fits, behind the name of a called function. */
  predicate RoomCall(st: Compiler, r: Parse, size: nat) {
    || |st.e| + WORDS_PER_TOKEN * (|st.toks| + 1) <= size
    || (r.Ok? && |r.st.e| + Back(st.toks) <= size + Back(r.st.toks))
  }

  /** A call is its arguments, the opcode and the number of arguments. */
  lemma CallFits(env: Env, f: string, st: Compiler, size: nat)
    requires st.toks != [] && RoomCall(st, CallOperand(env, f, st.Skip()), size)
    ensures var r := Arguments(env, st.Skip(), 0);
            && Fits(st.Skip(), r.0, size)
            && (r.0.Ok? && f in env && env[f].Sys? ==> |r.0.st.e| + (if r.1 > 0 then 3 else 1) <= size)
  {
    hide Arguments;
  }

  /** The globals of expr.c:60-71 while one text is compiled. */
  class CompilerState {
    const src: string
    const env: Env
    const buf: array<int>
    var p: nat
    var tk: Option<Token>
    var ival: int
    var n: nat
    var ty: int

    constructor (src: string, env: Env, words: nat)
      requires words >= 1
      ensures p == 0 && tk == None && n == 1 && ty == 0
      ensures this.src == src && this.env == env && buf.Length == words && fresh(buf) && buf[0] == 0
    {
      this.src, this.env := src, env;
      buf := new int[words](_ => 0);
      p, tk, ival, n, ty := 0, None, 0, 1, 0;
    }

    ghost predicate Valid()
      reads this
    {
      p <= |src| && n <= buf.Length
    }

    /** The current token and everything behind it. */
    ghost function Stream(): seq<Token>
      requires Valid()
      reads this
    {
      if tk.None? then [] else [tk.value] + LexAll(src[p..])
    }

    ghost function State(): Compiler
      requires Valid()
      reads this, buf
    {
      Compiler(Stream(), buf[..n], ty)
    }

    /** The buffer is long enough to get to r. */
    ghost predicate Room(r: Parse)
      requires Valid()
      reads this, buf
    {
      Fits(State(), r, buf.Length)
    }

    // ---- the lexer ------------------------------------------------------------------------------

    function Char(): char
      reads this
    {
      if p < |src| then src[p] else '\0'
    }

    lemma Advance()
      requires p < |src|
      ensures src[p..] != [] && src[p..][0] == src[p] && src[p..][1..] == src[p + 1..]
    {
    }

    method SkipToNewline()
      requires Valid()
      modifies this`p
      ensures Valid() && src[p..] == SkipLine(old(src[p..]))
    {
      while p < |src| && src[p] != '\0' && src[p] != '\n'
        invariant Valid() && SkipLine(src[p..]) == SkipLine(old(src[p..]))
        decreases |src| - p
      {
        Advance();
        p := p + 1;
      }
    }

    method ReadWord() returns (w: string)
      requires Valid()
      modifies this`p
      ensures Valid()
      ensures var s := old(src[p..]); w == s[..WordLength(s)] && src[p..] == s[WordLength(s)..]
    {
      ghost var s := src[p..];
      var start := p;
      while p < |src| && IsWordChar(src[p])
        invariant start <= p <= |src| && n <= buf.Length
        invariant WordLength(s) == (p - start) + WordLength(src[p..])
        decreases |src| - p
      {
        Advance();
        p := p + 1;
      }
      w := src[start..p];
      assert w == s[..p - start];
      assert src[p..] == s[p - start..];
    }

    method ReadDigits(base: int)
      requires Valid() && base in {8, 10, 16}
      modifies this`p, this`ival
      ensures Valid()
      ensures (ival, src[p..]) ==
              if base == 10 then ScanDecimal(old(src[p..]), old(ival))
              else if base == 8 then ScanOctal(old(src[p..]), old(ival))
              else ScanHex(old(src[p..]), old(ival))
    {
      while p < |src| && (if base == 10 then IsDigit(src[p]) else if base == 8 then IsOctal(src[p]) else IsHex(src[p]))
        invariant Valid()
        invariant base == 10 ==> ScanDecimal(src[p..], ival) == ScanDecimal(old(src[p..]), old(ival))
        invariant base == 8 ==> ScanOctal(src[p..], ival) == ScanOctal(old(src[p..]), old(ival))
        invariant base == 16 ==> ScanHex(src[p..], ival) == ScanHex(old(src[p..]), old(ival))
        decreases |src| - p
      {
        Advance();
        ival := Wrap(ival * base + if base == 16 then HexValue(src[p]) else DigitValue(src[p]));
        p := p + 1;
      }
    }

    /** A number; c is its first digit, already consumed. */
    method ReadNumber(c: char)
      requires Valid() && IsDigit(c)
      modifies this`p, this`ival
      ensures Valid()
      ensures (ival, src[p..]) == ScanNumber(c, old(src[p..]))
    {
      ghost var s := src[p..];
      ival := DigitValue(c);
      if c != '0' {
        ReadDigits(10);
      } else if Char() == 'x' || Char() == 'X' {
        Advance();
        p := p + 1;
        ReadDigits(16);
      } else {
        ReadDigits(8);
      }
    }

    /** next() */
    method Next()
      requires Valid()
      modifies this`p, this`tk, this`ival
      ensures Valid()
      ensures match Lex(old(src[p..]))
              case End => tk == None
              case Tok(t, r) => tk == Some(t) && src[p..] == r
    {
      hide Lex;
      ghost var s := src[p..];
      while Char() != '\0'
        invariant Valid() && Lex(src[p..]) == Lex(s)
        decreases |src| - p
      {
        var done := NextOne();
        if done { return; }
      }
      NothingLeft(src[p..]);
      tk := None;
    }

    lemma NothingLeft(s: string)
      requires First(s) == '\0'
      ensures Lex(s) == End
    {
    }

    /** One turn of next(): a token, or something to skip. */
    method NextOne() returns (done: bool)
      requires Valid() && p < |src| && src[p] != '\0'
      modifies this`p, this`tk, this`ival
      ensures Valid()
      ensures done ==> tk.Some? && Lex(old(src[p..])) == Tok(tk.value, src[p..])
      ensures !done ==> p > old(p) && Lex(src[p..]) == Lex(old(src[p..]))
    {
      hide ScanNumber, WordToken, WordLength, SkipLine, Operator;
      Advance();
      var c := Char();
      ghost var here := src[p..];
      done := true;
      if IsLetter(c) {
        var w := ReadWord();
        tk := Some(WordToken(w));
        return;
      }
      p := p + 1;
      if c == '#' {
        SkipToNewline();
        done := false;
      } else if IsDigit(c) {
        ReadNumber(c);
        tk := Some(Num(ival));
      } else if c == '/' {
        if Char() == '/' {
          SkipToNewline();
          done := false;
        } else {
          tk := Some(Sym(TK_DIV));
        }
      } else {
        var (k, more) := Operator(c, Char());
        done := k != 0;
        if done {
          p := p + more;
          tk := Some(Sym(k));
          assert src[p..] == here[1..][more..];
        }
      }
    }

    /** next() as the parser sees it: one token leaves the stream. */
    method Skip()
      requires Valid() && tk.Some?
      modifies this`p, this`tk, this`ival
      ensures Valid() && Stream() == old(Stream())[1..]
    {
      hide Lex;
      assert Stream()[1..] == LexAll(src[p..]);
      Next();
    }

    function Code(): int
      reads this
    {
      if tk.None? then 0 else Rank(tk.value)
    }

    // ---- the code buffer ------------------------------------------------------------------------

    /** `*++e = w` for each word. */
    method Emit(ws: seq<int>)
      requires Valid() && n + |ws| <= buf.Length
      modifies this`n, buf
      ensures Valid() && buf[..n] == old(buf[..n]) + ws
    {
      ghost var start := n;
      for i := 0 to |ws|
        invariant Valid() && n == start + i
        invariant buf[..n] == old(buf[..n]) + ws[..i]
      {
        buf[n] := ws[i];
        n := n + 1;
        assert ws[..i + 1] == ws[..i] + [ws[i]];
      }
      assert ws[..|ws|] == ws;
    }

    /** `*d = target` for a reserved word. */
    method PatchAt(d: nat, target: int)
      requires Valid() && d < buf.Length
      modifies buf
      ensures buf[..n] == Patch(old(buf[..n]), d, target)
    {
      buf[d] := target;
    }

    /** `*(e-1) == LI` */
    method IsLoad() returns (b: bool)
      requires Valid()
      ensures b == EndsInLoad(buf[..n])
    {
      b := n >= 2 && buf[n - 2] == LI;
    }

    /** Moves the last load one word up and pushes the address in front of it (expr.c:272, 325). */
    method KeepLocation()
      requires Valid() && EndsInLoad(buf[..n]) && n < buf.Length
      modifies this`n, buf
      ensures Valid() && buf[..n] == KeepAddress(old(buf[..n]))
    {
      buf[n - 2] := PSH;
      n := n + 1;
      buf[n - 1] := buf[n - 2];
      buf[n - 2] := LI;
    }

    // ---- the parser -----------------------------------------------------------------------------

    /** expr(lev) */
    method Expression(lev: int) returns (ok: bool)
      requires Valid() && lev > 0 && Room(Expr(env, lev, State()))
      modifies this, buf
      ensures Valid() && ok == Expr(env, lev, old(State())).Ok?
      ensures ok ==> State() == Expr(env, lev, old(State())).st
      decreases |Stream()|, 2
    {
      hide Operand, Infix;
      ghost var st := State();
      ok := ParseOperand();
      if !ok { return; }
      ghost var s1 := State();
      while Code() >= lev
        invariant Valid() && Room(Loop(env, lev, s1))
        invariant |Stream()| < |st.toks|
        invariant Loop(env, lev, State()) == Loop(env, lev, s1)
        decreases |Stream()|
      {
        ok := ParseInfix();
        if !ok { return; }
      }
    }

    /** The first half of expr(): expr.c:199-279. */
    method ParseOperand() returns (ok: bool)
      requires Valid() && Room(Operand(env, State()))
      modifies this, buf
      ensures Valid() && ok == Operand(env, old(State())).Ok?
      ensures ok ==> State() == Operand(env, old(State())).st
      decreases |Stream()|, 1
    {
      hide Operand, LexAll;
      if tk.None? {
        NoOperand();
        ok := false;
        return;
      }
      match tk.value
      case Num(_) => ok := ParseNumber();
      case SizeofWord => ok := ParseSizeof();
      case Ident(_) => ok := ParseIdentifier();
      case TypeName(_) => NoOperand(); ok := false;
      case Sym(k) =>
        if k == TK_OPEN {
          ok := ParseParenthesis();
        } else if k == TK_SUB {
          ok := ParseMinus();
        } else if k in {TK_MUL, TK_AND, TK_BANG, TK_TILDE, TK_ADD, TK_INC, TK_DEC} {
          ok := ParsePrefix();
        } else {
          NoOperand();
          ok := false;
        }
    }

    lemma NoOperand()
      requires Valid()
      requires tk.None? || tk.value.TypeName? ||
               (tk.value.Sym? && tk.value.code !in {TK_OPEN, TK_SUB, TK_MUL, TK_AND, TK_BANG, TK_TILDE, TK_ADD, TK_INC, TK_DEC})
      ensures Operand(env, State()).Err?
    {
    }

    /** A literal. */
    method ParseNumber() returns (ok: bool)
      requires Valid() && tk.Some? && tk.value.Num? && Room(Operand(env, State()))
      modifies this, buf
      ensures Valid() && ok == Operand(env, old(State())).Ok?
      ensures ok ==> State() == Operand(env, old(State())).st
      decreases |Stream()|, 0
    {
      var v := tk.value.n;
      Skip();
      Emit([IMM, v]);
      ty := INT;
      ok := true;
    }

    /** Type name, stars and closing parenthesis, as in sizeof and casts. */
    method ParseType() returns (ok: bool, t: int)
      requires Valid()
      modifies this`p, this`tk, this`ival
      ensures Valid()
      ensures var r := TypeInParens(old(State()));
              ok == r.Ok? && (ok ==> State() == r.st.Typed(ty) && t == r.st.ty)
    {
      hide LexAll, TypeInParens;
      TypeByStars(State());
      t := 0;
      if tk.None? || !tk.value.TypeName? {
        ok := false;
        return;
      }
      t := tk.value.base;
      Skip();
      ghost var first, base := Stream(), t;
      while Code() == TK_MUL
        invariant Valid() && AfterStars(Stream()) == AfterStars(first)
        invariant t + PTR * CountStars(Stream()) == base + PTR * CountStars(first)
        decreases |Stream()|
      {
        Skip();
        t := t + PTR;
      }
      ok := Code() == TK_CLOSE;
      if ok {
        Skip();
      }
    }

    /** sizeof(type) */
    method ParseSizeof() returns (ok: bool)
      requires Valid() && tk.Some? && tk.value == SizeofWord && Room(Operand(env, State()))
      modifies this, buf
      ensures Valid() && ok == Operand(env, old(State())).Ok?
      ensures ok ==> State() == Operand(env, old(State())).st
      decreases |Stream()|, 0
    {
      hide TypeInParens, LexAll;
      Skip();
      if Code() != TK_OPEN {
        ok := false;
        return;
      }
      Skip();
      var t;
      ok, t := ParseType();
      if ok {
        Emit([IMM, Width(t)]);
        ty := INT;
      }
    }

    /** A field or a call of a built-in function: expr.c:214-237. */
    method ParseIdentifier() returns (ok: bool)
      requires Valid() && tk.Some? && tk.value.Ident? && Room(Operand(env, State()))
      modifies this, buf
      ensures Valid() && ok == Operand(env, old(State())).Ok?
      ensures ok ==> State() == Operand(env, old(State())).st
      decreases |Stream()|, 0
    {
      hide LexAll, TypeInParens, CallOperand, NameOperand;
      ghost var st := State();
      var x := tk.value.name;
      Skip();
      assert Operand(env, st) == if Code() == TK_OPEN then CallOperand(env, x, State().Skip()) else NameOperand(env, x, State());
      if Code() == TK_OPEN {
        ok := ParseCall(x);
      } else {
        ok := ParseField(x);
      }
    }

    /** A field of an event. */
    method ParseField(x: string) returns (ok: bool)
      requires Valid() && (n + 4 <= buf.Length || (NameOperand(env, x, State()).Ok? && |NameOperand(env, x, State()).st.e| <= buf.Length))
      modifies this`n, this`ty, buf
      ensures Valid() && ok == NameOperand(env, x, old(State())).Ok?
      ensures ok ==> State() == NameOperand(env, x, old(State())).st
    {
      hide LexAll;
      ghost var st := State();
      ok := x in env && env[x].Global?;
      if !ok { return; }
      var g := env[x];
      if g.isArray {
        Emit([IMM, g.addr]);
        ty := g.elem + PTR;
      } else {
        Emit([IMM, g.addr] + [LI, Width(g.elem)]);
        ty := g.elem;
        assert buf[..n] == st.e + [IMM, g.addr] + [LI, Width(g.elem)];
      }
    }

    /** From the opening parenthesis of a call on. */
    method ParseCall(x: string) returns (ok: bool)
      requires Valid() && tk.Some? && Code() == TK_OPEN && RoomCall(State(), CallOperand(env, x, State().Skip()), buf.Length)
      modifies this, buf
      ensures Valid() && ok == CallOperand(env, x, old(State()).Skip()).Ok?
      ensures ok ==> State() == CallOperand(env, x, old(State()).Skip()).st
      decreases |Stream()|, 4
    {
      hide LexAll, Arguments, Fits;
      CallFits(env, x, State(), buf.Length);
      Skip();
      var count;
      ok, count := ParseArguments();
      ok := ok && x in env && env[x].Sys?;
      if !ok { return; }
      Emit([env[x].op] + if count > 0 then [ADJ, count] else []);
      ty := env[x].result;
    }

    /** Compiles and pushes arguments up to the closing parenthesis; commas between them are optional (expr.c:222). */
    method ParseArguments() returns (ok: bool, count: nat)
      requires Valid() && Room(Arguments(env, State(), 0).0)
      modifies this, buf
      ensures Valid()
      ensures ok == Arguments(env, old(State()), 0).0.Ok?
      ensures ok ==> Arguments(env, old(State()), 0) == (Ok(State()), count)
      decreases |Stream()|, 3
    {
      hide Expr, LexAll, Fits, Arguments;
      ghost var st := State();
      count := 0;
      while Code() != TK_CLOSE
        invariant Valid() && Fits(State(), Arguments(env, State(), count).0, buf.Length) && |Stream()| <= |st.toks|
        invariant Arguments(env, State(), count) == Arguments(env, st, 0)
        decreases |Stream()|
      {
        ArgumentFits(env, State(), count, buf.Length);
        ok := Expression(TK_ASSIGN);
        if !ok { return; }
        Emit([PSH]);
        count := count + 1;
        if Code() == TK_COMMA {
          Skip();
        }
      }
      ArgumentsEnd(env, State(), count);
      Skip();
      ok := true;
    }

    /** A cast or an expression in parentheses: expr.c:238-251. */
    method ParseParenthesis() returns (ok: bool)
      requires Valid() && tk.Some? && tk.value == Sym(TK_OPEN) && Room(Operand(env, State()))
      modifies this, buf
      ensures Valid() && ok == Operand(env, old(State())).Ok?
      ensures ok ==> State() == Operand(env, old(State())).st
      decreases |Stream()|, 0
    {
      hide Expr, TypeInParens, LexAll;
      Skip();
      if tk.Some? && tk.value.TypeName? {
        var t;
        ok, t := ParseType();
        if !ok { return; }
        ty := t;
        ok := Expression(TK_INC);
        ty := t;
      } else {
        ok := Expression(TK_ASSIGN);
        if !ok { return; }
        ok := Code() == TK_CLOSE;
        if ok {
          Skip();
        }
      }
    }

    /** Unary minus: expr.c:265-269. */
    method ParseMinus() returns (ok: bool)
      requires Valid() && tk.Some? && tk.value == Sym(TK_SUB) && Room(Operand(env, State()))
      modifies this, buf
      ensures Valid() && ok == Operand(env, old(State())).Ok?
      ensures ok ==> State() == Operand(env, old(State())).st
      decreases |Stream()|, 0
    {
      hide Expr, LexAll, TypeInParens, Negated;
      ghost var st := State();
      Skip();
      ghost var rest := State();
      assert Operand(env, st) == MinusOperand(env, rest);
      if tk.Some? && tk.value.Num? {
        var v := tk.value.n;
        Emit([IMM, Negated(v)]);
        Skip();
        ok := true;
      } else {
        Emit([IMM, -1, PSH]);
        ok := Expression(TK_INC);
        if !ok { return; }
        Emit([MUL]);
      }
      ty := INT;
    }

    /** The other prefix operators: expr.c:252-278. */
    method ParsePrefix() returns (ok: bool)
      requires Valid() && tk.Some? && tk.value.Sym? && tk.value.code in {TK_MUL, TK_AND, TK_BANG, TK_TILDE, TK_ADD, TK_INC, TK_DEC} && Room(Operand(env, State()))
      modifies this, buf
      ensures Valid() && ok == Operand(env, old(State())).Ok?
      ensures ok ==> State() == Operand(env, old(State())).st
      decreases |Stream()|, 0
    {
      hide Expr, LexAll, TypeInParens, Prefix;
      ghost var st := State();
      var k := tk.value.code;
      Skip();
      ok := Expression(TK_INC);
      if !ok { return; }
      assert Operand(env, st) == Prefix(k, State());
      ok := ApplyPrefix(k);
    }

    /** What a prefix operator adds behind its operand. */
    method ApplyPrefix(k: int) returns (ok: bool)
      requires Valid() && k in {TK_MUL, TK_AND, TK_BANG, TK_TILDE, TK_ADD, TK_INC, TK_DEC}
      requires n + 8 <= buf.Length || (Prefix(k, State()).Ok? && |Prefix(k, State()).st.e| <= buf.Length)
      modifies this`n, this`ty, buf
      ensures Valid() && ok == Prefix(k, old(State())).Ok?
      ensures ok ==> State() == Prefix(k, old(State())).st
    {
      hide LexAll;
      ghost var s := State();
      var load := IsLoad();
      ok := true;
      if k == TK_MUL {
        if ty < PTR { ok := false; return; }
        ty := ty - PTR;
        Emit([LI, Width(ty)]);
      } else if k == TK_AND {
        if !load { ok := false; return; }
        n := n - 2;
        assert buf[..n] == s.e[..|s.e| - 2];
        ty := ty + PTR;
      } else if k == TK_BANG {
        Emit([PSH, IMM, 0, EQ]);
        ty := INT;
      } else if k == TK_TILDE {
        Emit([PSH, IMM, -1, XOR]);
        ty := INT;
      } else if k == TK_ADD {
        ty := INT;
      } else {
        if !load { ok := false; return; }
        KeepLocation();
        Emit([PSH, IMM, StepOf(ty), StepOpcode(k == TK_INC), SI, Width(ty)]);
      }
    }

    /** One turn of the loop: expr.c:282-345. */
    method ParseInfix() returns (ok: bool)
      requires Valid() && tk.Some? && Room(Infix(env, State()))
      modifies this, buf
      ensures Valid() && ok == Infix(env, old(State())).Ok?
      ensures ok ==> State() == Infix(env, old(State())).st
      decreases |Stream()|, 1
    {
      hide Infix, LexAll;
      var k := Code();
      if k == TK_ASSIGN {
        ok := ParseAssign();
      } else if k == TK_COND {
        ok := ParseCond();
      } else if k == TK_LOR || k == TK_LAN {
        ok := ParseLogic();
      } else if TK_OR <= k <= TK_MOD {
        ok := ParseBinary();
      } else if k == TK_INC || k == TK_DEC {
        ok := ParsePostfix();
      } else if k == TK_BRAK {
        ok := ParseIndex();
      } else {
        NoInfix();
        ok := false;
      }
    }

    lemma NoInfix()
      requires Valid() && tk.Some? && !(TK_ASSIGN <= Code() <= TK_BRAK)
      ensures Infix(env, State()).Err?
    {
    }

    /** The loaded lvalue turns into a pushed address: expr.c:283-287. */
    method ParseAssign() returns (ok: bool)
      requires Valid() && tk.Some? && Code() == TK_ASSIGN && Room(Infix(env, State()))
      modifies this, buf
      ensures Valid() && ok == Infix(env, old(State())).Ok?
      ensures ok ==> State() == Infix(env, old(State())).st
      decreases |Stream()|, 0
    {
      hide Expr, LexAll;
      ghost var st := State();
      var t := ty;
      Skip();
      var load := IsLoad();
      if !load { ok := false; return; }
      n := n - 1;
      buf[n - 1] := PSH;
      assert buf[..n] == st.e[..|st.e| - 2] + [PSH];
      ok := Expression(TK_ASSIGN);
      if !ok { return; }
      ty := t;
      Emit([SI, Width(t)]);
    }

    /** Two reserved words, patched when their targets are known: expr.c:288-296. */
    method ParseCond() returns (ok: bool)
      requires Valid() && tk.Some? && Code() == TK_COND && Room(Infix(env, State()))
      modifies this, buf
      ensures Valid() && ok == Infix(env, old(State())).Ok?
      ensures ok ==> State() == Infix(env, old(State())).st
      decreases |Stream()|, 0
    {
      hide Expr, LexAll, Patch, Infix, Fits, AtColon;
      ghost var st := State();
      InfixCond(env, st);
      CondFits(env, st, buf.Length);
      Skip();
      var d := n + 1;
      Emit([BZ, 0]);
      assert State() == st.Skip().Emit([BZ, 0]);
      ok := Expression(TK_ASSIGN);
      if !ok { return; }
      assert State() == Expr(env, TK_ASSIGN, st.Skip().Emit([BZ, 0])).st;
      if Code() != TK_COLON { ok := false; return; }
      ok := ParseElse(d);
    }

    /** From the colon on: the branch to here is patched, and the jump over the rest reserved and patched. */
    method ParseElse(d: nat) returns (ok: bool)
      requires Valid() && tk.Some? && Code() == TK_COLON && d < buf.Length
      requires Room(Expr(env, TK_COND, AtColon(State(), d)))
      modifies this, buf
      ensures Valid()
      ensures var s := old(State());
              var s1 := AtColon(s, d);
              var r := Expr(env, TK_COND, s1);
              ok == r.Ok? && (ok ==> State() == r.st.(e := Patch(r.st.e, |s1.e| - 1, |r.st.e|)))
      decreases |Stream()|, 0
    {
      hide Expr, LexAll, Patch;
      Skip();
      PatchAt(d, n + 2);
      Emit([JMP, 0]);
      var j := n - 1;
      ok := Expression(TK_COND);
      if !ok { return; }
      PatchAt(j, n);
    }

    /** The short-circuit operators: expr.c:297-298. */
    method ParseLogic() returns (ok: bool)
      requires Valid() && tk.Some? && (Code() == TK_LOR || Code() == TK_LAN) && Room(Infix(env, State()))
      modifies this, buf
      ensures Valid() && ok == Infix(env, old(State())).Ok?
      ensures ok ==> State() == Infix(env, old(State())).st
      decreases |Stream()|, 0
    {
      hide Expr, LexAll, Patch, Infix, Fits;
      LogicFits(env, State(), buf.Length);
      var k := Code();
      Skip();
      var d := n + 1;
      Emit([if k == TK_LOR then BNZ else BZ, 0]);
      ok := Expression(if k == TK_LOR then TK_LAN else TK_OR);
      if !ok { return; }
      PatchAt(d, n);
      ty := INT;
    }

    /** The binary operators: expr.c:299-323. */
    method ParseBinary() returns (ok: bool)
      requires Valid() && tk.Some? && TK_OR <= Code() <= TK_MOD && Room(Infix(env, State()))
      modifies this, buf
      ensures Valid() && ok == Infix(env, old(State())).Ok?
      ensures ok ==> State() == Infix(env, old(State())).st
      decreases |Stream()|, 0
    {
      hide Expr, LexAll, BinCode;
      var k, t := Code(), ty;
      Skip();
      Emit([PSH]);
      ok := Expression(RightLevel(k));
      if !ok { return; }
      Emit(BinCode(k, t, ty));
      ty := BinType(k, t, ty);
    }

    /** Post-increment and -decrement: expr.c:324-335. */
    method ParsePostfix() returns (ok: bool)
      requires Valid() && tk.Some? && (Code() == TK_INC || Code() == TK_DEC) && Room(Infix(env, State()))
      modifies this, buf
      ensures Valid() && ok == Infix(env, old(State())).Ok?
      ensures ok ==> State() == Infix(env, old(State())).st
      decreases |Stream()|, 0
    {
      hide Expr, LexAll, KeepAddress, StepOf, Width;
      var up := Code() == TK_INC;
      var load := IsLoad();
      if !load { ok := false; return; }
      ghost var st := State();
      Skip();
      KeepLocation();
      ghost var e1 := buf[..n];
      Emit([PSH, IMM, StepOf(ty), StepOpcode(up), SI, Width(ty)]);
      Emit([PSH, IMM, StepOf(ty), StepOpcode(!up)]);
      ok := true;
    }

    /** Subscripts: expr.c:336-344. */
    method ParseIndex() returns (ok: bool)
      requires Valid() && tk.Some? && Code() == TK_BRAK && Room(Infix(env, State()))
      modifies this, buf
      ensures Valid() && ok == Infix(env, old(State())).Ok?
      ensures ok ==> State() == Infix(env, old(State())).st
      decreases |Stream()|, 0
    {
      hide Expr, LexAll, ScaleCode, Infix;
      ghost var st := State();
      InfixIndex(env, st);
      var t := ty;
      Skip();
      Emit([PSH]);
      assert State() == st.Skip().Emit([PSH]);
      ok := Expression(TK_ASSIGN);
      if !ok { return; }
      if Code() != TK_CLOSE_BRAK || t < PTR { ok := false; return; }
      Skip();
      Emit(ScaleCode(t) + [ADD, LI, Width(t - PTR)]);
      ty := t - PTR;
    }
  }

  /** Words allocated by expr_compile (expr.c:358). */
  const CODE_WORDS := 1024

  /**
   * expr_compile. The source never checks the buffer, so its callers owe it texts that fit: with the
   * unused first word and EXIT, twelve words per token or, if the text is accepted, what is emitted.
   */
  method ExprCompile(src: string, env: Env) returns (ok: bool, insn: seq<int>)
    requires FitsProgram(Compiler(LexAll(src), [0], 0), Program(env, Compiler(LexAll(src), [0], 0)), CODE_WORDS)
    ensures ok == Program(env, Compiler(LexAll(src), [0], 0)).Ok?
    ensures ok ==> insn == Program(env, Compiler(LexAll(src), [0], 0)).st.e
  {
    hide Lex, Expr;
    var c := new CompilerState(src, env, CODE_WORDS);
    insn := [];
    assert src[0..] == src;
    c.Next();
    assert c.State() == Compiler(LexAll(src), [0], 0);
    ghost var st := c.State();
    ok := c.Expression(TK_ASSIGN);
    if !ok { return; }
    while c.Code() == TK_COMMA
      invariant c.Valid() && FitsProgram(c.State(), Program(env, st), c.buf.Length)
      invariant Program(env, st) == Continue(env, c.State())
      decreases |c.Stream()|
    {
      c.Skip();
      ok := c.Expression(TK_ASSIGN);
      if !ok { return; }
    }
    c.Emit([EXIT]);
    insn := c.buf[..c.n];
  }

  /** The same for a whole program, with EXIT. */
  predicate FitsProgram(st: Compiler, r: Parse, size: nat) {
    || |st.e| + WORDS_PER_TOKEN * |st.toks| + 1 <= size
    || (r.Ok? && |r.st.e| + Back(st.toks) <= size + Back(r.st.toks))
  }

  /** What Program does behind an expression. */
  function Continue(env: Env, s: Compiler): Parse {
    if s.Next() == TK_COMMA then Program(env, s.Skip()) else Ok(s.Emit([EXIT]))
  }
}
