/** Minimal and full parentheses give the same code; whole programs compile to their image. */
module ExprPrinting {
  import opened Words
  import opened ExprSyntax
  import opened ExprCode
  import opened ExprParse
  import opened ExprPrecedence
  import opened ExprProgram
  import ExprMachine

  // ---- inserting parentheses -------------------------------------------------------------------

  /** An operand for a place that accepts rows up to `row`. */
  function Fit(u: Tree, row: nat): (r: Tree)
    ensures Grouped(u) ==> Grouped(r)
    ensures row >= 1 ==> Precedence(r) <= row
  {
    if Precedence(u) <= row then u else Paren(u)
  }

  /** t with only the parentheses the table requires. */
  function Minimal(t: Tree): (u: Tree)
    ensures Grouped(u)
  {
    match t
    case Lit(_) => t
    case SizeOf(_) => t
    case Name(_) => t
    case Paren(e) => Paren(Minimal(e))
    case Call(f, e) => Call(f, Minimal(e))
    case Post(up, e) => Post(up, Fit(Minimal(e), 1))
    case Index(l, r) => Index(Fit(Minimal(l), 1), Minimal(r))
    case Cast(ty, e) => Cast(ty, Fit(Minimal(e), 2))
    case Deref(e) => Deref(Fit(Minimal(e), 2))
    case AddrOf(e) => AddrOf(Fit(Minimal(e), 2))
    case Un(u, e) => Un(u, Fit(Minimal(e), 2))
    case Pre(up, e) => Pre(up, Fit(Minimal(e), 2))
    case Bin(op, l, r) => Bin(op, Fit(Minimal(l), BinPrecedence(op)), Fit(Minimal(r), BinPrecedence(op) - 1))
    case Logic(or, l, r) =>
      Logic(or, Fit(Minimal(l), LogicPrecedence(or)), Fit(Minimal(r), LogicPrecedence(or) - 1))
    case Cond(c, l, r) => Cond(Fit(Minimal(c), 12), Minimal(l), Fit(Minimal(r), 13))
    case Assign(l, r) => Assign(Fit(Minimal(l), 2), Minimal(r))
  }

  function Wrapped(u: Tree): (r: Tree)
    ensures Grouped(u) ==> Grouped(r)
    ensures Precedence(r) <= 1
  {
    Paren(u)
  }

  /** Parentheses around every operand but a negated literal. */
  function Full(t: Tree): (u: Tree)
    ensures Grouped(u)
  {
    match t
    case Lit(_) => t
    case SizeOf(_) => t
    case Name(_) => t
    case Paren(e) => Paren(Full(e))
    case Call(f, e) => Call(f, Wrapped(Full(e)))
    case Post(up, e) => Post(up, Wrapped(Full(e)))
    case Index(l, r) => Index(Wrapped(Full(l)), Wrapped(Full(r)))
    case Cast(ty, e) => Cast(ty, Wrapped(Full(e)))
    case Deref(e) => Deref(Wrapped(Full(e)))
    case AddrOf(e) => AddrOf(Wrapped(Full(e)))
    case Un(u, e) => Un(u, if u.Minus? && e.Lit? then e else Wrapped(Full(e)))
    case Pre(up, e) => Pre(up, Wrapped(Full(e)))
    case Bin(op, l, r) => Bin(op, Wrapped(Full(l)), Wrapped(Full(r)))
    case Logic(or, l, r) => Logic(or, Wrapped(Full(l)), Wrapped(Full(r)))
    case Cond(c, l, r) => Cond(Wrapped(Full(c)), Wrapped(Full(l)), Wrapped(Full(r)))
    case Assign(l, r) => Assign(Wrapped(Full(l)), Wrapped(Full(r)))
  }

  /** u is t with parentheses added anywhere. */
  predicate Dresses(u: Tree, t: Tree)
    decreases u
  {
    (u.Paren? && Dresses(u.e, t)) ||
    match t
    case Lit(_) => u == t
    case SizeOf(_) => u == t
    case Name(_) => u == t
    case Paren(e) => u.Paren? && Dresses(u.e, e)
    case Call(f, e) => u.Call? && u.f == f && Dresses(u.e, e)
    case Post(up, e) => u.Post? && u.up == up && Dresses(u.e, e)
    case Index(l, r) => u.Index? && Dresses(u.l, l) && Dresses(u.r, r)
    case Cast(ty, e) => u.Cast? && u.ty == ty && Dresses(u.e, e)
    case Deref(e) => u.Deref? && Dresses(u.e, e)
    case AddrOf(e) => u.AddrOf? && Dresses(u.e, e)
    case Un(k, e) => u.Un? && u.u == k && Dresses(u.e, e)
    case Pre(up, e) => u.Pre? && u.up == up && Dresses(u.e, e)
    case Bin(op, l, r) => u.Bin? && u.op == op && Dresses(u.l, l) && Dresses(u.r, r)
    case Logic(or, l, r) => u.Logic? && u.or == or && Dresses(u.l, l) && Dresses(u.r, r)
    case Cond(c, l, r) => u.Cond? && Dresses(u.c, c) && Dresses(u.l, l) && Dresses(u.r, r)
    case Assign(l, r) => u.Assign? && Dresses(u.l, l) && Dresses(u.r, r)
  }

  /** u and t are the same operator, or the same leaf. */
  predicate SameHead(u: Tree, t: Tree) {
    match t
    case Lit(_) => u == t
    case SizeOf(_) => u == t
    case Name(_) => u == t
    case Paren(_) => u.Paren?
    case Call(f, _) => u.Call? && u.f == f
    case Post(up, _) => u.Post? && u.up == up
    case Index(_, _) => u.Index?
    case Cast(ty, _) => u.Cast? && u.ty == ty
    case Deref(_) => u.Deref?
    case AddrOf(_) => u.AddrOf?
    case Un(k, _) => u.Un? && u.u == k
    case Pre(up, _) => u.Pre? && u.up == up
    case Bin(op, _, _) => u.Bin? && u.op == op
    case Logic(or, _, _) => u.Logic? && u.or == or
    case Cond(_, _, _) => u.Cond?
    case Assign(_, _) => u.Assign?
  }

  lemma DressedHead(u: Tree, t: Tree)
    requires Dresses(u, t) && !(u.Paren? && Dresses(u.e, t))
    ensures SameHead(u, t)
  {
  }

  /** t without parentheses, but for those of a literal right behind a minus. */
  function Core(t: Tree): (r: Tree)
    ensures !r.Paren?
  {
    match t
    case Lit(_) => t
    case SizeOf(_) => t
    case Name(_) => t
    case Paren(e) => Core(e)
    case Call(f, e) => Call(f, Core(e))
    case Post(up, e) => Post(up, Core(e))
    case Index(l, r) => Index(Core(l), Core(r))
    case Cast(ty, e) => Cast(ty, Core(e))
    case Deref(e) => Deref(Core(e))
    case AddrOf(e) => AddrOf(Core(e))
    case Un(k, e) => Un(k, if k.Minus? && Bracketed(e) then Paren(Core(e)) else Core(e))
    case Pre(up, e) => Pre(up, Core(e))
    case Bin(op, l, r) => Bin(op, Core(l), Core(r))
    case Logic(or, l, r) => Logic(or, Core(l), Core(r))
    case Cond(c, l, r) => Cond(Core(c), Core(l), Core(r))
    case Assign(l, r) => Assign(Core(l), Core(r))
  }

  /** A literal in parentheses. */
  predicate Bracketed(t: Tree) { t.Paren? && (t.e.Lit? || Bracketed(t.e)) }

  /** But for parentheses u and t are the same, and u has `-(n)` exactly where t has it. */
  predicate Keeps(u: Tree, t: Tree) { Core(u) == Core(t) }

  /** A literal, bracketed or not, is one in either tree. */
  lemma {:induction false} LiteralDressed(u: Tree, t: Tree)
    requires Dresses(u, t)
    ensures u.Lit? ==> u == t
    ensures t.Lit? ==> u == t || Bracketed(u)
    ensures Bracketed(t) ==> Bracketed(u)
    ensures Bracketed(u) ==> t.Lit? || Bracketed(t)
    decreases u
  {
    if u.Paren? && Dresses(u.e, t) {
      LiteralDressed(u.e, t);
    } else if t.Paren? {
      LiteralDressed(u.e, t.e);
    }
  }

  /** For the same operator it is a matter of the operands, and of a literal behind a minus. */
  lemma KeepsParts(u: Tree, t: Tree)
    requires Dresses(u, t) && !(u.Paren? && Dresses(u.e, t))
    ensures SameHead(u, t)
    ensures IsInfix(t) ==> Dresses(u.l, t.l) && Dresses(u.r, t.r) && (t.Cond? ==> Dresses(u.c, t.c))
    ensures IsInfix(t) ==> (Keeps(u, t) <==> Keeps(u.l, t.l) && Keeps(u.r, t.r) && (t.Cond? ==> Keeps(u.c, t.c)))
    ensures !IsInfix(t) && !(t.Lit? || t.SizeOf? || t.Name?) ==> Dresses(u.e, t.e) && (u.e.Lit? ==> u.e == t.e)
    ensures !IsInfix(t) && !(t.Lit? || t.SizeOf? || t.Name?) ==>
              (Keeps(u, t) <==> Keeps(u.e, t.e) && (t.Un? && t.u.Minus? && t.e.Lit? ==> u.e == t.e))
    ensures t.Lit? || t.SizeOf? || t.Name? ==> u == t && Keeps(u, t)
  {
    if !IsInfix(t) && !(t.Lit? || t.SizeOf? || t.Name?) {
      LiteralDressed(u.e, t.e);
    }
  }

  lemma FitDresses(u: Tree, t: Tree, row: nat)
    requires Dresses(u, t) && row >= 1
    ensures Dresses(Fit(u, row), t) && (Keeps(Fit(u, row), t) <==> Keeps(u, t))
  {
  }

  lemma WrappedDresses(u: Tree, t: Tree)
    requires Dresses(u, t)
    ensures Dresses(Wrapped(u), t) && (Keeps(Wrapped(u), t) <==> Keeps(u, t))
  {
  }

  /** u is t with parentheses that keep its code, and brackets a literal where t does. */
  predicate Respells(u: Tree, t: Tree) { Dresses(u, t) && Keeps(u, t) && (Bracketed(u) <==> Bracketed(t)) }

  /** The same operator on operands that are respelled. */
  lemma Assembles(u: Tree, t: Tree)
    requires SameHead(u, t)
    requires IsInfix(t) ==> Dresses(u.l, t.l) && Keeps(u.l, t.l) && Dresses(u.r, t.r) && Keeps(u.r, t.r)
    requires t.Cond? ==> Dresses(u.c, t.c) && Keeps(u.c, t.c)
    requires !IsInfix(t) && !(t.Lit? || t.SizeOf? || t.Name?) ==> Dresses(u.e, t.e) && Keeps(u.e, t.e)
    requires t.Un? && t.u.Minus? ==> (Bracketed(u.e) <==> Bracketed(t.e))
    requires t.Paren? ==> (Bracketed(u.e) <==> Bracketed(t.e)) && (u.e.Lit? <==> t.e.Lit?)
    ensures Respells(u, t) && (u.Lit? <==> t.Lit?)
  {
  }

  lemma {:induction false} MinimalDresses(t: Tree)
    ensures Dresses(Minimal(t), t) && Keeps(Minimal(t), t)
    ensures Respells(Minimal(t), t) && (Minimal(t).Lit? <==> t.Lit?)
    ensures forall row: nat :: row >= 1 ==> Respells(Fit(Minimal(t), row), t)
    decreases t, 1
  {
    hide Fit;
    MinimalShape(t);
    forall row: nat | row >= 1
      ensures Respells(Fit(Minimal(t), row), t)
    {
      FitDresses(Minimal(t), t, row);
      FitLiteral(Minimal(t), row);
    }
  }

  lemma FitLiteral(u: Tree, row: nat)
    requires row >= 1
    ensures Bracketed(Fit(u, row)) <==> Bracketed(u)
  {
  }

  lemma {:induction false} MinimalShape(t: Tree)
    ensures Respells(Minimal(t), t) && (Minimal(t).Lit? <==> t.Lit?)
    decreases t, 0
  {
    hide Fit, Dresses, Keeps, Bracketed, Core;
    match t {
      case Lit(_) =>
      case SizeOf(_) =>
      case Name(_) =>
      case Paren(e) => MinimalDresses(e);
      case Call(_, e) => MinimalDresses(e);
      case Post(_, e) => MinimalDresses(e);
      case Index(l, r) => MinimalDresses(l); MinimalDresses(r);
      case Cast(_, e) => MinimalDresses(e);
      case Deref(e) => MinimalDresses(e);
      case AddrOf(e) => MinimalDresses(e);
      case Un(_, e) => MinimalDresses(e);
      case Pre(_, e) => MinimalDresses(e);
      case Bin(_, l, r) => MinimalDresses(l); MinimalDresses(r);
      case Logic(_, l, r) => MinimalDresses(l); MinimalDresses(r);
      case Cond(c, l, r) =>
        MinimalDresses(c); MinimalDresses(l); MinimalDresses(r);
      case Assign(l, r) => MinimalDresses(l); MinimalDresses(r);
    }
    Assembles(Minimal(t), t);
  }

  lemma {:induction false} FullDresses(t: Tree)
    ensures Dresses(Full(t), t) && Keeps(Full(t), t)
    ensures Respells(Full(t), t) && (Full(t).Lit? <==> t.Lit?)
    ensures Dresses(Wrapped(Full(t)), t) && Keeps(Wrapped(Full(t)), t)
    ensures Bracketed(Wrapped(Full(t))) <==> t.Lit? || Bracketed(t)
    decreases t, 1
  {
    FullShape(t);
    WrappedDresses(Full(t), t);
  }

  lemma {:induction false} FullShape(t: Tree)
    ensures Respells(Full(t), t) && (Full(t).Lit? <==> t.Lit?)
    decreases t, 0
  {
    hide Wrapped, Dresses, Keeps, Bracketed, Core;
    match t {
      case Lit(_) =>
      case SizeOf(_) =>
      case Name(_) =>
      case Paren(e) => FullDresses(e);
      case Call(_, e) => FullDresses(e);
      case Post(_, e) => FullDresses(e);
      case Index(l, r) => FullDresses(l); FullDresses(r);
      case Cast(_, e) => FullDresses(e);
      case Deref(e) => FullDresses(e);
      case AddrOf(e) => FullDresses(e);
      case Un(_, e) => FullDresses(e); SelfDresses(e);
      case Pre(_, e) => FullDresses(e);
      case Bin(_, l, r) => FullDresses(l); FullDresses(r);
      case Logic(_, l, r) => FullDresses(l); FullDresses(r);
      case Cond(c, l, r) =>
        FullDresses(c); FullDresses(l); FullDresses(r);
      case Assign(l, r) => FullDresses(l); FullDresses(r);
    }
    Assembles(Full(t), t);
  }

  lemma SelfDresses(t: Tree)
    ensures t.Lit? ==> Dresses(t, t) && Keeps(t, t)
  {
  }

  /** Operands of a well-typed tree are well-typed. */
  lemma OperandsTyped(env: Env, t: Tree)
    requires WellTyped(env, t)
    ensures t.Cond? ==> WellTyped(env, t.c)
    ensures IsInfix(t) ==> WellTyped(env, t.l) && WellTyped(env, t.r)
    ensures !IsInfix(t) && !(t.Lit? || t.SizeOf? || t.Name?) ==> WellTyped(env, t.e)
  {
    hide TypeOf, IsLvalue;
  }

  /** Operands of the same type and form. */
  predicate Alike(env: Env, u: Tree, t: Tree) {
    WellTyped(env, u) && TypeOf(env, u) == TypeOf(env, t) && IsLvalue(env, u) == IsLvalue(env, t)
  }

  /** The same operator on operands that are alike. */
  lemma SameTyped(env: Env, u: Tree, t: Tree)
    requires SameHead(u, t) && WellTyped(env, t)
    requires t.Cond? ==> Alike(env, u.c, t.c)
    requires IsInfix(t) ==> Alike(env, u.l, t.l) && Alike(env, u.r, t.r)
    requires !IsInfix(t) && !(t.Lit? || t.SizeOf? || t.Name?) ==> Alike(env, u.e, t.e)
    ensures Alike(env, u, t)
  {
    SameForm(env, u, t);
    hide TypeOf, IsLvalue;
  }

  lemma SameForm(env: Env, u: Tree, t: Tree)
    requires SameHead(u, t)
    requires IsInfix(t) ==> Alike(env, u.l, t.l) && Alike(env, u.r, t.r)
    requires !IsInfix(t) && !(t.Lit? || t.SizeOf? || t.Name?) ==> Alike(env, u.e, t.e)
    ensures TypeOf(env, u) == TypeOf(env, t) && IsLvalue(env, u) == IsLvalue(env, t)
  {
    hide WellTyped;
  }

  lemma ParenAlike(env: Env, u: Tree, t: Tree)
    requires u.Paren? && Alike(env, u.e, t)
    ensures Alike(env, u, t)
  {
  }

  /** Parentheses change neither the type nor what counts as a location. */
  lemma {:induction false} DressedTyped(env: Env, u: Tree, t: Tree)
    requires Dresses(u, t) && WellTyped(env, t)
    ensures WellTyped(env, u) && TypeOf(env, u) == TypeOf(env, t) && IsLvalue(env, u) == IsLvalue(env, t)
    decreases u
  {
    hide WellTyped, TypeOf, IsLvalue;
    if u.Paren? && Dresses(u.e, t) {
      DressedTyped(env, u.e, t);
      ParenAlike(env, u, t);
    } else {
      OperandsTyped(env, t);
      if t.Cond? {
        DressedTyped(env, u.c, t.c);
      }
      if IsInfix(t) {
        DressedTyped(env, u.l, t.l);
        DressedTyped(env, u.r, t.r);
      } else if !(t.Lit? || t.SizeOf? || t.Name?) {
        DressedTyped(env, u.e, t.e);
      }
      DressedHead(u, t);
      SameTyped(env, u, t);
    }
  }

  /** Parentheses add no code, unless they turn `-n` into `-(n)`. */
  lemma {:induction false} DressedCode(env: Env, u: Tree, t: Tree, base: nat)
    requires Dresses(u, t) && WellTyped(env, t) && Keeps(u, t)
    ensures WellTyped(env, u) && IsLvalue(env, u) == IsLvalue(env, t)
    ensures Code(env, u, base) == Code(env, t, base)
    ensures IsLvalue(env, t) ==> AddrCode(env, u, base) == AddrCode(env, t, base)
    decreases u, 1
  {
    DressedTyped(env, u, t);
    if u.Paren? && Dresses(u.e, t) {
      DressedCode(env, u.e, t, base);
    } else if IsInfix(t) {
      DressedInfix(env, u, t, base);
    } else if !(t.Lit? || t.SizeOf? || t.Name?) {
      DressedUnary(env, u, t, base);
    }
  }

  lemma {:induction false} DressedUnary(env: Env, u: Tree, t: Tree, base: nat)
    requires Dresses(u, t) && WellTyped(env, t) && WellTyped(env, u) && Keeps(u, t)
    requires !(u.Paren? && Dresses(u.e, t))
    requires t.Paren? || t.Call? || t.Post? || t.Cast? || t.Deref? || t.AddrOf? || t.Un? || t.Pre?
    ensures IsLvalue(env, u) == IsLvalue(env, t)
    ensures Code(env, u, base) == Code(env, t, base)
    ensures IsLvalue(env, t) ==> AddrCode(env, u, base) == AddrCode(env, t, base)
    decreases u, 0
  {
    hide StepCode, Width, StepOf, Code, AddrCode, TypeOf, Keeps;
    KeepsParts(u, t);
    DressedTyped(env, u.e, t.e);
    DressedCode(env, u.e, t.e, if t.Un? && t.u.Minus? then base + 3 else base);
    KeepsParts(u, t);
    SameUnary(env, u, t, base);
  }

  /** The same operator on operands with the same code. */
  lemma SameUnary(env: Env, u: Tree, t: Tree, base: nat)
    requires SameHead(u, t) && WellTyped(env, t) && WellTyped(env, u)
    requires t.Paren? || t.Call? || t.Post? || t.Cast? || t.Deref? || t.AddrOf? || t.Un? || t.Pre?
    requires WellTyped(env, u.e) && WellTyped(env, t.e) && IsLvalue(env, u.e) == IsLvalue(env, t.e) && TypeOf(env, u.e) == TypeOf(env, t.e)
    requires u.e.Lit? ==> u.e == t.e
    requires t.Un? && t.u.Minus? && t.e.Lit? ==> u.e == t.e
    requires var b := if t.Un? && t.u.Minus? then base + 3 else base;
             Code(env, u.e, b) == Code(env, t.e, b) && (IsLvalue(env, t.e) ==> AddrCode(env, u.e, b) == AddrCode(env, t.e, b))
    ensures IsLvalue(env, u) == IsLvalue(env, t)
    ensures Code(env, u, base) == Code(env, t, base)
    ensures IsLvalue(env, t) ==> AddrCode(env, u, base) == AddrCode(env, t, base)
  {
    hide StepCode, Width, StepOf;
    match t
    case Paren(_) =>
    case Call(_, _) =>
    case Post(_, _) =>
    case Cast(_, _) =>
    case Deref(_) =>
    case AddrOf(_) =>
    case Un(_, _) =>
    case Pre(_, _) =>
  }

  lemma {:induction false} DressedInfix(env: Env, u: Tree, t: Tree, base: nat)
    requires Dresses(u, t) && IsInfix(t) && WellTyped(env, t) && WellTyped(env, u) && Keeps(u, t)
    requires !(u.Paren? && Dresses(u.e, t))
    ensures IsLvalue(env, u) == IsLvalue(env, t)
    ensures Code(env, u, base) == Code(env, t, base)
    ensures IsLvalue(env, t) ==> AddrCode(env, u, base) == AddrCode(env, t, base)
    decreases u, 0
  {
    hide BinCode, ScaleCode, Width, TypeOf, Dresses, Code, AddrCode, WellTyped, Keeps;
    KeepsParts(u, t);
    DressedParts(env, u, t);
    if t.Cond? {
      DressedCode(env, u.c, t.c, base);
      var n := |Code(env, t.c, base)|;
      DressedCode(env, u.l, t.l, base + n + 2);
      DressedCode(env, u.r, t.r, base + n + 2 + |Code(env, t.l, base + n + 2)| + 2);
      SameCond(env, u, t, base);
    } else if t.Assign? {
      DressedCode(env, u.l, t.l, base);
      DressedCode(env, u.r, t.r, base + |AddrCode(env, t.l, base)| + 1);
      SameAssign(env, u, t, base);
    } else if t.Logic? {
      DressedCode(env, u.l, t.l, base);
      DressedCode(env, u.r, t.r, base + |Code(env, t.l, base)| + 2);
      SameLogic(env, u, t, base);
    } else {
      DressedCode(env, u.l, t.l, base);
      DressedCode(env, u.r, t.r, base + |Code(env, t.l, base)| + 1);
      if t.Bin? {
        SameBin(env, u, t, base);
      } else {
        SameIndex(env, u, t, base);
      }
    }
  }

  lemma DressedParts(env: Env, u: Tree, t: Tree)
    requires Dresses(u, t) && IsInfix(t) && WellTyped(env, t)
    requires !(u.Paren? && Dresses(u.e, t))
    ensures IsInfix(u) && u.Cond? == t.Cond? && u.Assign? == t.Assign? && u.Logic? == t.Logic?
    ensures u.Bin? == t.Bin? && u.Index? == t.Index?
    ensures t.Bin? ==> u.op == t.op
    ensures t.Logic? ==> u.or == t.or
    ensures Dresses(u.l, t.l) && Dresses(u.r, t.r) && WellTyped(env, t.l) && WellTyped(env, t.r)
    ensures t.Cond? ==> Dresses(u.c, t.c) && WellTyped(env, t.c)
    ensures t.Assign? ==> IsLvalue(env, t.l)
    ensures TypeOf(env, u.l) == TypeOf(env, t.l) && TypeOf(env, u.r) == TypeOf(env, t.r)
  {
    DressedTyped(env, u.l, t.l);
    DressedTyped(env, u.r, t.r);
  }

  lemma SameCond(env: Env, u: Tree, t: Tree, base: nat)
    requires u.Cond? && t.Cond? && WellTyped(env, u) && WellTyped(env, t)
    requires WellTyped(env, u.c) && WellTyped(env, u.l) && WellTyped(env, u.r)
    requires WellTyped(env, t.c) && WellTyped(env, t.l) && WellTyped(env, t.r)
    requires Code(env, u.c, base) == Code(env, t.c, base)
    requires var p := base + |Code(env, t.c, base)| + 2;
             && Code(env, u.l, p) == Code(env, t.l, p)
             && var q := p + |Code(env, t.l, p)| + 2; Code(env, u.r, q) == Code(env, t.r, q)
    ensures Code(env, u, base) == Code(env, t, base)
  {
    hide *;
    CodeOfCond(env, u, base);
    CodeOfCond(env, t, base);
  }

  lemma SameAssign(env: Env, u: Tree, t: Tree, base: nat)
    requires u.Assign? && t.Assign? && WellTyped(env, u) && WellTyped(env, t)
    requires AddrCode(env, u.l, base) == AddrCode(env, t.l, base) && TypeOf(env, u.l) == TypeOf(env, t.l)
    requires var p := base + |AddrCode(env, t.l, base)| + 1; Code(env, u.r, p) == Code(env, t.r, p)
    ensures Code(env, u, base) == Code(env, t, base)
  {
    hide Width, TypeOf, AddrCode;
  }

  lemma SameLogic(env: Env, u: Tree, t: Tree, base: nat)
    requires u.Logic? && t.Logic? && u.or == t.or && WellTyped(env, u) && WellTyped(env, t)
    requires Code(env, u.l, base) == Code(env, t.l, base)
    requires var p := base + |Code(env, t.l, base)| + 2; Code(env, u.r, p) == Code(env, t.r, p)
    ensures Code(env, u, base) == Code(env, t, base)
  {
  }

  lemma SameBin(env: Env, u: Tree, t: Tree, base: nat)
    requires u.Bin? && t.Bin? && u.op == t.op && WellTyped(env, u) && WellTyped(env, t)
    requires Code(env, u.l, base) == Code(env, t.l, base)
    requires TypeOf(env, u.l) == TypeOf(env, t.l) && TypeOf(env, u.r) == TypeOf(env, t.r)
    requires var p := base + |Code(env, t.l, base)| + 1; Code(env, u.r, p) == Code(env, t.r, p)
    ensures Code(env, u, base) == Code(env, t, base)
  {
    hide BinCode, TypeOf;
  }

  lemma SameIndex(env: Env, u: Tree, t: Tree, base: nat)
    requires u.Index? && t.Index? && WellTyped(env, u) && WellTyped(env, t)
    requires Code(env, u.l, base) == Code(env, t.l, base) && TypeOf(env, u.l) == TypeOf(env, t.l)
    requires var p := base + |Code(env, t.l, base)| + 1; Code(env, u.r, p) == Code(env, t.r, p)
    ensures AddrCode(env, u, base) == AddrCode(env, t, base)
    ensures Code(env, u, base) == Code(env, t, base)
  {
    hide *;
    IndexParts(env, u);
    IndexParts(env, t);
    AddrOfIndex(env, u, base);
    AddrOfIndex(env, t, base);
  }

  // ---- the theorem ----------------------------------------------------------------------------

  /**
   * Compiling the text with only the parentheses the table requires emits the same code as the text with
   * parentheses around every operand but a negated literal, and both emit the code of the tree.
   */
  lemma PrecedenceTheorem(env: Env, t: Tree, e: seq<int>, ty: int)
    requires WellTyped(env, t)
    ensures Expr(env, TK_ASSIGN, Compiler(Print(Minimal(t)), e, ty))
         == Ok(Compiler([], e + Code(env, t, |e|), TypeOf(env, t)))
    ensures Expr(env, TK_ASSIGN, Compiler(Print(Full(t)), e, ty))
         == Expr(env, TK_ASSIGN, Compiler(Print(Minimal(t)), e, ty))
  {
    hide Expr, Code, Print, TypeOf, WellTyped, Dresses;
    MinimalDresses(t);
    FullDresses(t);
    DressedText(env, Minimal(t), t, e, ty);
    DressedText(env, Full(t), t, e, ty);
  }

  lemma DressedText(env: Env, u: Tree, t: Tree, e: seq<int>, ty: int)
    requires WellTyped(env, t) && Dresses(u, t) && Keeps(u, t) && Grouped(u)
    ensures Expr(env, TK_ASSIGN, Compiler(Print(u), e, ty)) == Ok(Compiler([], e + Code(env, t, |e|), TypeOf(env, t)))
  {
    hide Expr, Code, Print, TypeOf, WellTyped, Dresses, Grouped;
    DressedTyped(env, u, t);
    DressedCode(env, u, t, |e|);
    ParseAt(env, u, TK_ASSIGN, [], e, ty);
    assert Print(u) + [] == Print(u);
  }

  /** `-5` loads the negated constant, `-(5)` multiplies: the code differs, the value does not. */
  lemma MinusLiteral(env: Env, n: int, m: Memory)
    requires IsWord(n)
    ensures var bare, wrapped := Un(Minus, Lit(n)), Un(Minus, Paren(Lit(n)));
            && Code(env, bare, 1) != Code(env, wrapped, 1)
            && Value(env, bare, m) == Value(env, wrapped, m)
  {
    var bare, wrapped := Un(Minus, Lit(n)), Un(Minus, Paren(Lit(n)));
    assert |Code(env, bare, 1)| == 2;
    assert Code(env, Paren(Lit(n)), 4) == [IMM, n];
    assert |Code(env, wrapped, 1)| == 6;
    assert Value(env, Paren(Lit(n)), m) == Val(n, m);
  }

  // ---- programs -------------------------------------------------------------------------------

  function PrintProgram(ts: seq<Tree>): seq<Token>
    requires ts != []
  {
    if |ts| == 1 then Print(Minimal(ts[0]))
    else Print(Minimal(ts[0])) + [Sym(TK_COMMA)] + PrintProgram(ts[1..])
  }

  /** The first expression of a program. */
  lemma HeadParses(env: Env, t: Tree, rest: seq<Token>, e: seq<int>, ty: int)
    requires WellTyped(env, t) && Head(rest) < TK_ASSIGN && Head(rest) != TK_OPEN
    ensures WellTyped(env, Minimal(t))
    ensures Expr(env, TK_ASSIGN, Compiler(Print(Minimal(t)) + rest, e, ty)) ==
            Ok(Compiler(rest, e + Code(env, t, |e|), TypeOf(env, Minimal(t))))
  {
    hide *;
    var u := Minimal(t);
    MinimalDresses(t);
    LowestLevel(u);
    DressedTyped(env, u, t);
    DressedCode(env, u, t, |e|);
    ParseAt(env, u, TK_ASSIGN, rest, e, ty);
  }

  /** Every expression binds at least as tightly as an assignment. */
  lemma LowestLevel(t: Tree)
    ensures IsLevel(TK_ASSIGN) && TK_ASSIGN <= LevelOf(Precedence(t))
  {
  }

  lemma {:induction false} ProgramParses(env: Env, ts: seq<Tree>, e: seq<int>, ty: int)
    requires ts != [] && AllWellTyped(env, ts)
    ensures var r := Program(env, Compiler(PrintProgram(ts), e, ty));
            r.Ok? && r.st.toks == [] && r.st.e == e + ProgramCode(env, ts, |e|) + [EXIT]
    decreases |ts|
  {
    hide Expr, Code, Print, TypeOf, WellTyped, Dresses, Minimal;
    var t := ts[0];
    var u := Minimal(t);
    var c := Code(env, t, |e|);
    if |ts| == 1 {
      HeadParses(env, t, [], e, ty);
      assert Print(u) + [] == Print(u);
      assert ProgramCode(env, ts, |e|) == c by {
        assert ts[1..] == [];
        assert ProgramCode(env, ts[1..], |e| + |c|) == [];
      }
    } else {
      var rest := PrintProgram(ts[1..]);
      var tail := [Sym(TK_COMMA)] + rest;
      assert PrintProgram(ts) == Print(u) + tail;
      HeadParses(env, t, tail, e, ty);
      assert tail[1..] == rest;
      ProgramParses(env, ts[1..], e + c, TypeOf(env, u));
      Assoc(e, c, ProgramCode(env, ts[1..], |e| + |c|));
    }
  }

  /** expr_compile then expr_run on the text of a program: the value of the last expression. */
  lemma CompileAndRun(env: Env, ts: seq<Tree>, m: Memory)
    requires GoodEnv(env) && ts != [] && AllWellTyped(env, ts) && FitsStack(ts)
    ensures var r := Program(env, Compiler(PrintProgram(ts), [0], 0));
            && r.Ok?
            && ExprMachine.Steps(r.st.e, ExprMachine.Running(Start(m)), |r.st.e|)
            == Expected(ProgramValue(env, ts, 0, m))
  {
    ProgramParses(env, ts, [0], 0);
    ImageCorrect(env, ts, m);
  }
}
