/** Which parentheses change the code: exactly those around a literal right behind a minus. */
module ExprSpelling {
  import opened Words
  import opened ExprSyntax
  import opened ExprCode
  import opened ExprPrinting

  /** Words a node adds to those of its operands. */
  function Extra(env: Env, t: Tree): int
    requires WellTyped(env, t)
  {
    match t
    case Lit(_) => 2
    case SizeOf(_) => 2
    case Name(x) => if env[x].isArray then 2 else 4
    case Paren(_) => 0
    case Cast(_, _) => 0
    case Deref(_) => 2
    case AddrOf(_) => -2
    case Un(k, e) =>
      (match k
       case Not => 4
       case Complement => 4
       case Plus => 0
       case Minus => if e.Lit? then 0 else 4)
    case Pre(_, _) => 7
    case Post(_, _) => 11
    case Assign(_, _) => 1
    case Cond(_, _, _) => 4
    case Logic(_, _, _) => 2
    case Bin(op, l, r) => 1 + |BinCode(op, TypeOf(env, l), TypeOf(env, r))|
    case Index(l, _) => 4 + |ScaleCode(TypeOf(env, l))|
    case Call(_, _) => 4
  }

  /** Words of the code of t. */
  function Size(env: Env, t: Tree): int
    requires WellTyped(env, t)
  {
    Extra(env, t) +
    if t.Cond? then Size(env, t.c) + Size(env, t.l) + Size(env, t.r)
    else if IsInfix(t) then Size(env, t.l) + Size(env, t.r)
    else if t.Lit? || t.SizeOf? || t.Name? then 0
    else Size(env, t.e)
  }

  lemma {:induction false} SizeIs(env: Env, t: Tree, base: nat)
    requires WellTyped(env, t)
    ensures |Code(env, t, base)| == Size(env, t)
    decreases t, 2
  {
    hide Width, StepOf, BinCode, ScaleCode;
    if IsInfix(t) {
      InfixSize(env, t, base);
    } else {
      match t
      case Lit(_) =>
      case SizeOf(_) =>
      case Name(_) =>
      case Paren(e) => SizeIs(env, e, base);
      case Cast(_, e) => SizeIs(env, e, base);
      case Deref(e) => SizeIs(env, e, base);
      case AddrOf(e) => SizeIs(env, e, base); LvalueCode(env, e, base);
      case Un(_, _) => UnarySize(env, t, base);
      case Pre(_, _) => StepSize(env, t, base);
      case Post(_, _) => StepSize(env, t, base);
      case Call(_, e) => SizeIs(env, e, base);
    }
  }

  lemma {:induction false} UnarySize(env: Env, t: Tree, base: nat)
    requires WellTyped(env, t) && t.Un?
    ensures |Code(env, t, base)| == Size(env, t)
    decreases t, 0
  {
    hide AddrCode, TypeOf;
    SizeIs(env, t.e, if t.u.Minus? then base + 3 else base);
  }

  lemma {:induction false} StepSize(env: Env, t: Tree, base: nat)
    requires WellTyped(env, t) && (t.Pre? || t.Post?)
    ensures |Code(env, t, base)| == Size(env, t)
    decreases t, 0
  {
    hide Width, StepOf, TypeOf;
    SizeIs(env, t.e, base);
    LvalueCode(env, t.e, base);
  }

  lemma {:induction false} InfixSize(env: Env, t: Tree, base: nat)
    requires WellTyped(env, t) && IsInfix(t)
    ensures |Code(env, t, base)| == Size(env, t)
    decreases t, 1
  {
    hide Code, WellTyped, Size;
    match t
    case Assign(_, _) => AssignSize(env, t, base);
    case Cond(_, _, _) => CondSize(env, t, base);
    case Logic(_, _, _) => LogicSize(env, t, base);
    case Bin(_, _, _) => OperandSize(env, t, base);
    case Index(_, _) => OperandSize(env, t, base);
  }

  lemma {:induction false} CondSize(env: Env, t: Tree, base: nat)
    requires WellTyped(env, t) && t.Cond?
    ensures |Code(env, t, base)| == Size(env, t)
    decreases t, 0
  {
    hide WellTyped, Code;
    CondParts(env, t);
    CodeOfCond(env, t, base);
    var cc := Code(env, t.c, base);
    var cl := Code(env, t.l, base + |cc| + 2);
    SizeIs(env, t.c, base);
    SizeIs(env, t.l, base + |cc| + 2);
    SizeIs(env, t.r, base + |cc| + 2 + |cl| + 2);
  }

  lemma {:induction false} LogicSize(env: Env, t: Tree, base: nat)
    requires WellTyped(env, t) && t.Logic?
    ensures |Code(env, t, base)| == Size(env, t)
    decreases t, 0
  {
    hide WellTyped, Code;
    LogicParts(env, t);
    CodeOfLogic(env, t, base);
    SizeIs(env, t.l, base);
    SizeIs(env, t.r, base + |Code(env, t.l, base)| + 2);
  }

  lemma {:induction false} OperandSize(env: Env, t: Tree, base: nat)
    requires WellTyped(env, t) && (t.Bin? || t.Index?)
    ensures |Code(env, t, base)| == Size(env, t)
    decreases t, 0
  {
    hide Width, BinCode, ScaleCode, TypeOf, WellTyped, Code;
    if t.Bin? {
      BinParts(env, t);
      CodeOfBin(env, t, base);
    } else {
      IndexParts(env, t);
      CodeOfIndex(env, t, base);
    }
    SizeIs(env, t.l, base);
    SizeIs(env, t.r, base + |Code(env, t.l, base)| + 1);
  }

  lemma {:induction false} AssignSize(env: Env, t: Tree, base: nat)
    requires WellTyped(env, t) && t.Assign?
    ensures |Code(env, t, base)| == Size(env, t)
    decreases t, 0
  {
    hide Width, TypeOf;
    AssignUnfolds(env, t, base);
    hide Code, AddrCode;
    SizeIs(env, t.l, base);
    LvalueCode(env, t.l, base);
    SizeIs(env, t.r, base + |AddrCode(env, t.l, base)| + 1);
  }

  lemma AssignUnfolds(env: Env, t: Tree, base: nat)
    requires WellTyped(env, t) && t.Assign?
    ensures WellTyped(env, t.l) && WellTyped(env, t.r) && IsLvalue(env, t.l)
    ensures var a := AddrCode(env, t.l, base) + [PSH];
            Code(env, t, base) == a + Code(env, t.r, base + |a|) + [SI, Width(TypeOf(env, t.l))]
  {
    hide Width, TypeOf;
  }

  /** Added parentheses never make the code shorter, and keep its length exactly if they keep all `-n`. */
  lemma {:induction false} DressedSize(env: Env, u: Tree, t: Tree)
    requires Dresses(u, t) && WellTyped(env, t) && WellTyped(env, u)
    ensures Size(env, u) >= Size(env, t) && (Size(env, u) == Size(env, t) <==> Keeps(u, t))
    decreases u
  {
    hide Dresses, Keeps, WellTyped, Size, Extra;
    if u.Paren? && Dresses(u.e, t) {
      ParenSize(env, u, t);
      DressedSize(env, u.e, t);
    } else {
      KeepsParts(u, t);
      OperandsTyped(env, t);
      OperandsTyped(env, u);
      if t.Cond? {
        DressedSize(env, u.c, t.c);
      }
      if IsInfix(t) {
        DressedSize(env, u.l, t.l);
        DressedSize(env, u.r, t.r);
        DressedTyped(env, u.l, t.l);
        DressedTyped(env, u.r, t.r);
      } else if !(t.Lit? || t.SizeOf? || t.Name?) {
        DressedSize(env, u.e, t.e);
      }
      ExtraOf(env, u, t);
      SizeParts(env, u);
      SizeParts(env, t);
    }
  }

  lemma ParenSize(env: Env, u: Tree, t: Tree)
    requires u.Paren? && WellTyped(env, u)
    ensures WellTyped(env, u.e) && Size(env, u) == Size(env, u.e) && (Keeps(u, t) <==> Keeps(u.e, t))
  {
  }

  lemma SizeParts(env: Env, t: Tree)
    requires WellTyped(env, t)
    ensures t.Cond? ==> WellTyped(env, t.c)
    ensures IsInfix(t) ==> WellTyped(env, t.l) && WellTyped(env, t.r)
    ensures !IsInfix(t) && !(t.Lit? || t.SizeOf? || t.Name?) ==> WellTyped(env, t.e)
    ensures Size(env, t) == Extra(env, t) +
              if t.Cond? then Size(env, t.c) + Size(env, t.l) + Size(env, t.r)
              else if IsInfix(t) then Size(env, t.l) + Size(env, t.r)
              else if t.Lit? || t.SizeOf? || t.Name? then 0
              else Size(env, t.e)
  {
    hide Extra;
    OperandsTyped(env, t);
  }

  /** The same operator adds the same, but four words more if it is a minus that loses its literal. */
  lemma ExtraOf(env: Env, u: Tree, t: Tree)
    requires SameHead(u, t) && WellTyped(env, u) && WellTyped(env, t)
    requires t.Bin? || t.Index? ==> TypeOf(env, u.l) == TypeOf(env, t.l) && TypeOf(env, u.r) == TypeOf(env, t.r)
    requires t.Un? ==> (u.e.Lit? ==> u.e == t.e)
    ensures Extra(env, u) == Extra(env, t) + if t.Un? && t.u.Minus? && t.e.Lit? && u.e != t.e then 4 else 0
  {
    hide BinCode, ScaleCode, TypeOf;
  }

  /**
   * The spelling theorem: for u, which is t with parentheses added anywhere, the code is the same if and
   * only if u nowhere has `-(n)` where t has `-n`. Each such place adds four words.
   */
  lemma SameCodeExactly(env: Env, u: Tree, t: Tree, base: nat)
    requires Dresses(u, t) && WellTyped(env, t)
    ensures WellTyped(env, u) && (Code(env, u, base) == Code(env, t, base) <==> Keeps(u, t))
  {
    hide Dresses, Keeps, Size, Code, WellTyped;
    DressedTyped(env, u, t);
    DressedSize(env, u, t);
    SizeIs(env, u, base);
    SizeIs(env, t, base);
    if Keeps(u, t) {
      DressedCode(env, u, t, base);
    }
  }

  // ---- code that fits the buffer fits the stack ----------------------------------------------------------

  /** Every stack slot is paid for with two words. */
  lemma {:induction false} DepthBySize(env: Env, t: Tree)
    requires WellTyped(env, t)
    ensures Size(env, t) >= 2 && 2 * Depth(t) <= Size(env, t)
    ensures IsLvalue(env, t) ==> 4 <= Size(env, t) && 2 * Depth(t) + 2 <= Size(env, t)
  {
    hide WellTyped, Size, BinCode, ScaleCode, IsLvalue;
    SizeParts(env, t);
    if t.Cond? {
      DepthBySize(env, t.c);
    }
    if IsInfix(t) {
      DepthBySize(env, t.l);
      DepthBySize(env, t.r);
    } else if !(t.Lit? || t.SizeOf? || t.Name?) {
      DepthBySize(env, t.e);
    }
    Lvalues(env, t);
  }

  lemma Lvalues(env: Env, t: Tree)
    requires WellTyped(env, t)
    ensures IsLvalue(env, t) ==> (t.Name? && !env[t.x].isArray) || t.Deref? || t.Index? || (t.Paren? && IsLvalue(env, t.e))
    ensures t.AddrOf? || t.Pre? || t.Post? ==> IsLvalue(env, t.e)
    ensures t.Assign? ==> IsLvalue(env, t.l)
  {
  }
}
