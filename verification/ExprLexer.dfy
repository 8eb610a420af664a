/** The lexer of expr.c (next) on the remaining text, and its inverse. */
module ExprLexer {
  import opened Words
  import opened ExprSyntax

  datatype Lexed = End | Tok(token: Token, rest: string)

  function First(s: string): char { if s == [] then '\0' else s[0] }

  predicate IsDigit(c: char) { '0' <= c <= '9' }
  predicate IsOctal(c: char) { '0' <= c <= '7' }
  predicate IsHex(c: char) { IsDigit(c) || 'a' <= c <= 'f' || 'A' <= c <= 'F' }
  predicate IsLetter(c: char) { 'a' <= c <= 'z' || 'A' <= c <= 'Z' || c == '_' }
  predicate IsWordChar(c: char) { IsLetter(c) || IsDigit(c) }

  function DigitValue(c: char): int { c as int - '0' as int }
  function HexValue(c: char): int {
    if IsDigit(c) then DigitValue(c)
    else if 'a' <= c then c as int - 'a' as int + 10
    else c as int - 'A' as int + 10
  }

  /** `ival = ival * base + digit`, wrapping like a long. */
  function ScanDecimal(s: string, v: int): (r: (int, string))
    ensures |r.1| <= |s|
  {
    if s != [] && IsDigit(s[0]) then ScanDecimal(s[1..], Wrap(v * 10 + DigitValue(s[0]))) else (v, s)
  }

  function ScanOctal(s: string, v: int): (r: (int, string))
    ensures |r.1| <= |s|
  {
    if s != [] && IsOctal(s[0]) then ScanOctal(s[1..], Wrap(v * 8 + DigitValue(s[0]))) else (v, s)
  }

  function ScanHex(s: string, v: int): (r: (int, string))
    ensures |r.1| <= |s|
  {
    if s != [] && IsHex(s[0]) then ScanHex(s[1..], Wrap(v * 16 + HexValue(s[0]))) else (v, s)
  }

  /** A number whose first digit is c. */
  function ScanNumber(c: char, s: string): (r: (int, string))
    requires IsDigit(c)
    ensures |r.1| <= |s|
  {
    if c != '0' then ScanDecimal(s, DigitValue(c))
    else if First(s) == 'x' || First(s) == 'X' then ScanHex(s[1..], 0)
    else ScanOctal(s, 0)
  }

  /** The length of the longest run of word characters. */
  function WordLength(s: string): (n: nat)
    ensures n <= |s|
  {
    if s != [] && IsWordChar(s[0]) then 1 + WordLength(s[1..]) else 0
  }

  function SkipLine(s: string): (r: string)
    ensures |r| <= |s|
  {
    if s == [] || s[0] == '\0' || s[0] == '\n' then s else SkipLine(s[1..])
  }

  /** Keywords of the symbol table (expr.c:377-381); every other word is an identifier. */
  function WordToken(w: string): Token {
    if w == "char" then TypeName(CHAR)
    else if w == "short" then TypeName(SHORT)
    else if w == "int" then TypeName(INT)
    else if w == "long" then TypeName(LONG)
    else if w == "sizeof" then SizeofWord
    else Ident(w)
  }

  /** One- and two-character operators: c is consumed, d is the character behind it. */
  function Operator(c: char, d: char): (r: (int, nat))
    ensures r.1 <= 1
    ensures r.1 == 1 ==> d in {'=', '+', '-', '<', '>', '|', '&'}
  {
    if c == '=' then if d == '=' then (TK_EQ, 1) else (TK_ASSIGN, 0)
    else if c == '+' then if d == '+' then (TK_INC, 1) else (TK_ADD, 0)
    else if c == '-' then if d == '-' then (TK_DEC, 1) else (TK_SUB, 0)
    else if c == '!' then if d == '=' then (TK_NE, 1) else (TK_BANG, 0)
    else if c == '<' then if d == '=' then (TK_LE, 1) else if d == '<' then (TK_SHL, 1) else (TK_LT, 0)
    else if c == '>' then if d == '=' then (TK_GE, 1) else if d == '>' then (TK_SHR, 1) else (TK_GT, 0)
    else if c == '|' then if d == '|' then (TK_LOR, 1) else (TK_OR, 0)
    else if c == '&' then if d == '&' then (TK_LAN, 1) else (TK_AND, 0)
    else if c == '^' then (TK_XOR, 0)
    else if c == '%' then (TK_MOD, 0)
    else if c == '*' then (TK_MUL, 0)
    else if c == '[' then (TK_BRAK, 0)
    else if c == '?' then (TK_COND, 0)
    else if c in {'~', ';', '{', '}', '(', ')', ']', ',', ':', '"', '\''} then (c as int, 0)
    else (0, 0)
  }

  /** next(): the first token of s; comments, newlines and unknown characters are skipped. */
  function Lex(s: string): (r: Lexed)
    ensures r.Tok? ==> |r.rest| < |s|
    decreases |s|
  {
    if First(s) == '\0' then End
    else
      var c, t := s[0], s[1..];
      if c == '#' then Lex(SkipLine(t))
      else if IsLetter(c) then Tok(WordToken(s[..WordLength(s)]), s[WordLength(s)..])
      else if IsDigit(c) then var (v, r) := ScanNumber(c, t); Tok(Num(v), r)
      else if c == '/' then if First(t) == '/' then Lex(SkipLine(t)) else Tok(Sym(TK_DIV), t)
      else
        var (k, n) := Operator(c, First(t));
        if k == 0 then Lex(t) else Tok(Sym(k), t[n..])
  }

  function LexAll(s: string): seq<Token>
    decreases |s|
  {
    match Lex(s)
    case End => []
    case Tok(t, r) => [t] + LexAll(r)
  }

  // ---- writing tokens -------------------------------------------------------------------------

  function Decimal(n: nat): (s: string)
    ensures s != [] && forall i :: 0 <= i < |s| ==> IsDigit(s[i])
    ensures n > 0 ==> s[0] != '0'
  {
    if n < 10 then [DigitChar(n)] else Decimal(n / 10) + [DigitChar(n % 10)]
  }

  function DigitChar(d: int): (c: char)
    requires 0 <= d < 10
    ensures IsDigit(c) && DigitValue(c) == d
  {
    '0' + d as char
  }

  function SymText(k: int): string {
    if k == TK_ASSIGN then "="
    else if k == TK_COND then "?"
    else if k == TK_LOR then "||"
    else if k == TK_LAN then "&&"
    else if k == TK_OR then "|"
    else if k == TK_XOR then "^"
    else if k == TK_AND then "&"
    else if k == TK_EQ then "=="
    else if k == TK_NE then "!="
    else if k == TK_LT then "<"
    else if k == TK_GT then ">"
    else if k == TK_LE then "<="
    else if k == TK_GE then ">="
    else if k == TK_SHL then "<<"
    else if k == TK_SHR then ">>"
    else if k == TK_ADD then "+"
    else if k == TK_SUB then "-"
    else if k == TK_MUL then "*"
    else if k == TK_DIV then "/"
    else if k == TK_MOD then "%"
    else if k == TK_INC then "++"
    else if k == TK_DEC then "--"
    else if k == TK_BRAK then "["
    else if k == TK_BANG then "!"
    else if k == TK_OPEN then "("
    else if k == TK_CLOSE then ")"
    else if k == TK_COMMA then ","
    else if k == TK_COLON then ":"
    else if k == TK_CLOSE_BRAK then "]"
    else "~"
  }

  predicate IsSym(k: int) {
    TK_ASSIGN <= k <= TK_BRAK ||
    k in {TK_BANG, TK_OPEN, TK_CLOSE, TK_COMMA, TK_COLON, TK_CLOSE_BRAK, TK_TILDE}
  }

  predicate IsName(x: string) {
    x != [] && IsLetter(x[0]) && (forall i :: 0 <= i < |x| ==> IsWordChar(x[i])) && WordToken(x) == Ident(x)
  }

  /** Tokens a user can write: literals in range, proper names, known operators. */
  predicate Writable(t: Token) {
    match t
    case Num(n) => 0 <= n < TWO_63
    case Ident(x) => IsName(x)
    case TypeName(b) => CHAR <= b <= LONG
    case SizeofWord => true
    case Sym(k) => IsSym(k)
  }

  function Text(t: Token): string {
    match t
    case Num(n) => if n < 0 then [] else Decimal(n)
    case Ident(x) => x
    case TypeName(b) => if b == CHAR then "char" else if b == SHORT then "short" else if b == INT then "int" else "long"
    case SizeofWord => "sizeof"
    case Sym(k) => SymText(k)
  }

  /** Every token followed by a blank. */
  function Write(toks: seq<Token>): string {
    if toks == [] then [] else Text(toks[0]) + " " + Write(toks[1..])
  }

  /** The value of a run of decimal digits read after the value v. */
  function Fold(ds: string, v: int): int {
    if ds == [] then v else Fold(ds[1..], Wrap(v * 10 + DigitValue(ds[0])))
  }

  lemma {:induction false} ScanDigits(ds: string, tail: string, v: int)
    requires (forall i :: 0 <= i < |ds| ==> IsDigit(ds[i])) && !IsDigit(First(tail))
    ensures ScanDecimal(ds + tail, v) == (Fold(ds, v), tail)
    decreases |ds|
  {
    if ds == [] {
      assert ds + tail == tail;
    } else {
      assert (ds + tail)[1..] == ds[1..] + tail;
      ScanDigits(ds[1..], tail, Wrap(v * 10 + DigitValue(ds[0])));
    }
  }

  lemma {:induction false} FoldCat(a: string, c: char, v: int)
    ensures Fold(a + [c], v) == Wrap(Fold(a, v) * 10 + DigitValue(c))
    decreases |a|
  {
    if a == [] {
      assert a + [c] == [c];
      assert Fold([c][1..], Wrap(v * 10 + DigitValue(c))) == Wrap(v * 10 + DigitValue(c));
    } else {
      assert (a + [c])[1..] == a[1..] + [c];
      FoldCat(a[1..], c, Wrap(v * 10 + DigitValue(a[0])));
    }
  }

  lemma {:induction false} DecimalValue(n: nat)
    requires n < TWO_63
    ensures Fold(Decimal(n), 0) == n
  {
    if n < 10 {
      assert Fold([], n) == n;
    } else {
      DecimalValue(n / 10);
      FoldCat(Decimal(n / 10), DigitChar(n % 10), 0);
    }
  }

  lemma NumberLexes(n: nat, tail: string)
    requires n < TWO_63
    ensures Lex(Decimal(n) + " " + tail) == Tok(Num(n), " " + tail)
  {
    hide Fold, ScanDecimal, Wrap, Operator, SkipLine, WordLength, WordToken, ScanHex, Decimal;
    var ds, rest := Decimal(n), " " + tail;
    var s := ds + rest;
    assert ds + " " + tail == s;
    assert s[1..] == ds[1..] + rest;
    if n == 0 {
      ZeroText();
      assert s[1..] == rest;
      assert ScanOctal(rest, 0) == (0, rest);
    } else {
      DecimalValue(n);
      FirstDigit(ds);
      ScanDigits(ds[1..], rest, DigitValue(ds[0]));
    }
  }

  lemma ZeroText()
    ensures Decimal(0) == "0"
  {
  }

  lemma FirstDigit(ds: string)
    requires ds != [] && IsDigit(ds[0])
    ensures Fold(ds, 0) == Fold(ds[1..], DigitValue(ds[0]))
  {
  }

  lemma {:induction false} WordRun(x: string, tail: string)
    requires (forall i :: 0 <= i < |x| ==> IsWordChar(x[i])) && !IsWordChar(First(tail))
    ensures WordLength(x + tail) == |x|
    decreases |x|
  {
    if x == [] {
      assert x + tail == tail;
    } else {
      assert (x + tail)[1..] == x[1..] + tail;
      WordRun(x[1..], tail);
    }
  }

  lemma WordLexes(x: string, tail: string)
    requires x != [] && IsLetter(x[0]) && forall i :: 0 <= i < |x| ==> IsWordChar(x[i])
    ensures Lex(x + " " + tail) == Tok(WordToken(x), " " + tail)
  {
    hide WordToken, WordLength;
    var rest := " " + tail;
    assert x + " " + tail == x + rest;
    WordRun(x, rest);
    assert (x + rest)[..|x|] == x && (x + rest)[|x|..] == rest;
  }

  /** The characters of an operator, as Lex sees them before a blank. */
  lemma OperatorText(k: int)
    requires IsSym(k) && k != TK_DIV
    ensures var x := SymText(k);
            && k != 0 && 1 <= |x| <= 2
            && !IsLetter(x[0]) && !IsDigit(x[0]) && x[0] !in {'#', '/', '\0'}
            && Operator(x[0], if |x| == 2 then x[1] else ' ') == (k, |x| - 1)
  {
  }

  lemma OperatorLexes(x: string, k: int, tail: string)
    requires k != 0 && 1 <= |x| <= 2 && !IsLetter(x[0]) && !IsDigit(x[0]) && x[0] !in {'#', '/', '\0'}
    requires Operator(x[0], if |x| == 2 then x[1] else ' ') == (k, |x| - 1)
    ensures Lex(x + " " + tail) == Tok(Sym(k), " " + tail)
  {
    hide SkipLine, WordLength, ScanNumber, WordToken, Operator, IsLetter, IsDigit;
    var rest := " " + tail;
    var s := x + rest;
    assert x + " " + tail == s;
    assert s[0] == x[0];
    assert s[1..] == x[1..] + rest;
    assert First(s[1..]) == if |x| == 2 then x[1] else ' ';
    assert s[1..][|x| - 1..] == rest;
  }

  lemma SlashLexes(x: string, tail: string)
    requires x == "/"
    ensures Lex(x + " " + tail) == Tok(Sym(TK_DIV), " " + tail)
  {
    hide SkipLine, WordLength, ScanNumber, WordToken, Operator;
    var rest := " " + tail;
    var s := x + rest;
    assert x + " " + tail == s;
    assert s[0] == '/' && s[1..] == rest && First(rest) == ' ';
  }

  lemma SymbolLexes(k: int, tail: string)
    requires IsSym(k)
    ensures Lex(SymText(k) + " " + tail) == Tok(Sym(k), " " + tail)
  {
    hide Lex, Operator, IsSym;
    if k == TK_DIV {
      SlashLexes(SymText(k), tail);
    } else {
      hide SymText;
      OperatorText(k);
      OperatorLexes(SymText(k), k, tail);
    }
  }

  /** A written token followed by a blank is read back. */
  lemma TokenLexes(t: Token, tail: string)
    requires Writable(t)
    ensures Lex(Text(t) + " " + tail) == Tok(t, " " + tail)
  {
    hide Lex, SymText, IsSym, Decimal;
    match t
    case Num(n) => NumberLexes(n, tail);
    case Ident(x) => WordLexes(x, tail);
    case TypeName(_) => WordLexes(Text(t), tail);
    case SizeofWord => WordLexes(Text(t), tail);
    case Sym(k) => SymbolLexes(k, tail);
  }

  lemma BlankSkipped(tail: string)
    ensures Lex(" " + tail) == Lex(tail)
  {
    assert (" " + tail)[1..] == tail;
  }

  /** Lexing inverts writing. */
  lemma {:induction false} LexInvertsWrite(toks: seq<Token>)
    requires forall i :: 0 <= i < |toks| ==> Writable(toks[i])
    ensures LexAll(Write(toks)) == toks
    decreases |toks|
  {
    hide Lex, Text, Writable;
    if toks == [] {
      EmptyLexes();
    } else {
      var tail := Write(toks[1..]);
      TokenLexes(toks[0], tail);
      LexInvertsWrite(toks[1..]);
      BlankSkipped(tail);
      assert LexAll(" " + tail) == LexAll(tail);
    }
  }

  lemma EmptyLexes()
    ensures Lex("") == End
  {
  }
}
