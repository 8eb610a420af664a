/** Literals in positional notation: decimal, octal behind `0`, hexadecimal behind `0x`. */
module ExprNumerals {
  import opened Words
  import opened ExprSyntax
  import opened ExprLexer

  /** c is the digit d, in either case. */
  predicate DigitIs(c: char, d: nat) {
    d < 16 && (c == "0123456789abcdef"[d] || c == "0123456789ABCDEF"[d])
  }

  predicate Spells(s: string, ds: seq<nat>) {
    |s| == |ds| && forall i :: 0 <= i < |s| ==> DigitIs(s[i], ds[i])
  }

  /** Digits of this base. */
  predicate InBase(ds: seq<nat>, base: nat) { forall i :: 0 <= i < |ds| ==> ds[i] < base }

  /** The number with these digits behind those of v, highest first. */
  function Positional(v: nat, ds: seq<nat>, base: nat): nat
    decreases |ds|
  {
    if ds == [] then v else Positional(v * base + ds[0], ds[1..], base)
  }

  /** Numbers that do not fit wrap around; it makes no difference when. */
  lemma WrapTimes(v: int, base: int, d: int)
    ensures Wrap(Wrap(v) * base + d) == Wrap(v * base + d)
  {
    var q := (v + TWO_63) / TWO_64;
    assert Wrap(v) == v - q * TWO_64;
    var x, y, k := v * base + d, Wrap(v) * base + d, q * base;
    assert Wrap(v) * base == v * base - k * TWO_64 by {
      Distributes(v, q * TWO_64, base);
      Reorders(q, TWO_64, base);
    }
    var r := (x + TWO_63) / TWO_64;
    assert x + TWO_63 == r * TWO_64 + (x + TWO_63) % TWO_64;
    DivModIs(y + TWO_63, TWO_64, r - k, (x + TWO_63) % TWO_64);
  }

  lemma Distributes(a: int, b: int, c: int)
    ensures (a - b) * c == a * c - b * c
  {
  }

  lemma Reorders(a: int, b: int, c: int)
    ensures a * b * c == a * c * b
  {
    assert a * (b * c) == a * (c * b);
  }

  /** What a digit is to the lexer. */
  lemma DigitsRead(c: char, d: nat)
    requires DigitIs(c, d)
    ensures IsHex(c) && HexValue(c) == d
    ensures d < 10 ==> IsDigit(c) && DigitValue(c) == d
    ensures d < 8 ==> IsOctal(c)
    ensures d == 0 <==> c == '0'
  {
  }

  lemma {:induction false} DecimalScans(s: string, ds: seq<nat>, rest: string, v: nat)
    requires Spells(s, ds) && InBase(ds, 10) && !IsDigit(First(rest))
    ensures ScanDecimal(s + rest, Wrap(v)) == (Wrap(Positional(v, ds, 10)), rest)
    decreases |s|
  {
    hide DigitIs, Wrap, IsDigit, DigitValue;
    if s == [] {
      assert s + rest == rest;
    } else {
      DigitsRead(s[0], ds[0]);
      assert (s + rest)[1..] == s[1..] + rest;
      WrapTimes(v, 10, ds[0]);
      DecimalScans(s[1..], ds[1..], rest, v * 10 + ds[0]);
    }
  }

  lemma {:induction false} OctalScans(s: string, ds: seq<nat>, rest: string, v: nat)
    requires Spells(s, ds) && InBase(ds, 8) && !IsOctal(First(rest))
    ensures ScanOctal(s + rest, Wrap(v)) == (Wrap(Positional(v, ds, 8)), rest)
    decreases |s|
  {
    hide DigitIs, Wrap, IsOctal, DigitValue;
    if s == [] {
      assert s + rest == rest;
    } else {
      DigitsRead(s[0], ds[0]);
      assert (s + rest)[1..] == s[1..] + rest;
      WrapTimes(v, 8, ds[0]);
      OctalScans(s[1..], ds[1..], rest, v * 8 + ds[0]);
    }
  }

  lemma {:induction false} HexScans(s: string, ds: seq<nat>, rest: string, v: nat)
    requires Spells(s, ds) && !IsHex(First(rest))
    ensures ScanHex(s + rest, Wrap(v)) == (Wrap(Positional(v, ds, 16)), rest)
    decreases |s|
  {
    hide DigitIs, Wrap, IsHex, HexValue;
    if s == [] {
      assert s + rest == rest;
    } else {
      DigitsRead(s[0], ds[0]);
      assert (s + rest)[1..] == s[1..] + rest;
      WrapTimes(v, 16, ds[0]);
      HexScans(s[1..], ds[1..], rest, v * 16 + ds[0]);
    }
  }

  /** A run of digits that does not begin with 0 is read as a decimal number, modulo 2^64. */
  lemma DecimalLexes(s: string, ds: seq<nat>, tail: string)
    requires Spells(s, ds) && InBase(ds, 10) && ds != [] && ds[0] != 0
    ensures Lex(s + " " + tail) == Tok(Num(Wrap(Positional(0, ds, 10))), " " + tail)
  {
    hide ScanDecimal, ScanOctal, ScanHex, Operator, SkipLine, WordLength, WordToken, Wrap;
    var rest := " " + tail;
    DigitsRead(s[0], ds[0]);
    assert s + " " + tail == s + rest && (s + rest)[1..] == s[1..] + rest;
    assert Positional(0, ds, 10) == Positional(ds[0], ds[1..], 10);
    DecimalScans(s[1..], ds[1..], rest, ds[0]);
  }

  /** Behind a 0, as an octal one; a single 0 is 0. */
  lemma OctalLexes(s: string, ds: seq<nat>, tail: string)
    requires Spells(s, ds) && InBase(ds, 8)
    ensures Lex("0" + s + " " + tail) == Tok(Num(Wrap(Positional(0, ds, 8))), " " + tail)
  {
    hide ScanDecimal, ScanOctal, ScanHex, Operator, SkipLine, WordLength, WordToken, Wrap;
    var rest := " " + tail;
    assert "0" + s + " " + tail == "0" + (s + rest) && ("0" + (s + rest))[1..] == s + rest;
    if s != [] {
      DigitsRead(s[0], ds[0]);
      assert First(s + rest) == s[0];
    }
    OctalScans(s, ds, rest, 0);
  }

  /** Behind 0x or 0X, as a hexadecimal one. */
  lemma HexLexes(s: string, ds: seq<nat>, x: char, tail: string)
    requires Spells(s, ds) && (x == 'x' || x == 'X')
    ensures Lex("0" + [x] + s + " " + tail) == Tok(Num(Wrap(Positional(0, ds, 16))), " " + tail)
  {
    hide ScanDecimal, ScanOctal, ScanHex, Operator, SkipLine, WordLength, WordToken, Wrap;
    var rest := " " + tail;
    var all := "0" + [x] + s + " " + tail;
    assert all == "0" + ([x] + (s + rest)) && all[1..] == [x] + (s + rest) && all[1..][1..] == s + rest;
    HexScans(s, ds, rest, 0);
  }

  // ---- names, blanks and comments ------------------------------------------------------------------------

  /** A letter of either case, an underscore or, behind the first character, a digit. */
  predicate NameChar(c: char, first: bool) {
    'a' <= c <= 'z' || 'A' <= c <= 'Z' || c == '_' || (!first && '0' <= c <= '9')
  }

  lemma {:induction false} WordScans(s: string, rest: string)
    requires (forall i :: 0 <= i < |s| ==> NameChar(s[i], false)) && !NameChar(First(rest), false)
    ensures WordLength(s + rest) == |s|
    decreases |s|
  {
    if s == [] {
      assert s + rest == rest;
    } else {
      assert (s + rest)[1..] == s[1..] + rest && (s + rest)[0] == s[0];
      WordScans(s[1..], rest);
    }
  }

  /** Any other word than a keyword is a name. */
  lemma NameLexes(s: string, tail: string)
    requires s != [] && NameChar(s[0], true) && forall i :: 0 <= i < |s| ==> NameChar(s[i], false)
    requires s != "char" && s != "short" && s != "int" && s != "long" && s != "sizeof"
    ensures Lex(s + " " + tail) == Tok(Ident(s), " " + tail)
  {
    hide ScanNumber, Operator, SkipLine, WordLength;
    var all, rest := s + " " + tail, " " + tail;
    assert all == s + rest && all[0] == s[0];
    WordScans(s, rest);
    assert all[..|s|] == s && all[|s|..] == rest;
  }

  lemma {:induction false} LineSkips(line: string, rest: string)
    requires forall i :: 0 <= i < |line| ==> line[i] != '\n' && line[i] != '\0'
    requires First(rest) == '\n'
    ensures SkipLine(line + rest) == rest
    decreases |line|
  {
    if line == [] {
      assert line + rest == rest;
    } else {
      assert (line + rest)[1..] == line[1..] + rest && (line + rest)[0] == line[0];
      LineSkips(line[1..], rest);
    }
  }

  lemma NoOperator(c: char, d: char)
    requires c == ' ' || c == '\t' || c == '\n'
    ensures Operator(c, d) == (0, 0)
  {
  }

  /** Blanks, ends of lines and comments of both kinds are skipped. */
  lemma SkipsBlank(c: char, rest: string)
    requires c == ' ' || c == '\t' || c == '\n'
    ensures Lex([c] + rest) == Lex(rest)
  {
    hide ScanNumber, SkipLine, WordLength, WordToken, Operator;
    NoOperator(c, First(rest));
    assert ([c] + rest)[1..] == rest;
  }

  lemma SkipsComment(line: string, tail: string)
    requires forall i :: 0 <= i < |line| ==> line[i] != '\n' && line[i] != '\0'
    ensures Lex("#" + line + "\n" + tail) == Lex(tail) && Lex("//" + line + "\n" + tail) == Lex(tail)
  {
    hide ScanNumber, Operator, SkipLine, WordLength, Lex;
    var rest := "\n" + tail;
    LineSkips(line, rest);
    SkipsHash(line + rest);
    LineSkips("/" + line, rest);
    SkipsSlashes(line + rest);
    SkipsBlank('\n', tail);
    assert "#" + line + "\n" + tail == "#" + (line + rest);
    assert "//" + line + "\n" + tail == "/" + ("/" + (line + rest));
    assert ("/" + line) + rest == "/" + (line + rest);
  }

  lemma SkipsHash(t: string)
    ensures Lex("#" + t) == Lex(SkipLine(t))
  {
    hide ScanNumber, Operator, SkipLine, WordLength;
    assert ("#" + t)[1..] == t;
  }

  lemma SkipsSlashes(t: string)
    ensures Lex("/" + ("/" + t)) == Lex(SkipLine("/" + t))
  {
    hide ScanNumber, Operator, SkipLine, WordLength;
    assert ("/" + ("/" + t))[1..] == "/" + t;
  }

  // ---- names and symbols ------------------------------------------------------------------------------

  /** The characters of the operators. */
  lemma Operators()
    ensures SymText(TK_ASSIGN) == "=" && SymText(TK_COND) == "?" && SymText(TK_LOR) == "||" && SymText(TK_LAN) == "&&"
    ensures SymText(TK_OR) == "|" && SymText(TK_XOR) == "^" && SymText(TK_AND) == "&" && SymText(TK_EQ) == "==" && SymText(TK_NE) == "!="
    ensures SymText(TK_LT) == "<" && SymText(TK_GT) == ">" && SymText(TK_LE) == "<=" && SymText(TK_GE) == ">="
  {
  }

  lemma Arithmetic()
    ensures SymText(TK_SHL) == "<<" && SymText(TK_SHR) == ">>" && SymText(TK_ADD) == "+" && SymText(TK_SUB) == "-"
    ensures SymText(TK_MUL) == "*" && SymText(TK_DIV) == "/" && SymText(TK_MOD) == "%"
    ensures SymText(TK_INC) == "++" && SymText(TK_DEC) == "--"
  {
  }

  lemma Punctuation()
    ensures SymText(TK_BRAK) == "[" && SymText(TK_CLOSE_BRAK) == "]" && SymText(TK_OPEN) == "(" && SymText(TK_CLOSE) == ")"
    ensures SymText(TK_BANG) == "!" && SymText(TK_TILDE) == "~" && SymText(TK_COLON) == ":" && SymText(TK_COMMA) == ","
  {
  }

  /** The keywords. */
  lemma Keywords()
    ensures Text(TypeName(CHAR)) == "char" && Text(TypeName(SHORT)) == "short" && Text(TypeName(INT)) == "int"
    ensures Text(TypeName(LONG)) == "long" && Text(SizeofWord) == "sizeof"
  {
  }
}
