/** What loads, stores and the operators on words give, in plain arithmetic. */
module WordLaws {
  import opened Common
  import opened Words

  // ---- loads and stores ---------------------------------------------------------------------------

  /** The values of C's char, short, int and long. */
  predicate InRange(v: int, k: nat) {
    && (k == 1 ==> -0x80 <= v < 0x80) && (k == 2 ==> -0x8000 <= v < 0x8000)
    && (k == 4 ==> -0x8000_0000 <= v < 0x8000_0000)
    && (k == 8 ==> -0x8000_0000_0000_0000 <= v < 0x8000_0000_0000_0000)
  }

  /** The number of values of k bytes. */
  function Span(k: nat): int {
    if k == 1 then 0x100 else if k == 2 then 0x1_0000 else if k == 4 then 0x1_0000_0000 else 0x1_0000_0000_0000_0000
  }

  lemma SpanIs(k: nat)
    requires k in {1, 2, 4, 8}
    ensures Pow2(8 * k) == Span(k) && forall v :: InRange(v, k) <==> -Span(k) <= 2 * v < Span(k)
  {
    hide Pow2;
    Pow2Zero();
    Pow2Step(0); Pow2Step(8); Pow2Step(16); Pow2Step(24); Pow2Step(32); Pow2Step(40); Pow2Step(48); Pow2Step(56);
  }

  /** A load gives a value of its type, negative ones included. */
  lemma LoadRange(m: Memory, a: int, k: nat)
    requires k in {1, 2, 4, 8}
    ensures InRange(Load(m, a, k), k)
  {
    hide Pow2, Fetch;
    SpanIs(k);
    FetchBound(m, a, k);
  }

  /** A value of its type is read back as it was stored. */
  lemma RoundTrip(m: Memory, a: int, k: nat, v: int)
    requires k in {1, 2, 4, 8} && InRange(v, k)
    ensures Load(Store(m, a, k, v), a, k) == v
  {
    hide Pow2, Store, Fetch;
    Truncates(m, a, k, v);
    LoadRange(Store(m, a, k, v), a, k);
    SpanIs(k);
    OnlyOne(v, Load(Store(m, a, k, v), a, k), Span(k));
  }

  /** Any other value is truncated: what is read back differs from it by a multiple of the number of values. */
  lemma Truncates(m: Memory, a: int, k: nat, v: int)
    requires k in {1, 2, 4, 8}
    ensures (Load(Store(m, a, k, v), a, k) - v) % Span(k) == 0
  {
    hide Pow2, Store, Fetch;
    SpanIs(k);
    LoadAfterStore(m, a, k, v);
    var p, u := Span(k), v % Span(k);
    var q := v / p;
    var r := Load(Store(m, a, k, v), a, k);
    assert v == q * p + u;
    if r == u {
      assert r - v == (-q) * p;
      DivModIs(r - v, p, -q, 0);
    } else {
      assert r - v == (-q - 1) * p;
      DivModIs(r - v, p, -q - 1, 0);
    }
  }

  lemma OnlyOne(v: int, w: int, p: int)
    requires p > 0 && -p <= 2 * v < p && -p <= 2 * w < p && (w - v) % p == 0
    ensures v == w
  {
    var q := (w - v) / p;
    assert w - v == q * p;
    MultipleBounds(q, p);
  }

  /** Byte i of what was stored is the i-th byte of the value, low bytes first; other bytes stay. */
  lemma {:induction false} StoredByte(m: Memory, a: int, k: nat, v: int, i: nat)
    requires i < k
    ensures ByteAt(Store(m, a, k, v), a + i) == (v / Pow2(8 * i)) % 256
    decreases k
  {
    var m1 := m[a := v % 256];
    if i == 0 {
      Pow2Zero();
      StoreKeepsBelow(m1, a + 1, k - 1, v / 256, a);
    } else {
      StoredByte(m1, a + 1, k - 1, v / 256, i - 1);
      ShiftTwice(v, 8 * (i - 1));
    }
  }

  lemma {:induction false} StoreElsewhere(m: Memory, a: int, k: nat, v: int, b: int)
    requires b < a || a + k <= b
    ensures ByteAt(Store(m, a, k, v), b) == ByteAt(m, b)
    decreases k
  {
    if k > 0 {
      StoreElsewhere(m[a := v % 256], a + 1, k - 1, v / 256, b);
    }
  }

  lemma ShiftTwice(v: int, n: nat)
    ensures (v / 256) / Pow2(n) == v / Pow2(n + 8)
  {
    hide Pow2;
    Pow2Step(n);
    var p, u := Pow2(n), v / 256;
    var q, r := u / p, u % p;
    assert u == q * p + r && v == 256 * u + v % 256;
    assert v == q * (256 * p) + (256 * r + v % 256);
    assert 256 * r + v % 256 < 256 * p;
    DivModIs(v, 256 * p, q, 256 * r + v % 256);
  }

  /** Wrapping changes a number by a multiple of 2^64. */
  lemma WrapIs(x: int)
    ensures IsWord(Wrap(x)) && (Wrap(x) - x) % 0x1_0000_0000_0000_0000 == 0
  {
    var q := (x + TWO_63) / TWO_64;
    DivModIs(Wrap(x) - x, TWO_64, -q, 0);
  }

  // ---- shifts ---------------------------------------------------------------------------------------

  /** A left shift multiplies by a power of two and wraps; a right shift divides by it, rounding down. */
  lemma Shifted(x: int, n: nat)
    requires IsWord(x) && n < 64
    ensures Alu(SHL, x, n).Some? && (Alu(SHL, x, n).value - x * Pow2(n)) % 0x1_0000_0000_0000_0000 == 0
    ensures Alu(SHR, x, n).Some? && var r := Alu(SHR, x, n).value; r * Pow2(n) <= x < (r + 1) * Pow2(n)
  {
    hide Pow2, Bitwise, TruncDiv, Wrap;
    WrapIs(x * Pow2(n));
    RoundedDown(x, Pow2(n));
  }

  lemma RoundedDown(x: int, p: int)
    requires p > 0
    ensures (x / p) * p <= x < (x / p + 1) * p
  {
    assert x == (x / p) * p + x % p;
    assert (x / p + 1) * p == (x / p) * p + p;
  }

  // ---- division -------------------------------------------------------------------------------------

  /** C's division: the remainder has the sign of the dividend and is smaller than the divisor. */
  lemma Truncated(x: int, y: int)
    requires y != 0
    ensures var q := TruncDiv(x, y);
            var r := x - y * q;
            && (x >= 0 ==> 0 <= r) && (x <= 0 ==> r <= 0)
            && (y > 0 ==> -y < r < y) && (y < 0 ==> y < r < -y)
  {
    var a: int, b: int := Abs(x), Abs(y);
    var q := a / b;
    assert a == b * q + a % b;
    Negate(b, q);
  }

  lemma Negate(b: int, q: int)
    ensures (-b) * q == -(b * q) && b * (-q) == -(b * q) && (-b) * (-q) == b * q
  {
  }

  // ---- bits -----------------------------------------------------------------------------------------

  /** Bit i of x in two's complement. */
  predicate BitAt(x: int, i: nat) { (x / Pow2(i)) % 2 == 1 }

  lemma BitZero(x: int)
    ensures BitAt(x, 0) <==> x % 2 == 1
  {
    Pow2Zero();
  }

  lemma BitNext(x: int, i: nat)
    ensures BitAt(x, i + 1) <==> BitAt(x / 2, i)
  {
    hide Pow2;
    Pow2Next(i);
    var p, u := Pow2(i), x / 2;
    var q, r := u / p, u % p;
    assert u == q * p + r && x == 2 * u + x % 2;
    assert x == q * (2 * p) + (2 * r + x % 2);
    DivModIs(x, 2 * p, q, 2 * r + x % 2);
  }

  lemma Pow2Next(n: nat)
    ensures Pow2(n + 1) == 2 * Pow2(n)
  {
  }

  lemma {:induction false} MergedBit(op: BitOp, x: int, y: int, n: nat, i: nat)
    requires i < n
    ensures BitAt(Merged(op, x, y, n), i) <==> OnBits(op, BitAt(x, i), BitAt(y, i))
    decreases n
  {
    hide BitAt;
    var rest := Merged(op, x / 2, y / 2, n - 1);
    assert Merged(op, x, y, n) / 2 == rest;
    if i == 0 {
      BitZero(x);
      BitZero(y);
      BitZero(Merged(op, x, y, n));
    } else {
      MergedBit(op, x / 2, y / 2, n - 1, i - 1);
      BitNext(x, i - 1);
      BitNext(y, i - 1);
      BitNext(Merged(op, x, y, n), i - 1);
    }
  }

  /** Wrapping keeps the low 64 bits. */
  lemma {:induction false} WrapBit(x: int, d: int, n: nat, i: nat)
    requires i < n
    ensures BitAt(x + d * Pow2(n), i) <==> BitAt(x, i)
    decreases n
  {
    hide BitAt, Pow2;
    var p := Pow2(n - 1);
    Pow2Next(n - 1);
    var y := x + d * Pow2(n);
    assert d * Pow2(n) == 2 * (d * p);
    assert y % 2 == x % 2 && y / 2 == x / 2 + d * p;
    if i == 0 {
      BitZero(x);
      BitZero(y);
    } else {
      WrapBit(x / 2, d, n - 1, i - 1);
      BitNext(x, i - 1);
      BitNext(y, i - 1);
    }
  }

  /** `|`, `^` and `&` bit by bit. */
  lemma BitwiseBits(x: int, y: int, i: nat)
    requires i < 64
    ensures BitAt(Bitwise(BitOr, x, y), i) <==> BitAt(x, i) || BitAt(y, i)
    ensures BitAt(Bitwise(BitXor, x, y), i) <==> (BitAt(x, i) <==> !BitAt(y, i))
    ensures BitAt(Bitwise(BitAnd, x, y), i) <==> BitAt(x, i) && BitAt(y, i)
  {
    hide BitAt, Merged;
    WrapKeepsBit(Merged(BitOr, x, y, 64), i);
    WrapKeepsBit(Merged(BitXor, x, y, 64), i);
    WrapKeepsBit(Merged(BitAnd, x, y, 64), i);
    MergedBit(BitOr, x, y, 64, i);
    MergedBit(BitXor, x, y, 64, i);
    MergedBit(BitAnd, x, y, 64, i);
  }

  lemma WrapKeepsBit(x: int, i: nat)
    requires i < 64
    ensures BitAt(Wrap(x), i) <==> BitAt(x, i)
  {
    hide BitAt, Pow2;
    SpanIs(8);
    var q := (x + TWO_63) / TWO_64;
    assert Wrap(x) == x + (-q) * Pow2(64);
    WrapBit(x, -q, 64, i);
  }

  /** `~x` is -1 - x. */
  lemma Complement(x: int)
    requires IsWord(x)
    ensures Bitwise(BitXor, x, -1) == -1 - x
  {
    hide Pow2;
    SpanIs(8);
    Flipped(x, 64);
    var q := (-1 - x) / TWO_64;
    assert Merged(BitXor, x, -1, 64) == (-1 - x) % TWO_64;
    WrapMod(-1 - x);
  }

  lemma WrapMod(x: int)
    requires IsWord(x)
    ensures Wrap(x % TWO_64) == x
  {
  }

  lemma {:induction false} Flipped(x: int, n: nat)
    ensures Merged(BitXor, x, -1, n) == (-1 - x) % Pow2(n)
    decreases n
  {
    hide Pow2;
    if n == 0 {
      Pow2Zero();
    } else {
      Flipped(x / 2, n - 1);
      Pow2Next(n - 1);
      var p, u := Pow2(n - 1), -1 - x / 2;
      var q, r := u / p, u % p;
      assert -1 / 2 == -1 && (-1) % 2 == 1;
      assert u == q * p + r;
      assert -1 - x == 2 * u + (1 - x % 2);
      assert -1 - x == q * (2 * p) + (2 * r + 1 - x % 2);
      DivModIs(-1 - x, 2 * p, q, 2 * r + 1 - x % 2);
    }
  }

  // ---- ntohl and ntohs --------------------------------------------------------------------------------

  /** The bytes of the result are those of the operand in reverse; it is a value of its type. */
  lemma BytesReversed(x: int)
    ensures var r := Builtin(NTHL, x);
            && InRange(r, 4)
            && r % 0x100 == (x / 0x100_0000) % 0x100 && (r / 0x100) % 0x100 == (x / 0x1_0000) % 0x100
            && (r / 0x1_0000) % 0x100 == (x / 0x100) % 0x100 && (r / 0x100_0000) % 0x100 == x % 0x100
    ensures var r := Builtin(NTHS, x);
            InRange(r, 2) && r % 0x100 == (x / 0x100) % 0x100 && (r / 0x100) % 0x100 == x % 0x100
  {
    hide Pow2;
    Pow2Zero();
    Pow2Step(0); Pow2Step(8); Pow2Step(16); Pow2Step(24);
    var b0, b1, b2, b3 := x % 0x100, (x / 0x100) % 0x100, (x / 0x1_0000) % 0x100, (x / 0x100_0000) % 0x100;
    Assembled(b3, b2, b1, b0, Builtin(NTHL, x));
    AssembledShort(b1, b0, Builtin(NTHS, x));
  }

  lemma Assembled(b0: int, b1: int, b2: int, b3: int, r: int)
    requires 0 <= b0 < 0x100 && 0 <= b1 < 0x100 && 0 <= b2 < 0x100 && 0 <= b3 < 0x100
    requires var u := b0 + 0x100 * b1 + 0x1_0000 * b2 + 0x100_0000 * b3; r == if u >= 0x8000_0000 then u - 0x1_0000_0000 else u
    ensures InRange(r, 4)
    ensures r % 0x100 == b0 && (r / 0x100) % 0x100 == b1 && (r / 0x1_0000) % 0x100 == b2 && (r / 0x100_0000) % 0x100 == b3
  {
    var c := if r < 0 then 1 else 0;
    DivModIs(r, 0x100, b1 + 0x100 * b2 + 0x1_0000 * b3 - c * 0x100_0000, b0);
    DivModIs(r / 0x100, 0x100, b2 + 0x100 * b3 - c * 0x1_0000, b1);
    DivModIs(r, 0x1_0000, b2 + 0x100 * b3 - c * 0x1_0000, b0 + 0x100 * b1);
    DivModIs(r / 0x1_0000, 0x100, b3 - c * 0x100, b2);
    DivModIs(r, 0x100_0000, b3 - c * 0x100, b0 + 0x100 * b1 + 0x1_0000 * b2);
    DivModIs(r / 0x100_0000, 0x100, -c, b3);
  }

  lemma AssembledShort(b0: int, b1: int, r: int)
    requires 0 <= b0 < 0x100 && 0 <= b1 < 0x100
    requires var u := b0 + 0x100 * b1; r == if u >= 0x8000 then u - 0x1_0000 else u
    ensures InRange(r, 2) && r % 0x100 == b0 && (r / 0x100) % 0x100 == b1
  {
    var c := if r < 0 then 1 else 0;
    DivModIs(r, 0x100, b1 - c * 0x100, b0);
    DivModIs(r / 0x100, 0x100, -c, b1);
  }
}
