/** 64-bit two's complement words, byte-addressed memory and the ALU of the expression VM. */
module Words {
  import opened Common

  const TWO_63: int := 0x8000_0000_0000_0000
  const TWO_64: int := 0x1_0000_0000_0000_0000

  /** The signed 64-bit word congruent to x: what a C `long` holds after wrapping. */
  function Wrap(x: int): (r: int)
    ensures -TWO_63 <= r < TWO_63
    ensures -TWO_63 <= x < TWO_63 ==> r == x
  {
    (x + TWO_63) % TWO_64 - TWO_63
  }

  predicate IsWord(x: int) { -TWO_63 <= x < TWO_63 }

  /** Adding d and then taking it away again, each step wrapping, gives back the word. */
  lemma WrapUndo(x: int, d: int)
    requires IsWord(x)
    ensures Wrap(Wrap(x + d) - d) == x
    ensures Wrap(Wrap(x - d) + d) == x
  {
    WrapShift(x + d, -d);
    WrapShift(x - d, d);
  }

  lemma WrapShift(x: int, d: int)
    ensures Wrap(Wrap(x) + d) == Wrap(x + d)
  {
    var q := (x + TWO_63) / TWO_64;
    assert Wrap(x) == x - q * TWO_64;
    var y := x + d + TWO_63;
    var k := y / TWO_64;
    assert y == k * TWO_64 + y % TWO_64;
    var z := y - q * TWO_64;
    assert z == (k - q) * TWO_64 + y % TWO_64;
    DivModIs(z, TWO_64, k - q, y % TWO_64);
  }

  lemma MultipleBounds(d: int, p: int)
    requires p > 0
    ensures d >= 1 ==> d * p >= p
    ensures d <= -1 ==> d * p <= -p
  {
    if d >= 1 {
      assert (d - 1) * p >= 0;
    } else if d <= -1 {
      assert (-d - 1) * p >= 0;
    }
  }

  /** Quotient and remainder are determined by v == q * p + r with 0 <= r < p. */
  lemma DivModIs(v: int, p: int, q: int, r: int)
    requires p > 0 && v == q * p + r && 0 <= r < p
    ensures v % p == r && v / p == q
  {
    var d := q - v / p;
    assert v == (v / p) * p + v % p;
    assert d * p == q * p - (v / p) * p;
    MultipleBounds(d, p);
  }

  // ---- memory -------------------------------------------------------------------------------

  /** Memory by byte address; a byte that was never written reads as 0. */
  type Memory = map<int, int>

  function ByteAt(m: Memory, a: int): (b: int)
    ensures 0 <= b < 256
  {
    if a in m then m[a] % 256 else 0
  }

  /** The k bytes at a, little-endian and unsigned. */
  function Fetch(m: Memory, a: int, k: nat): nat
    decreases k
  {
    if k == 0 then 0 else ByteAt(m, a) + 256 * Fetch(m, a + 1, k - 1)
  }

  /** The low k bytes of v written at a, little-endian. */
  function Store(m: Memory, a: int, k: nat, v: int): Memory
    decreases k
  {
    if k == 0 then m else Store(m[a := v % 256], a + 1, k - 1, v / 256)
  }

  /** The k-byte two's complement integer whose unsigned reading is u. */
  function SignExtend(u: int, k: nat): (r: int) {
    if 2 * u >= Pow2(8 * k) then u - Pow2(8 * k) else u
  }

  function Load(m: Memory, a: int, k: nat): int {
    SignExtend(Fetch(m, a, k), k)
  }

  lemma {:induction false} StoreKeepsBelow(m: Memory, a: int, k: nat, v: int, b: int)
    requires b < a
    ensures ByteAt(Store(m, a, k, v), b) == ByteAt(m, b)
    decreases k
  {
    if k > 0 {
      StoreKeepsBelow(m[a := v % 256], a + 1, k - 1, v / 256, b);
    }
  }

  lemma Pow2Zero()
    ensures Pow2(0) == 1
  {
  }

  lemma Pow2Step(n: nat)
    ensures Pow2(n + 8) == 256 * Pow2(n)
  {
    assert Pow2(n + 8) == 2 * Pow2(n + 7) == 4 * Pow2(n + 6) == 8 * Pow2(n + 5)
        == 16 * Pow2(n + 4) == 32 * Pow2(n + 3) == 64 * Pow2(n + 2) == 128 * Pow2(n + 1);
  }

  lemma ModSplit(v: int, n: nat)
    ensures v % Pow2(n + 8) == v % 256 + 256 * ((v / 256) % Pow2(n))
  {
    Pow2Step(n);
    var p := Pow2(n);
    var q, r := (v / 256) / p, (v / 256) % p;
    assert v / 256 == q * p + r;
    var low := v % 256 + 256 * r;
    assert v == 256 * (q * p + r) + v % 256;
    assert v == q * (256 * p) + low;
    assert 0 <= low < 256 * p;
    DivModIs(v, 256 * p, q, low);
  }

  /** Reading back what was stored gives the low k bytes of the value, sign-extended. */
  lemma LoadAfterStore(m: Memory, a: int, k: nat, v: int)
    ensures Load(Store(m, a, k, v), a, k) == SignExtend(v % Pow2(8 * k), k)
  {
    hide Pow2, SignExtend, Store, Fetch;
    FetchAfterStore(m, a, k, v);
  }

  lemma {:induction false} FetchAfterStore(m: Memory, a: int, k: nat, v: int)
    ensures Fetch(Store(m, a, k, v), a, k) == v % Pow2(8 * k)
    decreases k
  {
    hide Pow2;
    if k == 0 {
      assert Pow2(8 * k) == 1 by { Pow2Zero(); }
    } else {
      var m1 := m[a := v % 256];
      FetchAfterStore(m1, a + 1, k - 1, v / 256);
      StoreKeepsBelow(m1, a + 1, k - 1, v / 256, a);
      ModSplit(v, 8 * (k - 1));
    }
  }

  lemma {:induction false} FetchBound(m: Memory, a: int, k: nat)
    ensures 0 <= Fetch(m, a, k) < Pow2(8 * k)
    decreases k
  {
    if k > 0 {
      FetchBound(m, a + 1, k - 1);
      Pow2Step(8 * (k - 1));
    }
  }

  lemma ByteWidths(k: nat)
    requires k in {1, 2, 4, 8}
    ensures Pow2(8 * k) <= TWO_64
  {
    assert Pow2(0) == 1;
    Pow2Step(0);
    assert Pow2(8) == 0x100;
    Pow2Step(8);
    assert Pow2(16) == 0x1_0000;
    Pow2Step(16); Pow2Step(24);
    assert Pow2(32) == 0x1_0000_0000;
    Pow2Step(32); Pow2Step(40); Pow2Step(48); Pow2Step(56);
  }

  /** A load of 1, 2, 4 or 8 bytes is a word. */
  lemma LoadIsWord(m: Memory, a: int, k: nat)
    requires k in {1, 2, 4, 8}
    ensures IsWord(Load(m, a, k))
  {
    FetchBound(m, a, k);
    ByteWidths(k);
  }

  // ---- the ALU ------------------------------------------------------------------------------

  // Opcodes, in the order of the enumeration at expr.c:84-86.
  const LEA := 0
  const IMM := 1
  const JMP := 2
  const JSR := 3
  const BZ := 4
  const BNZ := 5
  const ENT := 6
  const ADJ := 7
  const LI := 8
  const SI := 9
  const LEV := 10
  const PSH := 11
  const OR := 12
  const XOR := 13
  const AND := 14
  const EQ := 15
  const NE := 16
  const LT := 17
  const GT := 18
  const LE := 19
  const GE := 20
  const SHL := 21
  const SHR := 22
  const ADD := 23
  const SUB := 24
  const MUL := 25
  const DIV := 26
  const MOD := 27
  const PRTF := 28
  const KSYM := 29
  const NTHL := 30
  const NTHS := 31
  const STRNCMP := 32
  const EXIT := 33

  datatype BitOp = BitOr | BitXor | BitAnd

  function OnBits(op: BitOp, a: bool, b: bool): bool {
    match op
    case BitOr => a || b
    case BitXor => a != b
    case BitAnd => a && b
  }

  /** The low n bits of x and y, combined bit by bit. */
  function Merged(op: BitOp, x: int, y: int, n: nat): nat
    decreases n
  {
    if n == 0 then 0 else Merged(op, x / 2, y / 2, n - 1) * 2 + Bool(OnBits(op, x % 2 == 1, y % 2 == 1))
  }

  function Bitwise(op: BitOp, x: int, y: int): int { Wrap(Merged(op, x, y, 64)) }

  function Bool(b: bool): nat { if b then 1 else 0 }

  function Abs(x: int): nat { if x < 0 then -x else x }

  /** C's quotient: truncated toward zero. */
  function TruncDiv(x: int, y: int): int
    requires y != 0
  {
    if (x < 0) == (y < 0) then Abs(x) / Abs(y) else -(Abs(x) / Abs(y))
  }

  /** `a = *sp++ op a`: x is the popped word, y is `a`. None is the processor's divide error. */
  function Alu(op: int, x: int, y: int): Option<int>
    requires OR <= op <= MOD
  {
    if op == OR then Some(Bitwise(BitOr, x, y))
    else if op == XOR then Some(Bitwise(BitXor, x, y))
    else if op == AND then Some(Bitwise(BitAnd, x, y))
    else if op == EQ then Some(Bool(x == y))
    else if op == NE then Some(Bool(x != y))
    else if op == LT then Some(Bool(x < y))
    else if op == GT then Some(Bool(x > y))
    else if op == LE then Some(Bool(x <= y))
    else if op == GE then Some(Bool(x >= y))
    else if op == SHL then Some(Wrap(x * Pow2(y % 64)))
    else if op == SHR then Some(x / Pow2(y % 64))
    else if op == ADD then Some(Wrap(x + y))
    else if op == SUB then Some(Wrap(x - y))
    else if op == MUL then Some(Wrap(x * y))
    else if y == 0 || (x == -TWO_63 && y == -1) then None
    else if op == DIV then Some(TruncDiv(x, y))
    else Some(x - y * TruncDiv(x, y))
  }

  function ByteOf(x: int, i: nat): int { (x / Pow2(8 * i)) % 256 }

  /** ntohl and ntohs on a little-endian host, with the casts of expr.c:542-543. */
  function Builtin(op: int, x: int): int {
    if op == NTHL then
      SignExtend(ByteOf(x, 3) + 0x100 * ByteOf(x, 2) + 0x1_0000 * ByteOf(x, 1) + 0x100_0000 * ByteOf(x, 0), 4)
    else
      SignExtend(ByteOf(x, 1) + 0x100 * ByteOf(x, 0), 2)
  }
}
