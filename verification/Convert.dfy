/** Clock arithmetic of convert.c: the scaling factor search and the conversions between TSC cycles and nanoseconds. */
module Convert {
  import opened Common

  const U32: nat := 0x1_0000_0000
  const U64: nat := 0x1_0000_0000_0000_0000

  lemma {:induction false} PowAdd(a: nat, b: nat)
    ensures Pow2(a + b) == Pow2(a) * Pow2(b)
  {
    if a > 0 {
      PowAdd(a - 1, b);
    }
  }

  lemma PowWords()
    ensures Pow2(32) == U32 && Pow2(64) == U64
  {
    assert Pow2(8) == 256;
    PowAdd(8, 8);
    PowAdd(16, 16);
    PowAdd(32, 32);
  }

  lemma {:induction false} PowGrows(a: nat, b: nat)
    requires a <= b
    ensures Pow2(a) <= Pow2(b)
  {
    if a < b {
      PowGrows(a, b - 1);
    }
  }

  // ---- division --------------------------------------------------------------------------------------

  /** Quotients from bounds. */
  lemma DivIs(a: int, b: int, q: int)
    requires b > 0 && q * b <= a < (q + 1) * b
    ensures a / b == q
  {
    DivBounds(a, b);
    assert (q + 1) * b == q * b + b;
    var d := a / b;
    Cancel(d, q + 1, b);
    Cancel(q, d + 1, b);
  }

  lemma Cancel(x: int, y: int, b: int)
    requires b > 0 && x * b < y * b
    ensures x < y
  {
    if x >= y {
      MulLe(y, x, b);
    }
  }

  lemma MulLe(x: int, y: int, b: int)
    requires x <= y && b >= 0
    ensures x * b <= y * b
  {
    assert (y - x) * b >= 0;
  }

  lemma DivBounds(a: int, b: int)
    requires b > 0
    ensures a / b * b <= a < a / b * b + b
  {
  }

  lemma DivMonotone(a: int, b: int, d: int)
    requires d > 0 && a <= b
    ensures a / d <= b / d
  {
    DivBounds(a, d);
    DivBounds(b, d);
    Cancel(a / d, b / d + 1, d);
  }

  // ---- the scaling factor ----------------------------------------------------------------------------

  /** to * 2^sft / from, rounded. */
  function Scaled(from: nat, to: nat, sft: nat): nat
    requires from > 0
  {
    (to * Pow2(sft) + from / 2) / from
  }

  /** No value on the way to Scaled leaves 64 bits. */
  lemma ScaledFits(from: nat, to: nat, sft: nat)
    requires 0 < from < U32 && to < U32 && sft <= 32
    ensures to * Pow2(sft) + from / 2 < U64
  {
    PowWords();
    PowGrows(sft, 32);
    MulLe(to, U32 - 1, Pow2(sft));
    assert (U32 - 1) * Pow2(sft) <= (U32 - 1) * U32;
  }

  lemma ScaledGrows(from: nat, to: nat, a: nat, b: nat)
    requires from > 0 && a <= b
    ensures Scaled(from, to, a) <= Scaled(from, to, b)
  {
    PowGrows(a, b);
    assert to * Pow2(a) <= to * Pow2(b);
    DivMonotone(to * Pow2(a) + from / 2, to * Pow2(b) + from / 2, from);
  }

  /** Scaled is to * 2^sft / from rounded to nearest. */
  lemma Nearest(from: nat, to: nat, sft: nat)
    requires from > 0
    ensures var exact := to * Pow2(sft);
            -(from as int) <= 2 * (Scaled(from, to, sft) * from - exact) <= from
  {
    DivBounds(to * Pow2(sft) + from / 2, from);
  }

  /** The largest number of bits a factor may have: 32 less the bits of maxsec * from beyond 32. */
  method RangeShift(from: nat, maxsec: nat) returns (sftacc: nat)
    requires from < U32 && maxsec < U32
    ensures sftacc <= 32 && maxsec * from < Pow2(64 - sftacc)
    ensures sftacc < 32 ==> Pow2(63 - sftacc) <= maxsec * from
  {
    var all := maxsec * from;
    var tmp := all / U32;
    sftacc := 32;
    PowWords();
    assert all < U32 * U32 by { MulLe(maxsec, U32 - 1, from); assert (U32 - 1) * from <= (U32 - 1) * U32; }
    while tmp > 0
      invariant sftacc <= 32 && tmp * Pow2(64 - sftacc) <= all < (tmp + 1) * Pow2(64 - sftacc)
      invariant tmp > 0 ==> sftacc > 0
      invariant sftacc < 32 ==> Pow2(63 - sftacc) <= all
      decreases tmp
    {
      var half := tmp / 2;
      Halve(all, tmp, Pow2(64 - sftacc));
      assert Pow2(65 - sftacc) == 2 * Pow2(64 - sftacc);
      if half > 0 && sftacc == 1 {
        TooMuch(all, half, Pow2(64));
        assert false;
      }
      tmp := half;
      sftacc := sftacc - 1;
    }
  }

  lemma Halve(all: nat, tmp: nat, p: nat)
    requires tmp > 0 && p > 0 && tmp * p <= all < (tmp + 1) * p
    ensures tmp / 2 * (2 * p) <= all < (tmp / 2 + 1) * (2 * p) && p <= all
  {
    var h := tmp / 2;
    assert h * (2 * p) == (2 * h) * p;
    assert (h + 1) * (2 * p) == (2 * h + 2) * p;
    MulLe(2 * h, tmp, p);
    MulLe(tmp + 1, 2 * h + 2, p);
    MulLe(1, tmp, p);
  }

  lemma TooMuch(all: nat, tmp: nat, p: nat)
    requires tmp > 0 && tmp * p <= all
    ensures p <= all
  {
    MulLe(1, tmp, p);
  }

  /** Whether a shift exists: the smallest one fits. */
  predicate Fits(from: nat, to: nat, sftacc: nat, sft: nat)
    requires from > 0
  {
    Scaled(from, to, sft) < Pow2(sftacc)
  }

  /**
   * clocks_calc_mult_shift. A shift is found exactly when shift 1 fits; it is then the largest that fits,
   * the factor is to * 2^shift / from to the nearest, and maxsec seconds of cycles can be multiplied in 64 bits.
   */
  method ClocksCalcMultShift(from: nat, to: nat, maxsec: nat) returns (mult: nat, shift: nat, ghost sftacc: nat)
    requires 0 < from < U32 && to < U32 && maxsec < U32
    ensures sftacc <= 32 && maxsec * from < Pow2(64 - sftacc) && (sftacc < 32 ==> Pow2(63 - sftacc) <= maxsec * from)
    ensures shift <= 32 && (shift > 0 <==> Fits(from, to, sftacc, 1))
    ensures shift > 0 ==> mult == Scaled(from, to, shift) && mult < U32
    ensures shift > 0 ==> -(from as int) <= 2 * (mult * from - to * Pow2(shift)) <= from
    ensures shift > 0 ==> forall s :: shift < s <= 32 ==> !Fits(from, to, sftacc, s)
    ensures shift > 0 ==> forall cycles :: 0 <= cycles <= maxsec * from ==> cycles * mult < U64
    ensures shift == 0 ==> mult == Scaled(from, to, 1) % U32
  {
    hide Pow2, Scaled;
    var acc := RangeShift(from, maxsec);
    sftacc := acc;
    var sft, tmp := 32, 0;
    while sft > 0
      invariant 0 <= sft <= 32
      invariant forall s :: sft < s <= 32 ==> !Fits(from, to, acc, s)
      invariant sft < 32 ==> tmp == Scaled(from, to, sft + 1)
    {
      ScaledFits(from, to, sft);
      tmp := Scaled(from, to, sft);
      DivZero(tmp, Pow2(acc));
      if tmp / Pow2(acc) == 0 {
        break;
      }
      sft := sft - 1;
    }
    if sft > 0 {
      ScaledGrows(from, to, 1, sft);
      PowWords();
      PowGrows(acc, 32);
      InRange(maxsec * from, tmp, acc);
      Small(tmp);
      Nearest(from, to, sft);
    }
    mult, shift := tmp % U32, sft;
  }

  lemma DivZero(a: nat, b: nat)
    requires b > 0
    ensures a / b == 0 <==> a < b
  {
    if a < b {
      DivIs(a, b, 0);
    } else {
      DivBounds(a, b);
    }
  }

  lemma InRange(most: nat, mult: nat, acc: nat)
    requires acc <= 32 && most < Pow2(64 - acc) && mult < Pow2(acc)
    ensures forall cycles :: 0 <= cycles <= most ==> cycles * mult < U64
  {
    PowWords();
    PowAdd(64 - acc, acc);
    forall cycles | 0 <= cycles <= most
      ensures cycles * mult < U64
    {
      StrictProduct(cycles, mult, Pow2(64 - acc), Pow2(acc));
    }
  }

  lemma Small(a: nat)
    requires a < U32
    ensures a % U32 == a
  {
  }

  lemma StrictProduct(a: nat, b: nat, x: nat, y: nat)
    requires a < x && b < y
    ensures a * b < x * y
  {
    MulLe(a, x, b);
    assert x * b < x * y by { assert x * (y - b) > 0; assert x * (y - b) == x * y - x * b; }
  }

  // ---- conversions -------------------------------------------------------------------------------------

  /** struct perf_tsc_conversion */
  datatype Conversion = Conversion(shift: nat, mult: nat, zero: nat)

  predicate Good(tc: Conversion) { tc.shift <= 32 && 0 < tc.mult < U32 && tc.zero < U64 }

  /** u64 arithmetic. */
  function Wrap(x: int): (r: nat)
    ensures r < U64
  {
    x % U64
  }

  /** perfclock_to_tsc, in quotient and remainder. */
  function PerfToTsc(tc: Conversion, ns: nat): nat
    requires Good(tc)
  {
    var t := Wrap(ns - tc.zero);
    var quot, rem := t / tc.mult, t % tc.mult;
    Wrap(Wrap(quot * Pow2(tc.shift)) + Wrap(rem * Pow2(tc.shift)) / tc.mult)
  }

  /** The exact quotient n * x / y, rounded down. */
  function Ratio(n: nat, x: nat, y: nat): nat
    requires y > 0
  {
    n * x / y
  }

  lemma RatioGrows(m: nat, n: nat, x: nat, y: nat)
    requires y > 0 && m <= n
    ensures Ratio(m, x, y) <= Ratio(n, x, y)
  {
    MulLe(m, n, x);
    DivMonotone(m * x, n * x, y);
  }

  /** mul_u64_u32_shr, with a 128-bit product. */
  function MulShr(a: nat, b: nat, shift: nat): nat { Wrap(Ratio(a, b, Pow2(shift))) }

  /** mul_u64_u32_shr without 128-bit integers. */
  function MulShrSplit(a: nat, b: nat, shift: nat): nat
    requires shift <= 32
  {
    var low, high := a % U32, a / U32;
    var ret := Wrap(low * b) / Pow2(shift);
    if high != 0 then Wrap(ret + Wrap(high * b * Pow2(32 - shift))) else Wrap(ret)
  }

  /** tsc_to_perfclock */
  function TscToPerf(tc: Conversion, tsc: nat): nat { Wrap(MulShr(tsc, tc.mult, tc.shift) + tc.zero) }

  lemma WrapAdd(a: int, b: int)
    ensures Wrap(Wrap(a) + b) == Wrap(a + b) && Wrap(b + Wrap(a)) == Wrap(b + a)
  {
    var q := a / U64;
    assert a == q * U64 + Wrap(a);
    WrapShift(Wrap(a) + b, q);
  }

  lemma WrapShift(a: int, q: int)
    ensures Wrap(a + q * U64) == Wrap(a)
  {
    var d := a / U64;
    assert a + q * U64 == (d + q) * U64 + a % U64;
    DivIs(a + q * U64, U64, d + q);
  }

  lemma WrapSmall(a: nat)
    requires a < U64
    ensures Wrap(a) == a
  {
  }

  /** Dividing in parts. */
  lemma DivParts(x: nat, y: nat, b: nat, q: nat)
    requires b > 0 && x == q * b
    ensures (x + y) / b == q + y / b
  {
    DivBounds(y, b);
    assert (q + y / b) * b == q * b + y / b * b;
    assert (q + y / b + 1) * b == (q + y / b) * b + b;
    DivIs(x + y, b, q + y / b);
  }

  lemma SplitCore(t: nat, quot: nat, rem: nat, mult: nat, p: nat)
    requires mult > 0 && t == quot * mult + rem && rem * p < U64
    ensures Wrap(Wrap(quot * p) + Wrap(rem * p) / mult) == Wrap(Ratio(t, p, mult))
  {
    hide Wrap;
    var x, y := quot * p, rem * p;
    WrapSmall(y);
    Distribute(t, quot, rem, mult, p);
    DivParts(x * mult, y, mult, x);
    WrapAdd(x, y / mult);
  }

  /** The quotient and remainder form is the exact quotient. */
  lemma SplitForm(tc: Conversion, ns: nat)
    requires Good(tc)
    ensures PerfToTsc(tc, ns) == Wrap(Ratio(Wrap(ns - tc.zero), Pow2(tc.shift), tc.mult))
  {
    hide Pow2, Wrap, Ratio;
    var t := Wrap(ns - tc.zero);
    QuotRem(t, tc.mult);
    RemFits(t % tc.mult, tc.mult, tc.shift);
    SplitCore(t, t / tc.mult, t % tc.mult, tc.mult, Pow2(tc.shift));
  }

  lemma QuotRem(t: nat, m: nat)
    requires m > 0
    ensures t == t / m * m + t % m && t % m < m
  {
  }

  lemma Distribute(t: nat, quot: nat, rem: nat, mult: nat, p: nat)
    requires t == quot * mult + rem
    ensures t * p == quot * p * mult + rem * p
  {
    assert t * p == quot * mult * p + rem * p;
    assert quot * mult * p == quot * p * mult by { Swap(quot, mult, p); }
  }

  lemma Swap(a: int, b: int, c: int)
    ensures a * b * c == a * c * b
  {
    assert a * (b * c) == a * (c * b);
  }

  lemma RemFits(rem: nat, mult: nat, shift: nat)
    requires rem < mult < U32 && shift <= 32
    ensures rem * Pow2(shift) < U64
  {
    PowWords();
    PowGrows(shift, 32);
    hide Pow2;
    StrictProduct(rem, Pow2(shift), U32, U32 + 1);
    MulLe(rem, U32 - 1, Pow2(shift));
    MulLe(Pow2(shift), U32, U32 - 1);
  }

  /** Both forms of the scaled product agree. */
  lemma SplitProduct(a: nat, b: nat, shift: nat)
    requires a < U64 && b < U32 && shift <= 32
    ensures MulShrSplit(a, b, shift) == MulShr(a, b, shift)
  {
    hide Pow2, Wrap;
    var low, high, p, up := a % U32, a / U32, Pow2(shift), Pow2(32 - shift);
    PowWords();
    PowAdd(shift, 32 - shift);
    assert p * up == U32;
    assert low * b < U64 by { StrictProduct(low, b, U32, U32); }
    WrapSmall(low * b);
    assert a * b == high * U32 * b + low * b;
    Regroup(high, b, p, up);
    DivParts(high * U32 * b, low * b, p, high * b * up);
    WrapAdd(high * b * up, low * b / p);
    assert a * b / p == high * b * up + low * b / p;
    if high == 0 {
      assert high * b * up == 0;
    }
  }

  lemma Regroup(high: nat, b: nat, p: nat, up: nat)
    requires p * up == U32
    ensures high * U32 * b == high * b * up * p
  {
    assert high * U32 * b == high * b * U32 by { Swap(high, U32, b); }
    assert high * b * up * p == high * b * (up * p);
  }

  function CeilDiv(a: nat, b: nat): nat
    requires b > 0
  {
    (a + b - 1) / b
  }

  /** Scaling down and up again by x / y loses at most ceil(y / x). */
  lemma ThereAndBack(n: nat, x: nat, y: nat)
    requires x > 0 && y > 0
    ensures var back := Ratio(Ratio(n, x, y), y, x); back <= n && n - back <= CeilDiv(y, x)
  {
    var d := n * x / y;
    DivBounds(n * x, y);
    var back := d * y / x;
    DivBounds(d * y, x);
    assert back <= n by {
      assert (n + 1) * x == n * x + x;
      Cancel(back, n + 1, x);
    }
    var c := CeilDiv(y, x);
    DivBounds(y + x - 1, x);
    assert c * x >= y;
    assert (back + 1) * x == back * x + x;
    assert (n - back) * x < y + x;
    assert (n - back) * x < (c + 1) * x by { assert (c + 1) * x == c * x + x; assert (n - back) * x == n * x - back * x; }
    Cancel(n - back, c + 1, x);
  }

  /** TSC to nanoseconds and back loses at most ceil(2^shift / mult) cycles, whatever time_zero. */
  lemma TscRoundTrip(tc: Conversion, tsc: nat)
    requires Good(tc) && tsc < U64 && Ratio(tsc, tc.mult, Pow2(tc.shift)) < U64
    ensures var back := PerfToTsc(tc, TscToPerf(tc, tsc));
            back <= tsc && tsc - back <= CeilDiv(Pow2(tc.shift), tc.mult)
  {
    hide Pow2, Wrap, PerfToTsc, CeilDiv, Ratio;
    var d := Ratio(tsc, tc.mult, Pow2(tc.shift));
    WrapSmall(d);
    SplitForm(tc, TscToPerf(tc, tsc));
    WrapAdd(d + tc.zero, 0 - tc.zero);
    assert Wrap(TscToPerf(tc, tsc) - tc.zero) == d;
    ThereAndBack(tsc, tc.mult, Pow2(tc.shift));
    WrapSmall(Ratio(d, Pow2(tc.shift), tc.mult));
  }

  /** Nanoseconds to TSC and back loses at most ceil(mult / 2^shift) ns. */
  lemma NsRoundTrip(tc: Conversion, ns: nat)
    requires Good(tc) && ns < U64 && Ratio(Wrap(ns - tc.zero), Pow2(tc.shift), tc.mult) < U64
    ensures Wrap(ns - TscToPerf(tc, PerfToTsc(tc, ns))) <= CeilDiv(tc.mult, Pow2(tc.shift))
  {
    hide Pow2, Wrap, PerfToTsc, CeilDiv, Ratio;
    var t := Wrap(ns - tc.zero);
    var c := Ratio(t, Pow2(tc.shift), tc.mult);
    SplitForm(tc, ns);
    WrapSmall(c);
    ThereAndBack(t, Pow2(tc.shift), tc.mult);
    var d := Ratio(c, tc.mult, Pow2(tc.shift));
    WrapSmall(d);
    WrapMinus(ns - tc.zero, d, ns, tc.zero);
    WrapSmall(t - d);
  }

  lemma WrapMinus(a: int, d: int, ns: int, zero: int)
    requires a == ns - zero
    ensures Wrap(ns - Wrap(d + zero)) == Wrap(Wrap(a) - d)
  {
    var q := (d + zero) / U64;
    assert Wrap(d + zero) == d + zero - q * U64;
    WrapShift(ns - d - zero, q);
    WrapAdd(a, -d);
  }

  /** Later nanoseconds are later cycles, as long as nothing overflows. */
  lemma PerfToTscMonotone(tc: Conversion, a: nat, b: nat)
    requires Good(tc) && tc.zero <= a <= b < U64 && Ratio(b - tc.zero, Pow2(tc.shift), tc.mult) < U64
    ensures PerfToTsc(tc, a) <= PerfToTsc(tc, b)
  {
    hide Pow2, PerfToTsc, Ratio, Wrap;
    SplitForm(tc, a);
    SplitForm(tc, b);
    WrapSmall(a - tc.zero);
    WrapSmall(b - tc.zero);
    RatioGrows(a - tc.zero, b - tc.zero, Pow2(tc.shift), tc.mult);
    WrapSmall(Ratio(a - tc.zero, Pow2(tc.shift), tc.mult));
    WrapSmall(Ratio(b - tc.zero, Pow2(tc.shift), tc.mult));
  }

  lemma TscToPerfMonotone(tc: Conversion, a: nat, b: nat)
    requires Good(tc) && a <= b && Ratio(b, tc.mult, Pow2(tc.shift)) + tc.zero < U64
    ensures TscToPerf(tc, a) <= TscToPerf(tc, b)
  {
    hide Pow2, Ratio, Wrap;
    var p := Pow2(tc.shift);
    RatioGrows(a, b, tc.mult, p);
    WrapSmall(Ratio(a, tc.mult, p));
    WrapSmall(Ratio(b, tc.mult, p));
    WrapSmall(Ratio(a, tc.mult, p) + tc.zero);
    WrapSmall(Ratio(b, tc.mult, p) + tc.zero);
  }

  // ---- the event clock -----------------------------------------------------------------------------------

  datatype Mode = NoConversion | ToTsc | OffsetOnly

  /** perfclock_to_evclock */
  function PerfToEv(mode: Mode, tc: Conversion, offset: int, time: nat): nat
    requires Good(tc)
  {
    match mode
    case NoConversion => time
    case ToTsc => Wrap(PerfToTsc(tc, time) + offset)
    case OffsetOnly => Wrap(time + offset)
  }

  /** evclock_to_perfclock */
  function EvToPerf(mode: Mode, tc: Conversion, offset: int, clock: nat): nat {
    match mode
    case NoConversion => clock
    case ToTsc => TscToPerf(tc, Wrap(clock - offset))
    case OffsetOnly => Wrap(clock - offset)
  }

  /**
   * The event clock is the time, or the cycles, put forward by the offset; a device that converts nothing
   * has none.
   */
  lemma OffsetAhead(mode: Mode, tc: Conversion, offset: int, time: nat)
    requires Good(tc) && time < U64
    ensures mode.NoConversion? ==> PerfToEv(mode, tc, offset, time) == time == EvToPerf(mode, tc, offset, time)
    ensures mode.OffsetOnly? ==> Wrap(PerfToEv(mode, tc, offset, time) - time) == Wrap(offset)
    ensures mode.OffsetOnly? ==> Wrap(time - EvToPerf(mode, tc, offset, time)) == Wrap(offset)
    ensures mode.ToTsc? ==> Wrap(PerfToEv(mode, tc, offset, time) - PerfToTsc(tc, time)) == Wrap(offset)
    ensures mode.ToTsc? ==> EvToPerf(mode, tc, offset, Wrap(time + offset)) == TscToPerf(tc, time)
  {
    hide PerfToTsc, TscToPerf, Wrap;
    TakenAhead(time, offset);
    WrapAdd(time + offset, -offset);
    TakenAhead(PerfToTsc(tc, time), offset);
    WrapSmall(time);
    TakenBack(time, offset);
  }

  lemma TakenAhead(time: int, offset: int)
    ensures Wrap(Wrap(time + offset) - time) == Wrap(offset)
  {
    WrapAdd(time + offset, -time);
  }

  lemma TakenBack(time: int, offset: int)
    ensures Wrap(time - Wrap(time - offset)) == Wrap(offset)
  {
    var q := (time - offset) / U64;
    assert time - offset == q * U64 + Wrap(time - offset);
    WrapShift(offset, q);
  }

  /** What a conversion to the event clock and back may lose, in ns. */
  function EvLoss(mode: Mode, tc: Conversion): nat
    requires Good(tc)
  {
    if mode.ToTsc? then CeilDiv(tc.mult, Pow2(tc.shift)) else 0
  }

  lemma EvRoundTrip(mode: Mode, tc: Conversion, offset: int, time: nat)
    requires Good(tc) && time < U64
    requires mode.ToTsc? ==> Ratio(Wrap(time - tc.zero), Pow2(tc.shift), tc.mult) < U64
    ensures Wrap(time - EvToPerf(mode, tc, offset, PerfToEv(mode, tc, offset, time))) <= EvLoss(mode, tc)
  {
    hide Pow2, Wrap, PerfToTsc, TscToPerf, CeilDiv, Ratio;
    match mode
    case NoConversion => WrapSmall(0);
    case ToTsc =>
      var c := PerfToTsc(tc, time);
      WrapAdd(c + offset, -offset);
      TscFits(tc, time);
      WrapSmall(c);
      NsRoundTrip(tc, time);
    case OffsetOnly =>
      WrapAdd(time + offset, -offset);
      WrapSmall(time);
      WrapSmall(0);
  }

  lemma TscFits(tc: Conversion, ns: nat)
    requires Good(tc)
    ensures PerfToTsc(tc, ns) < U64
  {
  }

  /** The other way round, in cycles. */
  lemma ClockRoundTrip(mode: Mode, tc: Conversion, offset: int, clock: nat)
    requires Good(tc) && clock < U64
    requires mode.ToTsc? ==> Ratio(Wrap(clock - offset), tc.mult, Pow2(tc.shift)) < U64
    ensures Wrap(clock - PerfToEv(mode, tc, offset, EvToPerf(mode, tc, offset, clock)))
            <= if mode.ToTsc? then CeilDiv(Pow2(tc.shift), tc.mult) else 0
  {
    hide Pow2, Wrap, PerfToTsc, TscToPerf, CeilDiv, Ratio;
    match mode
    case NoConversion => WrapSmall(0);
    case ToTsc =>
      var tsc := Wrap(clock - offset);
      TscRoundTrip(tc, tsc);
      var back := PerfToTsc(tc, TscToPerf(tc, tsc));
      WrapMinus(clock - offset, back, clock, offset);
      WrapSmall(tsc - back);
    case OffsetOnly =>
      WrapAdd(clock - offset, offset);
      WrapSmall(clock);
      WrapSmall(0);
  }
}
