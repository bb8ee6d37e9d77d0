/** What adaptation in src/g726.c is for: the scale follows the signal, and the predictor multiplies nearly exactly. */
module G726Adaptation {
  import opened Arith
  import opened Bits
  import opened G726
  import opened G726Adapt
  import opened G726Accuracy

  // ----- the scale factors and the speed

  /** What a code does to the scale factor and to the speed of adaptation. */
  function Wi(rate: Rate, code: nat): int
    requires code < Codes(rate)
  {
    FiInRange(rate, code);
    TablesOf(rate).witab[code]
  }

  function Fi(rate: Rate, code: nat): int
    requires code < Codes(rate)
  {
    FiInRange(rate, code);
    TablesOf(rate).fitab[code]
  }

  /** The signs of a level do the same, and the next level does no less. */
  predicate Rises(table: seq<int>, level: nat, size: nat) {
    && size % 2 == 0 && level < size / 2 && |table| == size && table[level] == table[size - 1 - level]
    && (level + 1 < size / 2 ==> table[level] <= table[level + 1])
  }

  lemma Rises16(level: nat)
    requires level < 2
    ensures Rises(TablesOf(Rate16).witab, level, 4) && Rises(TablesOf(Rate16).fitab, level, 4)
  {
  }

  lemma Rises24(level: nat)
    requires level < 4
    ensures Rises(TablesOf(Rate24).witab, level, 8) && Rises(TablesOf(Rate24).fitab, level, 8)
  {
  }

  lemma Rises32(level: nat)
    requires level < 8
    ensures Rises(TablesOf(Rate32).witab, level, 16) && Rises(TablesOf(Rate32).fitab, level, 16)
  {
  }

  lemma WiRises40(level: nat)
    requires level < 16
    ensures Rises(TablesOf(Rate40).witab, level, 32)
  {
  }

  lemma FiRises40(level: nat)
    requires level < 16
    ensures Rises(TablesOf(Rate40).fitab, level, 32)
  {
  }

  lemma AllRise(rate: Rate, level: nat)
    requires level < Codes(rate) / 2
    ensures Rises(TablesOf(rate).witab, level, Codes(rate)) && Rises(TablesOf(rate).fitab, level, Codes(rate))
  {
    hide TablesOf, Rises;
    match rate {
      case Rate16 => Rises16(level);
      case Rate24 => Rises24(level);
      case Rate32 => Rises32(level);
      case Rate40 =>
        WiRises40(level);
        FiRises40(level);
    }
  }

  lemma {:induction false} LevelsRise(rate: Rate, i: nat, j: nat)
    requires i <= j < Codes(rate) / 2
    ensures Wi(rate, i) <= Wi(rate, j) && Fi(rate, i) <= Fi(rate, j)
    decreases j - i
  {
    hide TablesOf;
    if i < j {
      LevelsRise(rate, i, j - 1);
      AllRise(rate, j - 1);
    }
  }

  /** The larger the level of a code, the more it raises the scale factor and the speed of adaptation. */
  lemma LargerRaises(rate: Rate, i: nat, j: nat)
    requires i < Codes(rate) && j < Codes(rate) && LevelOf(rate, i) <= LevelOf(rate, j)
    ensures Wi(rate, i) <= Wi(rate, j) && Fi(rate, i) <= Fi(rate, j)
  {
    hide TablesOf;
    LevelsRise(rate, LevelOf(rate, i), LevelOf(rate, j));
    AllRise(rate, LevelOf(rate, i));
    AllRise(rate, LevelOf(rate, j));
  }

  /** Each of the averages lies between what it was and what it follows. */
  lemma AveragesFollow(yl: int, yu: int, dms: int, dml: int, fi: int)
    ensures Min(yl, 64 * yu) <= NextYl(yl, yu) <= Max(yl, 64 * yu)
    ensures Min(dms, fi) <= NextDms(dms, fi) <= Max(dms, fi)
    ensures Min(dml, 4 * fi) <= NextDml(dml, fi) <= Max(dml, 4 * fi)
  {
  }

  lemma YuFollows(y: int, wi: int)
    requires 544 <= y <= 5120 && -0x8000 <= wi <= 40000
    ensures Min(y, Max(wi, 544)) <= NextYu(y, wi) <= Max(y, Min(wi, 5120))
  {
  }

  lemma YuMonotone(y: int, w1: int, w2: int)
    requires 544 <= y <= 5120 && -0x8000 <= w1 <= w2 <= 40000
    ensures NextYu(y, w1) <= NextYu(y, w2)
  {
  }

  /** The speed rises towards 512 if the step is small, there is a tone, or its averages differ; or else falls to 0. */
  lemma SpeedFollows(ap: int, y: int, td: bool, dms: int, dml: int)
    requires 0 <= ap <= 512
    ensures var quick := y < 1536 || td || Abs(4 * dms - dml) >= dml / 8;
      var r := NextAp(ap, false, y, td, dms, dml);
      && (quick ==> ap <= r <= 512 && (ap <= 496 ==> ap < r))
      && (!quick ==> 0 <= r <= ap && (ap > 0 ==> r < ap))
  {
  }

  lemma WiFits(rate: Rate, level: nat)
    requires level < Codes(rate)
    ensures -0x8000 <= Wi(rate, level) <= 40000
  {
    hide TablesOf;
    match rate {
      case Rate16 => Wi16(level);
      case Rate24 => Wi24(level);
      case Rate32 => Wi32(level);
      case Rate40 => Wi40(level);
    }
  }

  lemma Wi16(code: nat)
    requires code < 4
    ensures -0x8000 <= Wi(Rate16, code) <= 40000
  {
  }

  lemma Wi24(code: nat)
    requires code < 8
    ensures -0x8000 <= Wi(Rate24, code) <= 40000
  {
  }

  lemma Wi32(code: nat)
    requires code < 16
    ensures -0x8000 <= Wi(Rate32, code) <= 40000
  {
  }

  lemma Wi40(code: nat)
    requires code < 32
    ensures -0x8000 <= Wi(Rate40, code) <= 40000
  {
  }

  /** From one state, the code of a larger level leads to scale factors and averages that are no smaller. */
  lemma ScaleFollows(rate: Rate, s: State, i: nat, j: nat)
    requires s.Valid() && i < Codes(rate) && j < Codes(rate) && LevelOf(rate, i) <= LevelOf(rate, j)
    ensures var (p, q) := (Adapted(rate, s, i), Adapted(rate, s, j));
      p.yu <= q.yu && p.yl <= q.yl && p.dms <= q.dms && p.dml <= q.dml
  {
    hide TablesOf, LevelOf, NextYu, NextPoles, NextZeros, NextAp, Transition, FloatA, FloatB, Signal, Reconstruct,
      PredictorZero, Estimate, StepSize, Adapted;
    LargerRaises(rate, i, j);
    WiFits(rate, i);
    WiFits(rate, j);
    YuMonotone(StepSize(s), Wi(rate, i), Wi(rate, j));
    AdaptedScale(rate, s, i);
    AdaptedScale(rate, s, j);
  }

  lemma AdaptedScale(rate: Rate, s: State, code: nat)
    requires s.Valid() && code < Codes(rate)
    ensures var r := Adapted(rate, s, code);
      && r.yu == NextYu(StepSize(s), Wi(rate, code)) && r.yl == NextYl(s.yl, r.yu)
      && r.dms == NextDms(s.dms, Fi(rate, code)) && r.dml == NextDml(s.dml, Fi(rate, code))
  {
    hide TablesOf, NextYu, NextYl, NextDms, NextDml, NextPoles, NextZeros, NextAp, Transition, FloatA, FloatB, Signal,
      Reconstruct, PredictorZero, Estimate, StepSize;
  }

  // ----- the floating form of a number

  /** The format gives zero the magnitude one half. Doubled, to stay an integer: */
  function Twice(mag: nat): nat {
    if mag == 0 then 1 else 2 * mag
  }

  /** A mantissa of 6 bits, the first of them set, and what it leaves out. */
  predicate Mantissa(m: nat, e: nat, mag: nat) {
    32 <= m < 64 && m * Pow2(e) <= 32 * Twice(mag) < (m + 1) * Pow2(e)
  }

  /** f is the floating form of a sign and a magnitude. */
  predicate Represents(f: int, negative: bool, mag: nat) {
    (f < 0) == negative && Mantissa(f % 64, (f / 64) % 16, mag)
  }

  lemma MantissaOf(mag: nat)
    requires 0 < mag
    ensures TopBit(mag) >= 0 && Mantissa(ShrNat(mag * 64, TopBit(mag) + 1), TopBit(mag) + 1, mag)
  {
    hide ShrNat;
    var e := TopBit(mag) + 1;
    TopBitBounds(mag);
    assert Pow2(e) == 2 * Pow2(TopBit(mag));
    ShrBounds(mag * 64, e);
    Between(ShrNat(mag * 64, e), Pow2(e), mag);
  }

  lemma Between(m: nat, p: nat, mag: nat)
    requires p * m <= mag * 64 < p * m + p && p <= 2 * mag < 2 * p
    ensures 32 <= m < 64 && m * p <= 32 * (2 * mag) < (m + 1) * p
  {
    assert m * p == p * m && (m + 1) * p == p * m + p;
    if m < 32 {
      Order(p, m + 1, 32);
      assert false;
    } else if m >= 64 {
      Order(p, 64, m);
      assert false;
    }
  }

  lemma Order(p: nat, a: nat, b: nat)
    requires a <= b
    ensures p * a <= p * b
  {
  }

  lemma {:induction false} TopBitBelow(x: nat, n: nat)
    requires x < Pow2(n)
    ensures TopBit(x) < n
  {
    if n > 0 {
      TopBitBelow(x / 2, n - 1);
    }
  }

  /** FLOAT, of either kind. */
  lemma FloatIs(mag: nat)
    requires 0 < mag < 0x8000
    ensures 96 <= FloatMagnitude(mag) < 1024
    ensures Represents(FloatMagnitude(mag), false, mag) && Represents(FloatMagnitude(mag) - 0x400, true, mag)
  {
    hide ShrNat, Pow2, TopBit, Mantissa;
    MantissaOf(mag);
    assert Pow2(15) == 0x8000 by {
      Pow2Of15();
    }
    TopBitBelow(mag, 15);
    MantissaFits(ShrNat(mag * 64, TopBit(mag) + 1), TopBit(mag) + 1, mag);
    Fields(ShrNat(mag * 64, TopBit(mag) + 1), TopBit(mag) + 1);
  }

  lemma Pow2Of15()
    ensures Pow2(15) == 0x8000
  {
    assert Pow2(5) == 32;
    assert Pow2(10) == 1024;
  }

  lemma MantissaFits(m: nat, e: nat, mag: nat)
    requires Mantissa(m, e, mag)
    ensures 32 <= m < 64
  {
  }

  lemma Fields(m: nat, e: nat)
    requires 32 <= m < 64 && 1 <= e <= 15
    ensures (e * 64 + m) % 64 == m && ((e * 64 + m) / 64) % 16 == e
    ensures (e * 64 + m - 0x400) % 64 == m && ((e * 64 + m - 0x400) / 64) % 16 == e
  {
  }

  lemma ZeroIs()
    ensures Represents(0x20, false, 0) && Represents(-992, true, 0) && Int16(0xFC20) == -992
  {
    Halves();
    hide Mantissa;
  }

  lemma Halves()
    ensures Mantissa(32, 0, 0)
  {
  }

  /** The difference, whose sign is bit 15. */
  lemma FloatAIs(dq: int)
    requires IsInt16(dq)
    ensures Represents(FloatA(dq), dq < 0, dq % 0x8000)
  {
    hide FloatMagnitude, Represents;
    ZeroIs();
    if dq % 0x8000 > 0 {
      FloatIs(dq % 0x8000);
    }
  }

  /** The reconstructed signal, except for -0x8000, which is stored as zero. */
  lemma FloatBIs(sr: int)
    requires IsInt16(sr)
    ensures Represents(FloatB(sr), sr < 0, if sr == -0x8000 then 0 else Abs(sr))
  {
    hide FloatMagnitude, Represents;
    ZeroIs();
    if 0 < Abs(sr) < 0x8000 {
      FloatIs(Abs(sr));
    }
  }

  // ----- the product of a coefficient and a floating number

  /** The mantissa that fmult gives a coefficient. */
  function Significand(mag: nat): int {
    if mag == 0 then 32
    else if TopBit(mag) >= 5 then ShrNat(mag, TopBit(mag) - 5)
    else mag * Pow2(5 - TopBit(mag))
  }

  lemma SignificandIs(mag: nat)
    ensures TopBit(mag) >= -1 && Significand(mag) >= 0 && Mantissa(Significand(mag), TopBit(mag) + 1, mag)
  {
    hide ShrNat, Pow2, Mantissa, TopBit;
    if mag == 0 {
      Halves();
      NoTopBit();
    } else {
      TopBitBounds(mag);
      if TopBit(mag) >= 5 {
        LargeIs(mag, TopBit(mag) - 5);
      } else {
        SmallIs(mag, TopBit(mag));
      }
    }
  }

  lemma NoTopBit()
    ensures TopBit(0) == -1
  {
  }

  lemma LargeIs(mag: nat, n: nat)
    requires Pow2(n + 5) <= mag < 2 * Pow2(n + 5)
    ensures Mantissa(ShrNat(mag, n), n + 6, mag)
  {
    hide ShrNat, Pow2, Mantissa;
    Pow2Add(n, 6);
    Pow2Of6();
    ShrBounds(mag, n);
    Scaled64(ShrNat(mag, n), Pow2(n), Pow2(n + 6), mag);
    BetweenIs(ShrNat(mag, n), n + 6, mag);
  }

  lemma SmallIs(mag: nat, t: nat)
    requires t < 5 && Pow2(t) <= mag < 2 * Pow2(t)
    ensures Mantissa(mag * Pow2(5 - t), t + 1, mag)
  {
    hide Pow2, Mantissa;
    Pow2Add(5 - t, t + 1);
    Pow2Of6();
    Exactly(mag, Pow2(5 - t), Pow2(t + 1));
    BetweenIs(mag * Pow2(5 - t), t + 1, mag);
  }

  lemma Pow2Of6()
    ensures Pow2(6) == 64
  {
  }

  lemma Scaled64(m: nat, p: nat, q: nat, mag: nat)
    requires p * m <= mag < p * m + p && q == p * 64
    ensures q * m <= mag * 64 < q * m + q
  {
    assert q * m == (p * m) * 64;
  }

  lemma Exactly(mag: nat, p: nat, q: nat)
    requires p * q == 64 && q > 0
    ensures q * (mag * p) <= mag * 64 < q * (mag * p) + q
  {
    assert q * (mag * p) == mag * (p * q);
  }

  lemma BetweenIs(m: nat, e: nat, mag: nat)
    requires e > 0 && 0 < mag && Pow2(e - 1) <= mag < 2 * Pow2(e - 1)
    requires Pow2(e) * m <= mag * 64 < Pow2(e) * m + Pow2(e)
    ensures Mantissa(m, e, mag)
  {
    Between(m, Pow2(e), mag);
  }

  /** W * 2^(n - 19), rounded down. */
  function Placed(w: nat, n: nat): int {
    if n >= 19 then w * Pow2(n - 19) else Shr(w, 19 - n)
  }

  lemma PlacedIs(w: nat, n: nat)
    ensures Placed(w, n) * Pow2(19) <= w * Pow2(n) < (Placed(w, n) + 1) * Pow2(19)
  {
    hide Pow2, Shr;
    if n >= 19 {
      Pow2Add(n - 19, 19);
      Grown(w, Pow2(n - 19), Pow2(19), Pow2(n));
    } else {
      Pow2Add(19 - n, n);
      ShrBounds(w, 19 - n);
      Widened(Shr(w, 19 - n), Pow2(19 - n), w, Pow2(n), Pow2(19));
    }
  }

  lemma Grown(w: nat, p: nat, q: nat, pq: nat)
    requires pq == p * q && q > 0
    ensures (w * p) * q <= w * pq < (w * p + 1) * q
  {
    assert (w * p) * q == w * (p * q);
    assert (w * p + 1) * q == (w * p) * q + q;
  }

  lemma Widened(r: int, p: nat, w: int, q: nat, pq: nat)
    requires p * r <= w < p * r + p && pq == p * q && q > 0
    ensures r * pq <= w * q < (r + 1) * pq
  {
    assert r * (p * q) == (p * r) * q;
    assert (r + 1) * (p * q) == (p * r + p) * q;
    Order2(p * r, w, q);
    Order2(w + 1, p * r + p, q);
    assert (w + 1) * q == w * q + q;
  }

  lemma Order2(a: int, b: int, q: nat)
    requires a <= b
    ensures a * q <= b * q
  {
    assert (b - a) * q >= 0;
  }

  /** The rounded product of two 6-bit mantissas. */
  function Significands(m: nat, n: nat): nat {
    (m * n + 0x30) / 16
  }

  /** What fmult computes from the two mantissas and exponents. */
  lemma FmultIs(an: int, f: int)
    requires -0x2000 < an < 0x2000
    ensures Significand(Abs(an)) >= 0 && TopBit(Abs(an)) >= -1
    ensures var r := Placed(Significands(Significand(Abs(an)), f % 64), TopBit(Abs(an)) + 1 + (f / 64) % 16);
      0 <= r < 0x8000 ==> Fmult(an, f) == if (an < 0) != (f < 0) then -r else r
  {
    hide Pow2, Shr, ShrNat, TopBit, Mantissa, Int16;
    SignificandIs(Abs(an));
    MagnitudeOf(an);
  }

  lemma MagnitudeOf(an: int)
    requires -0x2000 < an < 0x2000
    ensures Int16(if an > 0 then an else (-an) % 0x2000) == Abs(an)
  {
  }

  lemma MulOrder(a: nat, b: nat, x: nat, y: nat)
    requires a <= x && b <= y
    ensures a * b <= x * y
  {
    Order(a, b, y);
    Order(y, a, x);
  }

  lemma AtLeast(m: nat, p: nat, n: nat, q: nat, x: nat, y: nat)
    requires m * p <= x && n * q <= y
    ensures (m * n) * (p * q) <= x * y
  {
    MulOrder(m * p, n * q, x, y);
    Rearranged(m, p, n, q);
  }

  lemma AtMost(m: nat, p: nat, n: nat, q: nat, x: nat, y: nat)
    requires x <= m * p && y <= n * q
    ensures x * y <= (m * n) * (p * q)
  {
    MulOrder(x, y, m * p, n * q);
    Rearranged(m, p, n, q);
  }

  /** What two mantissas of 6 bits leave out of a product. */
  lemma Products(m: nat, p: nat, n: nat, q: nat, x: nat, y: nat)
    requires 32 <= m < 64 && 32 <= n < 64 && m * p <= x < (m + 1) * p && n * q <= y < (n + 1) * q
    ensures (m * n) * (p * q) <= x * y <= (m * n) * (p * q) + 127 * (p * q) && 1024 * (p * q) <= x * y
  {
    AtLeast(m, p, n, q, x, y);
    AtMost(m + 1, p, n + 1, q, x, y);
    MulOrder(32, 32, m, n);
    Expanded(m, n);
    Collected(m * n, (m + 1) * (n + 1), p * q, x * y);
  }

  lemma Collected(k: nat, l: nat, pq: nat, z: nat)
    requires 1024 <= k && l <= k + 127 && k * pq <= z <= l * pq
    ensures z <= k * pq + 127 * pq && 1024 * pq <= z
  {
    Order2(l, k + 127, pq);
    Order2(1024, k, pq);
    Distributed(k, 127, pq);
  }

  lemma Rearranged(m: nat, p: nat, n: nat, q: nat)
    ensures (m * p) * (n * q) == (m * n) * (p * q)
  {
    assert (m * p) * (n * q) == m * (p * (n * q));
    assert p * (n * q) == n * (p * q);
    assert m * (n * (p * q)) == (m * n) * (p * q);
  }

  lemma Expanded(m: nat, n: nat)
    requires m < 64 && n < 64
    ensures (m + 1) * (n + 1) <= m * n + 127
  {
  }

  lemma Distributed(a: int, b: int, c: int)
    ensures (a + b) * c == a * c + b * c
  {
  }

  lemma RoundedNear(k: nat, w: nat, pq: nat, z: nat, r: int)
    requires w == (k + 0x30) / 16 && r * 0x8_0000 <= w * pq < (r + 1) * 0x8_0000
    requires k * pq <= z <= k * pq + 127 * pq && 1024 * pq <= z
    ensures 0x80_0000 * 1024 * r <= 1072 * z && 930 * z < 0x80_0000 * 1024 * (r + 1)
  {
    Order2(16 * w, k + 48, pq);
    Order2(k + 33, 16 * w, pq);
    Distributed(k, 48, pq);
    Distributed(k, 33, pq);
    assert (16 * w) * pq == 16 * (w * pq);
    hide *;
  }

  /**
   * fmult is the product of a coefficient and a floating number, over 2^11, from 9.2% less to 4.7% more, and up to one
   * unit, as long as it fits; both factors count as one half if they are zero.
   */
  lemma FmultNear(an: int, f: int, negative: bool, mag: nat)
    requires -0x2000 < an < 0x2000 && Represents(f, negative, mag)
    requires 67 * (Twice(Abs(an)) * Twice(mag)) < 0x4_0000_0000
    ensures var (r, z) := (Abs(Fmult(an, f)), Twice(Abs(an)) * Twice(mag));
      0x8_0000 * r <= 67 * z && 930 * z < 0x80_0000 * (r + 1)
    ensures if (an < 0) != negative then Fmult(an, f) <= 0 else Fmult(an, f) >= 0
  {
    hide Fmult, Significand, Twice, TopBit, Pow2, Placed, Significands;
    SignificandIs(Abs(an));
    FmultIs(an, f);
    var a, t, n, g := Significand(Abs(an)), TopBit(Abs(an)) + 1, f % 64, (f / 64) % 16;
    var r := Placed(Significands(a, n), t + g);
    PlacedNear(a, t, Abs(an), n, g, mag);
    assert 0x8_0000 * r < 0x4_0000_0000;
  }

  lemma PlacedNear(a: nat, t: nat, m: nat, n: nat, g: nat, mag: nat)
    requires Mantissa(a, t, m) && Mantissa(n, g, mag)
    ensures var (r, z) := (Placed(Significands(a, n), t + g), Twice(m) * Twice(mag));
      0x8_0000 * r <= 67 * z && 930 * z < 0x80_0000 * (r + 1) && r >= 0
  {
    hide Pow2, Placed, Twice;
    Pow2Add(t, g);
    Pow2Of19();
    var w := Significands(a, n);
    PlacedIs(w, t + g);
    FromParts(a, Pow2(t), n, Pow2(g), Pow2(t + g), Twice(m), Twice(mag), w, Placed(w, t + g));
  }

  lemma FromParts(a: nat, p: nat, n: nat, q: nat, pq: nat, x: nat, y: nat, w: nat, r: int)
    requires 32 <= a < 64 && 32 <= n < 64 && pq == p * q && w == (a * n + 0x30) / 16
    requires a * p <= 32 * x < (a + 1) * p && n * q <= 32 * y < (n + 1) * q
    requires r * 0x8_0000 <= w * pq < (r + 1) * 0x8_0000
    ensures 0x8_0000 * r <= 67 * (x * y) && 930 * (x * y) < 0x80_0000 * (r + 1) && r >= 0
  {
    Products(a, p, n, q, 32 * x, 32 * y);
    var k, z := a * n, (32 * x) * (32 * y);
    assert k * pq <= z <= k * pq + 127 * pq && 1024 * pq <= z;
    RoundedNear(k, w, pq, z, r);
    Reduced(x, y, z, r);
  }

  lemma Reduced(x: nat, y: nat, z: int, r: int)
    requires z == (32 * x) * (32 * y) && 0x80_0000 * 1024 * r <= 1072 * z && 930 * z < 0x80_0000 * 1024 * (r + 1)
    ensures 0x8_0000 * r <= 67 * (x * y) && 930 * (x * y) < 0x80_0000 * (r + 1) && r >= 0
  {
    assert z == 1024 * (x * y);
    assert x * y >= 0;
  }

  lemma Pow2Of19()
    ensures Pow2(19) == 0x8_0000
  {
    Pow2Of15();
    assert Pow2(19) == 16 * Pow2(15);
  }

  // ----- the prediction

  /** f is the floating form of x; zero has one of each sign. */
  predicate Stands(f: int, x: int) {
    Represents(f, f < 0, Abs(x)) && (x > 0 ==> f >= 0) && (x < 0 ==> f < 0)
  }

  /** The product can be held in 15 bits, once it is divided by 2^11. */
  predicate Fits(an: int, x: int) {
    -0x2000 < an < 0x2000 && Abs(x) < 0x8000 && Abs(an * x) <= 64_000_000
  }

  /** A product is 2^11 times too small, and otherwise right up to 9.2% and nine units. */
  predicate Near(r: int, x: int, slack: int, units: nat) {
    1024 * Abs(0x800 * r - x) <= 94 * slack + units * 0x20_0000
  }

  lemma TermNear(an: int, f: int, x: int)
    requires Stands(f, x) && Fits(an, x)
    ensures Near(Fmult(an, f), an * x, Abs(an * x), 9)
  {
    hide Fmult, Represents;
    assert Twice(Abs(an)) * Twice(Abs(x)) ==
      if an == 0 then Twice(Abs(x)) else if x == 0 then Twice(Abs(an)) else 4 * Abs(an * x) by {
      hide *;
      TwiceProduct(an, x);
    }
    FmultNear(an, f, f < 0, Abs(x));
    SignOf(an, x);
  }

  lemma TwiceProduct(an: int, x: int)
    ensures Twice(Abs(an)) * Twice(Abs(x)) ==
      if an == 0 then Twice(Abs(x)) else if x == 0 then Twice(Abs(an)) else 4 * Abs(an * x)
  {
    if an != 0 && x != 0 {
      assert (2 * Abs(an)) * (2 * Abs(x)) == 4 * (Abs(an) * Abs(x));
      SignOf(an, x);
    }
  }

  lemma SignOf(an: int, x: int)
    ensures Abs(an * x) == Abs(an) * Abs(x)
    ensures (an < 0) != (x < 0) ==> an * x <= 0
    ensures (an < 0) == (x < 0) ==> an * x >= 0
  {
    if an < 0 {
      assert an * x == -((-an) * x);
    }
    if x < 0 {
      assert an * x == -(an * (-x));
      assert Abs(an) * x == -(Abs(an) * (-x));
    }
  }

  /** The filter with these coefficients, of which fmult takes a quarter, on past signals. */
  function Filter(c: seq<int>, x: seq<int>): int
    requires |c| == |x|
  {
    if c == [] then 0 else Filter(c[..|c| - 1], x[..|x| - 1]) + (c[|c| - 1] / 4) * x[|x| - 1]
  }

  /** The same, with every term positive. */
  function Terms(c: seq<int>, x: seq<int>): nat
    requires |c| == |x|
  {
    if c == [] then 0 else Terms(c[..|c| - 1], x[..|x| - 1]) + Abs((c[|c| - 1] / 4) * x[|x| - 1])
  }

  predicate AllStand(f: seq<int>, c: seq<int>, x: seq<int>) {
    |f| == |c| == |x| && forall i :: 0 <= i < |x| ==> Stands(f[i], x[i]) && Fits(c[i] / 4, x[i])
  }

  lemma {:induction false} SumNear(c: seq<int>, f: seq<int>, x: seq<int>)
    requires AllStand(f, c, x)
    ensures Near(ZeroSum(c, f), Filter(c, x), Terms(c, x), 9 * |c|)
    decreases |c|
  {
    hide Stands, Fits, Fmult;
    if c != [] {
      var n := |c| - 1;
      SumNear(c[..n], f[..n], x[..n]);
      TermNear(c[n] / 4, f[n], x[n]);
    }
  }

  lemma PolesAreTwo(s: State)
    requires s.Valid()
    ensures ZeroSum(s.a, s.sr) == Fmult(s.a[0] / 4, s.sr[0]) + Fmult(s.a[1] / 4, s.sr[1])
  {
    hide Fmult;
    assert s.a[..1] == [s.a[0]] && s.sr[..1] == [s.sr[0]];
    assert ZeroSum([s.a[0]], [s.sr[0]]) == ZeroSum([], []) + Fmult(s.a[0] / 4, s.sr[0]) by {
      assert [s.a[0]][..0] == [] && [s.sr[0]][..0] == [];
    }
  }

  /**
   * The signal estimate is that of the filter with poles a and zeros b on the reconstructed signals and the
   * differences that the state remembers, as long as the sums fit int16_t: up to 9.2% of the terms, and 73 / 2 units.
   */
  lemma EstimateNear(s: State, dqs: seq<int>, srs: seq<int>)
    requires s.Valid() && AllStand(s.dq, s.b, dqs) && AllStand(s.sr, s.a, srs)
    requires IsInt16(ZeroSum(s.b, s.dq)) && IsInt16(ZeroSum(s.a, s.sr))
    requires IsInt16(ZeroSum(s.b, s.dq) + ZeroSum(s.a, s.sr))
    ensures Near(2 * Estimate(s), Filter(s.b, dqs) + Filter(s.a, srs), Terms(s.b, dqs) + Terms(s.a, srs), 73)
  {
    SumNear(s.b, s.dq, dqs);
    SumNear(s.a, s.sr, srs);
    PolesAreTwo(s);
    hide AllStand, ZeroSum, Fmult, Filter, Terms;
  }

  // ----- the past

  /** What the state remembers of the codes before the last n: the signal, or the difference, of the next one back. */
  function PastSignal(rate: Rate, codes: seq<nat>, n: nat): (x: int)
    requires forall i :: 0 <= i < |codes| ==> codes[i] < Codes(rate)
    ensures IsInt16(x)
  {
    if n >= |codes| then 0
    else
      var last := |codes| - 1 - n;
      Signal(rate, StateAfter(rate, codes[..last]), codes[last])
  }

  function PastDifference(rate: Rate, codes: seq<nat>, n: nat): (x: int)
    requires forall i :: 0 <= i < |codes| ==> codes[i] < Codes(rate)
    ensures IsInt16(x)
  {
    if n >= |codes| then 0
    else
      var last := |codes| - 1 - n;
      Reconstruct(rate, codes[last], StepSize(StateAfter(rate, codes[..last])))
  }

  /** What is n + 1 codes back was n codes back before the last code, and the latest is that of the last code. */
  lemma Earlier(rate: Rate, codes: seq<nat>, n: nat)
    requires codes != [] && forall i :: 0 <= i < |codes| ==> codes[i] < Codes(rate)
    ensures var past, code := codes[..|codes| - 1], codes[|codes| - 1];
      && PastSignal(rate, codes, n) == (if n > 0 then PastSignal(rate, past, n - 1)
                                        else Signal(rate, StateAfter(rate, past), code))
      && PastDifference(rate, codes, n) == (if n > 0 then PastDifference(rate, past, n - 1)
                                            else Reconstruct(rate, code, StepSize(StateAfter(rate, past))))
  {
    hide StateAfter, Signal, Reconstruct, StepSize;
    if 0 < n < |codes| {
      assert codes[..|codes| - 1][..|codes| - 1 - n] == codes[..|codes| - 1 - n];
    }
  }

  /** After any codes the state holds, in floating form, the last two signals and the last six differences. */
  lemma {:induction false} Remembers(rate: Rate, codes: seq<nat>, n: nat)
    requires forall i :: 0 <= i < |codes| ==> codes[i] < Codes(rate)
    ensures var s := StateAfter(rate, codes);
      && (n < 2 ==> s.sr[n] == FloatB(PastSignal(rate, codes, n)))
      && (n < 6 ==> s.dq[n] == FloatA(PastDifference(rate, codes, n)))
    decreases |codes|
  {
    hide Adapted, Reconstruct, Signal, StepSize, PastSignal, PastDifference, FloatA, FloatB;
    if codes == [] {
      NoPast(rate, n);
    } else {
      var past, code := codes[..|codes| - 1], codes[|codes| - 1];
      AdaptedPast(rate, StateAfter(rate, past), code);
      Earlier(rate, codes, n);
      if n > 0 {
        Remembers(rate, past, n - 1);
      }
    }
  }

  lemma NoPast(rate: Rate, n: nat)
    ensures FloatB(PastSignal(rate, [], n)) == FloatA(PastDifference(rate, [], n)) == 32
  {
    hide Signal, Reconstruct, StateAfter, StepSize, FloatMagnitude;
  }

  lemma AdaptedPast(rate: Rate, s: State, code: nat)
    requires s.Valid() && code < Codes(rate)
    ensures var r := Adapted(rate, s, code);
      && r.sr == [FloatB(Signal(rate, s, code)), s.sr[0]]
      && r.dq == [FloatA(Reconstruct(rate, code, StepSize(s)))] + s.dq[..5]
  {
    hide TablesOf, NextYu, NextYl, NextDms, NextDml, NextPoles, NextZeros, NextAp, Transition, FloatA, FloatB, Signal,
      Reconstruct, PredictorZero, Estimate, StepSize;
  }

  // ----- the zeros and the poles

  function Decay(rate: Rate, b: int): int {
    b - b / (if rate == Rate40 then 512 else 256)
  }

  function Decayed(rate: Rate, b: seq<int>): (r: seq<int>)
    ensures |r| == |b|
  {
    seq(|b|, i requires 0 <= i < |b| => Decay(rate, b[i]))
  }

  function Magnitudes(x: seq<int>): nat {
    if x == [] then 0 else Magnitudes(x[..|x| - 1]) + Abs(x[|x| - 1])
  }

  /** The sign that a difference signal carries in bit 15; a magnitude of zero has none. */
  function Direction(dq: int): int {
    if dq % 0x8000 == 0 then 0 else if dq < 0 then -1 else 1
  }

  /** A coefficient that the int16_t field can still move. */
  predicate Movable(rate: Rate, b: int) {
    -0x7F80 <= Decay(rate, b) <= 0x7F7F
  }

  lemma ZeroMoves(rate: Rate, b: int, dq: int, f: int, x: int)
    requires Movable(rate, b) && Stands(f, x)
    ensures (NextB(rate, b, dq, f) / 4 - Decay(rate, b) / 4) * x == 32 * Direction(dq) * Abs(x)
  {
    hide Represents;
    ZeroStep(rate, b, dq, f);
    var move := NextB(rate, b, dq, f) / 4 - Decay(rate, b) / 4;
    hide NextB, Decay;
    if x != 0 {
      assert (f < 0) == (x < 0);
      assert move == if (dq < 0) == (x < 0) then 32 * Abs(Direction(dq)) else -32 * Abs(Direction(dq));
    }
  }

  lemma ZeroStep(rate: Rate, b: int, dq: int, f: int)
    requires Movable(rate, b)
    ensures NextB(rate, b, dq, f) / 4 - Decay(rate, b) / 4
         == if Direction(dq) == 0 then 0 else if (dq < 0) == (f < 0) then 32 else -32
  {
  }

  /**
   * The zeros are adapted towards the new difference: on the past differences the filter would now predict 32 times
   * the sum of their magnitudes more than the decayed coefficients do if it was positive, and less if negative.
   */
  lemma {:induction false} ZerosFollow(rate: Rate, b: seq<int>, dq: int, f: seq<int>, x: seq<int>)
    requires |b| == |f| == |x|
    requires forall i :: 0 <= i < |b| ==> Movable(rate, b[i]) && Stands(f[i], x[i])
    ensures Filter(NextZeros(rate, b, dq, f), x)
         == Filter(Decayed(rate, b), x) + 32 * Direction(dq) * Magnitudes(x)
    decreases |b|
  {
    hide NextB, Decay, Decayed, Direction, Movable, Stands, Abs, NextZeros, Filter, Magnitudes;
    if b == [] {
      NoTerms(NextZeros(rate, b, dq, f), Decayed(rate, b), x);
    } else {
      var n := |b| - 1;
      ZerosFollow(rate, b[..n], dq, f[..n], x[..n]);
      ZeroMoves(rate, b[n], dq, f[n], x[n]);
      LastZero(rate, b, dq, f);
      LastTerm(NextZeros(rate, b, dq, f), x);
      LastTerm(Decayed(rate, b), x);
      OneMore(NextB(rate, b[n], dq, f[n]) / 4, Decay(rate, b[n]) / 4, x[n], 32 * Direction(dq), Abs(x[n]),
              Magnitudes(x[..n]));
    }
  }

  lemma NoTerms(c: seq<int>, d: seq<int>, x: seq<int>)
    requires c == d == x == []
    ensures Filter(c, x) == Filter(d, x) == Magnitudes(x) == 0
  {
  }

  lemma LastTerm(c: seq<int>, x: seq<int>)
    requires |c| == |x| > 0
    ensures var n := |c| - 1;
      Filter(c, x) == Filter(c[..n], x[..n]) + (c[n] / 4) * x[n] && Magnitudes(x) == Magnitudes(x[..n]) + Abs(x[n])
  {
  }

  lemma LastZero(rate: Rate, b: seq<int>, dq: int, f: seq<int>)
    requires |b| == |f| > 0
    ensures var n := |b| - 1;
      && NextZeros(rate, b, dq, f)[..n] == NextZeros(rate, b[..n], dq, f[..n])
      && NextZeros(rate, b, dq, f)[n] == NextB(rate, b[n], dq, f[n])
      && Decayed(rate, b)[..n] == Decayed(rate, b[..n]) && Decayed(rate, b)[n] == Decay(rate, b[n])
  {
    hide NextB, Decay;
  }

  lemma OneMore(x: int, y: int, d: int, k: int, m: int, rest: int)
    requires (x - y) * d == k * m
    ensures x * d + k * rest == y * d + k * (rest + m)
  {
  }

  /** If the partial signal keeps its sign, each pole's coefficient is higher than if not, unless it is limited. */
  lemma PolesFollow(a1: int, a2: int, a2p: int, dqsez: int, flip1: bool)
    requires dqsez != 0 && -12288 <= a2 <= 12288 && -12288 <= a2p <= 12288
    ensures var (up, down, limit) := (NextA1(a1, a2p, dqsez, false), NextA1(a1, a2p, dqsez, true), 15360 - a2p);
      -limit <= down <= up <= limit && (down < up || up == -limit || down == limit)
    ensures var (up, down) := (NextA2(a1, a2, dqsez, flip1, false), NextA2(a1, a2, dqsez, flip1, true));
      -12288 <= down <= up <= 12288 && (down < up || up == -12288 || down == 12288)
  {
  }

  /** As far as the first pole explains that the sign is kept, the second one need not. */
  lemma PolesShare(a1: int, a2: int, dqsez: int, flip2: bool)
    requires -12288 <= a2 <= 12288
    ensures a1 >= 0 ==> NextA2(a1, a2, dqsez, false, flip2) <= NextA2(a1, a2, dqsez, true, flip2)
    ensures a1 <= -32 ==> NextA2(a1, a2, dqsez, true, flip2) <= NextA2(a1, a2, dqsez, false, flip2)
  {
  }

  /** The partial signal, whose sign the poles follow, is the difference and what the zeros had predicted. */
  lemma PartialSignal(rate: Rate, s: State, code: nat)
    requires s.Valid() && code < Codes(rate)
    requires var m: int := Magnitude(rate, code, StepSize(s));
      var d := if Negative(rate, code) then -m else m;
      IsInt16(Estimate(s) + d) && IsInt16(d + PredictorZero(s) / 2)
    ensures var m: int := Magnitude(rate, code, StepSize(s));
      var d := if Negative(rate, code) then -m else m;
      Adapted(rate, s, code).pk == [d + PredictorZero(s) / 2 < 0, s.pk[0]]
  {
    hide TablesOf, NextYu, NextYl, NextDms, NextDml, NextPoles, NextZeros, NextAp, Transition, FloatA, FloatB,
      Reconstruct, Rebuilt, PredictorZero, Estimate, StepSize, Magnitude, Negative;
    RebuiltIsExact(rate, Estimate(s), code, StepSize(s));
  }

  /** A restart needs a tone, and a difference above a threshold that every scale factor leaves within reach. */
  lemma RestartsAbove(s: State, dq: int, larger: int)
    requires s.Valid() && dq % 0x8000 <= larger % 0x8000
    ensures Transition(s, dq) ==> s.td && Transition(s, larger) && dq % 0x8000 > 0
    ensures s.td ==> Transition(s, 0x7FFF)
  {
    hide Pow2;
    ThresholdFits(s.yl);
    hide Threshold;
  }

  lemma ThresholdFits(yl: int)
    requires 34816 <= yl <= 327680
    ensures 0 <= Threshold(yl) < 0x7FFF
  {
    assert Pow2(5) == 32 && Pow2(9) == 512;
    hide Pow2;
    var n := yl / 0x8000;
    if n <= 9 {
      Pow2Monotone(n, 9);
      ThresholdOf((yl / 0x400) % 0x20, Pow2(n));
    }
  }

  lemma ThresholdOf(f: nat, p: nat)
    requires f < 0x20 && p <= 512
    ensures var t := (32 + f) * p;
      0 <= t <= 63 * 512 && 0 <= (t + t / 2) / 2 < 0x6000
  {
    MulOrder(32 + f, p, 63, 512);
  }

  /** A restart forgets the filter, sets the speed in the middle, and ends the tone. */
  lemma Restarts(rate: Rate, s: State, code: nat)
    requires s.Valid() && code < Codes(rate) && Transition(s, Reconstruct(rate, code, StepSize(s)))
    ensures var r := Adapted(rate, s, code);
      r.a == [0, 0] && r.b == [0, 0, 0, 0, 0, 0] && r.ap == 256 && !r.td
  {
    hide TablesOf, NextYu, NextYl, NextDms, NextDml, NextZeros, Transition, FloatA, FloatB, Signal,
      Reconstruct, PredictorZero, Estimate, StepSize;
  }
}
