/** What adaptation in src/g722.c is for: the scale follows the signal, and the predictor follows its past. */
module G722Adaptation {
  import opened Arith
  import opened Bits
  import opened G722Band

  // ----- the scale factor

  /** What an index stands for, for a scale factor of 0x8000. */
  function Value(side: Side, index: nat): int
    requires index < Indices(side)
  {
    if side.LowBand? then QM4[index] else QM2[index]
  }

  /** The larger the difference that an index stands for, the more it raises the logarithm of the scale. */
  lemma LargerRaises(side: Side, i: nat, j: nat)
    requires i < Indices(side) && j < Indices(side) && Abs(Value(side, i)) <= Abs(Value(side, j))
    ensures ScaleStep(side, i) <= ScaleStep(side, j)
  {
    if side.LowBand? {
      LowRaises(i, j);
    }
  }

  lemma LowRaises(i: nat, j: nat)
    requires i < 16 && j < 16 && Abs(QM4[i]) <= Abs(QM4[j])
    ensures ScaleStep(LowBand, i) <= ScaleStep(LowBand, j)
  {
    LowStepIs(i);
    LowStepIs(j);
    hide QM4, WL, RL42, ScaleStep;
  }

  /** The eight steps by magnitude. */
  function LowStep(m: int): int {
    if m < 1200 then -60 else if m < 2584 then -30 else if m < 4240 then 58 else if m < 6288 then 172
    else if m < 8968 then 334 else if m < 12896 then 538 else if m < 20456 then 1198 else 3042
  }

  lemma LowStepIs(i: nat)
    requires i < 16
    ensures ScaleStep(LowBand, i) == LowStep(Abs(QM4[i]))
  {
  }

  /** Each mantissa is the one before, times the 32nd root of 2, up to one unit; the last is followed by 2 * 2048. */
  lemma EvenSteps(k: nat)
    requires k < 32
    ensures ILB[0] == 2048
    ensures var next := if k < 31 then ILB[k + 1] else 2 * ILB[0];
      ILB[k] < next && -1000000 <= next * 1000000 - ILB[k] * 1021897 <= 1000000
  {
  }

  lemma {:induction false} MantissasRise(j: nat, k: nat)
    requires j <= k < 32
    ensures ILB[j] <= ILB[k]
    decreases k - j
  {
    hide ILB;
    if j < k {
      MantissasRise(j, k - 1);
      EvenSteps(k - 1);
    }
  }

  /** The shift for logarithm zero. */
  function Most(side: Side): nat {
    if side.LowBand? then 8 else 10
  }

  lemma DetIs(side: Side, nb: nat)
    requires nb < NbLimit(side)
    ensures nb / 2048 <= Most(side) && |ILB| == 32 && 2048 <= ILB[(nb / 64) % 32] <= 4008
    ensures NextDet(side, nb) == 4 * ShrNat(ILB[(nb / 64) % 32], Most(side) - nb / 2048)
  {
    MantissaBounds((nb / 64) % 32);
    hide ILB, ShrNat;
    ShrShrinks(ILB[(nb / 64) % 32], Most(side) - nb / 2048);
  }

  lemma {:induction false} ShrMore(x: nat, m: nat, n: nat)
    requires m <= n
    ensures ShrNat(x, n) <= ShrNat(x, m)
    decreases m
  {
    if m == 0 {
      ShrShrinks(x, n);
    } else {
      ShrMore(x / 2, m - 1, n - 1);
    }
  }

  /** A larger mantissa, or any mantissa with a larger exponent. */
  lemma ShiftedRises(m1: nat, s1: nat, m2: nat, s2: nat)
    requires m1 < 4096 && ((s1 == s2 && m1 <= m2) || (s1 > s2 && m2 >= 2048))
    ensures ShrNat(m1, s1) <= ShrNat(m2, s2)
  {
    if s1 == s2 {
      ShrMonotone(m1, m2, s1);
    } else {
      assert ShrNat(m1, s1) == ShrNat(m1 / 2, s1 - 1);
      ShrMore(m1 / 2, s2, s1 - 1);
      ShrMonotone(m1 / 2, m2, s2);
    }
  }

  lemma DetRises(side: Side, nb1: nat, nb2: nat)
    requires nb1 <= nb2 <= NbLimit(side)
    ensures NextDet(side, nb1) <= NextDet(side, nb2)
  {
    DetInRange(side, nb1);
    if nb2 == NbLimit(side) {
      LargestDet(side);
      hide *;
    } else {
      DetIs(side, nb1);
      DetIs(side, nb2);
      hide ILB, ShrNat, NextDet;
      var k1, k2 := (nb1 / 64) % 32, (nb2 / 64) % 32;
      if nb1 / 2048 == nb2 / 2048 {
        SameExponent(nb1, nb2);
        MantissasRise(k1, k2);
      }
      ShiftedRises(ILB[k1], Most(side) - nb1 / 2048, ILB[k2], Most(side) - nb2 / 2048);
    }
  }

  lemma SameExponent(nb1: nat, nb2: nat)
    requires nb1 <= nb2 && nb1 / 2048 == nb2 / 2048
    ensures (nb1 / 64) % 32 <= (nb2 / 64) % 32
  {
    assert (nb1 / 64) / 32 == nb1 / 2048 && (nb2 / 64) / 32 == nb2 / 2048;
  }

  /** A 2048th of the logarithm doubles the scale factor, up to the bits that the shift drops. */
  lemma DetDoubles(side: Side, nb: nat)
    requires nb + 2048 < NbLimit(side)
    ensures 2 * NextDet(side, nb) <= NextDet(side, nb + 2048) <= 2 * NextDet(side, nb) + 4
  {
    hide *;
    DetIs(side, nb);
    DetIs(side, nb + 2048);
    NextOctave(nb);
    OneShiftLess(ILB[(nb / 64) % 32], Most(side) - nb / 2048 - 1);
  }

  lemma NextOctave(nb: nat)
    ensures ((nb + 2048) / 64) % 32 == (nb / 64) % 32 && (nb + 2048) / 2048 == nb / 2048 + 1
  {
    Digits(nb, nb / 2048, (nb / 64) % 32, nb % 64);
    Digits(nb + 2048, nb / 2048 + 1, (nb / 64) % 32, nb % 64);
  }

  lemma Digits(nb: nat, e: nat, k: nat, r: nat)
    requires k < 32 && r < 64
    ensures nb == 2048 * e + 64 * k + r ==> nb / 2048 == e && (nb / 64) % 32 == k
  {
    if nb == 2048 * e + 64 * k + r {
      assert nb / 64 == 32 * e + k;
    }
  }

  lemma {:induction false} OneShiftLess(x: nat, n: nat)
    ensures 2 * ShrNat(x, n + 1) <= ShrNat(x, n) <= 2 * ShrNat(x, n + 1) + 1
    decreases n
  {
    if n > 0 {
      OneShiftLess(x / 2, n - 1);
    }
  }

  /** From one band, the index of a larger difference leads to a scale factor that is no smaller. */
  lemma ScaleFollows(side: Side, s: Band, i: nat, j: nat)
    requires s.Valid(side) && i < Indices(side) && j < Indices(side) && Abs(Value(side, i)) <= Abs(Value(side, j))
    ensures Step(side, s, i).det <= Step(side, s, j).det && Step(side, s, i).nb <= Step(side, s, j).nb
  {
    hide ScaleStep, NextDet, Value, Step;
    LargerRaises(side, i, j);
    StepScale(side, s, i);
    StepScale(side, s, j);
    DetRises(side, NextNb(side, s.nb, i), NextNb(side, s.nb, j));
  }

  lemma StepScale(side: Side, s: Band, index: nat)
    requires s.Valid(side) && index < Indices(side)
    ensures Step(side, s, index).nb == NextNb(side, s.nb, index)
    ensures Step(side, s, index).det == NextDet(side, NextNb(side, s.nb, index))
  {
    hide NextNb, NextDet, NextA1, NextA2, NextZeros, ZeroSum, PoleSum, Difference, Sat16;
  }

  // ----- the zeros

  function Dot(b: seq<int>, d: seq<int>): int
    requires |b| == |d|
  {
    if b == [] then 0 else b[0] * d[0] + Dot(b[1..], d[1..])
  }

  function Decayed(b: seq<int>): (r: seq<int>)
    ensures |r| == |b|
  {
    seq(|b|, i requires 0 <= i < |b| => Scaled(b[i], 32640))
  }

  function Magnitudes(d: seq<int>): nat {
    if d == [] then 0 else Abs(d[0]) + Magnitudes(d[1..])
  }

  function Sign(x: int): int {
    if x > 0 then 1 else if x < 0 then -1 else 0
  }

  lemma DecayShrinks(a: int)
    requires IsInt16(a)
    ensures Scaled(a, 32640) == (a * 255) / 256 && Abs(Scaled(a, 32640)) <= Abs(a)
    ensures Abs(Scaled(a, 32640)) <= 32640
  {
    assert (a * 32640) / 0x8000 == (a * 255) / 256;
  }

  lemma ZeroStep(b: int, dx: int, past: int)
    requires IsInt16(b)
    ensures NextB(b, dx, past) - Scaled(b, 32640) == if dx == 0 then 0 else if (past < 0) != (dx < 0) then -128 else 128
  {
    DecayShrinks(b);
    hide Scaled;
  }

  /** One coefficient moves by 128 for each unit of the past difference, in the direction of the new one. */
  lemma ZeroMoves(b: int, dx: int, past: int)
    requires IsInt16(b)
    ensures (NextB(b, dx, past) - Scaled(b, 32640)) * past == 128 * Sign(dx) * Abs(past)
  {
    ZeroStep(b, dx, past);
    hide NextB, Scaled;
    Signed(NextB(b, dx, past) - Scaled(b, 32640), dx, past);
  }

  lemma Signed(move: int, dx: int, past: int)
    requires move == if dx == 0 then 0 else if (past < 0) != (dx < 0) then -128 else 128
    ensures move * past == 128 * Sign(dx) * Abs(past)
  {
    if dx == 0 {
    } else if dx > 0 {
      assert 128 * Sign(dx) == 128;
    } else {
      assert 128 * Sign(dx) == -128;
    }
  }

  /**
   * The zeros are adapted towards the new difference: on the past differences they would now predict, in place of what
   * the decayed coefficients do, 128 times the sum of their magnitudes more if it was positive, and less if negative.
   */
  lemma {:induction false} ZerosFollow(b: seq<int>, dx: int, d: seq<int>)
    requires |d| == |b| + 1 && forall i :: 0 <= i < |b| ==> IsInt16(b[i])
    ensures Dot(NextZeros(b, dx, d), d[1..]) == Dot(Decayed(b), d[1..]) + 128 * Sign(dx) * Magnitudes(d[1..])
    decreases |b|
  {
    hide NextB, Scaled, Sign, Abs;
    if b != [] {
      ZeroMoves(b[0], dx, d[1]);
      ZerosFollow(b[1..], dx, d[1..]);
      assert NextZeros(b, dx, d)[1..] == NextZeros(b[1..], dx, d[1..]);
      assert Decayed(b)[1..] == Decayed(b[1..]);
      OneMore(NextB(b[0], dx, d[1]), Scaled(b[0], 32640), d[1], 128 * Sign(dx), Abs(d[1]), Magnitudes(d[2..]));
      assert d[1..][1..] == d[2..];
    }
  }

  lemma OneMore(x: int, y: int, d: int, k: int, m: int, rest: int)
    requires (x - y) * d == k * m
    ensures x * d + k * rest == y * d + k * (m + rest)
  {
  }

  // ----- the poles

  /** If the partial signal keeps its sign, the first pole's coefficient is higher than if not, unless it is limited. */
  lemma FirstPoleFollows(a1: int, ap2: int)
    requires -12288 <= ap2 <= 12288 && IsInt16(a1)
    ensures var (up, down, limit) := (NextA1(a1, ap2, false), NextA1(a1, ap2, true), 15360 - ap2);
      -limit <= down <= up <= limit && (down < up || up == -limit || down == limit)
  {
    DecayShrinks(a1);
    hide Scaled;
  }

  /** The second pole's follows the sign two samples ago in the same way; */
  lemma SecondPoleFollows(a1: int, a2: int, opp0: bool)
    requires -12288 <= a2 <= 12288
    ensures var (up, down) := (NextA2(a1, a2, opp0, false), NextA2(a1, a2, opp0, true));
      -12288 <= down <= up <= 12288 && (down < up || up == -12288 || down == 12288)
  {
  }

  /** and as far as the first pole explains that the sign is kept, the second one need not. */
  lemma PolesShare(a1: int, a2: int, opp1: bool)
    requires -12288 <= a2 <= 12288
    ensures a1 >= 0 ==> NextA2(a1, a2, false, opp1) <= NextA2(a1, a2, true, opp1)
    ensures a1 <= 0 ==> NextA2(a1, a2, true, opp1) <= NextA2(a1, a2, false, opp1)
  {
  }

  // ----- the prediction

  /** The signal has 15 bits, so that it can be doubled. */
  predicate Halved(x: int) {
    -0x4000 <= x < 0x4000
  }

  lemma {:induction false} ZeroSumNear(b: seq<int>, d: seq<int>, n: nat)
    requires n <= |b| == |d| && forall i :: n <= i < |d| ==> Halved(d[i])
    ensures 0 <= Dot(b[n..], d[n..]) - 0x4000 * ZeroSum(b, d, n) <= 0x4000 * (|b| - n)
    decreases |b| - n
  {
    if n < |b| {
      ZeroSumNear(b, d, n + 1);
      ZeroTermNear(b[n], d[n]);
      assert b[n..][1..] == b[n + 1..] && d[n..][1..] == d[n + 1..];
    }
  }

  lemma ZeroTermNear(b: int, d: int)
    requires Halved(d)
    ensures 0 <= b * d - 0x4000 * ZeroTerm(b, d) < 0x4000
  {
    assert b * (d + d) == 2 * (b * d);
  }

  lemma PoleTermNear(a: int, r: int)
    requires Halved(r) && Abs(a) <= 0x8000 - 1
    ensures 0 <= a * r - 0x4000 * Scaled(a, Sat16(r + r)) < 0x4000
  {
    assert a * (r + r) == 2 * (a * r);
    ProductBound(a, r + r, 0x8000 - 1, 0x8000);
  }

  /**
   * The prediction is that of the filter with the poles a and the zeros b, both scaled by 2^14, on the reconstructed
   * signals and the differences: up to one unit for each of the eight terms, and limited to 16 bits.
   */
  lemma Predicts(side: Side, s: Band, dx: int) returns (poles: int, zeros: int)
    requires s.Valid(side) && Halved(s.r) && Halved(Sat16(s.s + dx)) && Halved(dx)
    requires forall i :: 1 <= i < 6 ==> Halved(s.d[i])
    ensures var n := Block4(s, dx);
      && n.r == Sat16(s.s + dx) && n.d[1..] == [dx] + s.d[1..6]
      && n.s == Sat16(Sat16(poles) + Sat16(zeros))
      && 0 <= n.a[0] * n.r + n.a[1] * s.r - 0x4000 * poles < 2 * 0x4000
      && 0 <= Dot(n.b, n.d[1..]) - 0x4000 * zeros <= 6 * 0x4000
  {
    Block4Poles(s, dx);
    hide NextA1, NextA2, NextZeros, ZeroSum, Dot, Sat16, Scaled;
    var n := Block4(s, dx);
    poles := Scaled(n.a[0], Sat16(n.r + n.r)) + Scaled(n.a[1], Sat16(s.r + s.r));
    zeros := ZeroSum(n.b, n.d[1..], 0);
    PoleTermNear(n.a[0], n.r);
    PoleTermNear(n.a[1], s.r);
    ZeroSumNear(n.b, n.d[1..], 0);
    assert n.d[1..] == [dx] + s.d[1..6];
    assert n.b[0..] == n.b && n.d[1..][0..] == n.d[1..];
  }

  /** The partial signal, whose sign the poles follow, is the reconstructed one less what the poles had predicted. */
  lemma PartialSignal(s: Band, dx: int)
    requires s.Shaped() && IsInt16(s.s + dx) && IsInt16(s.sz + dx)
    ensures var n := Block4(s, dx);
      n.p == [n.r - (s.s - s.sz), s.p[0]]
  {
    hide NextA1, NextA2, NextZeros, ZeroSum, PoleSum;
  }
}
