/** One band of src/g722.c: scale factor and predictor adaptation, on values. */
module G722Band {
  import opened Arith
  import opened Bits
  import Stability

  const QM2: seq<int> := [-7408, -1616, 7408, 1616]
  const QM4: seq<int> := [
    0, -20456, -12896, -8968, -6288, -4240, -2584, -1200,
    20456, 12896, 8968, 6288, 4240, 2584, 1200, 0]
  const ILB: seq<int> := [
    2048, 2093, 2139, 2186, 2233, 2282, 2332, 2383, 2435, 2489, 2543, 2599, 2656, 2714, 2774, 2834,
    2896, 2960, 3025, 3091, 3158, 3228, 3298, 3371, 3444, 3520, 3597, 3676, 3756, 3838, 3922, 4008]
  const WL: seq<int> := [-60, -30, 58, 172, 334, 538, 1198, 3042]
  const RL42: seq<nat> := [0, 7, 6, 5, 4, 3, 2, 1, 7, 6, 5, 4, 3, 2, 1, 0]
  const WH: seq<int> := [0, -214, 798]
  const RH2: seq<nat> := [2, 1, 2, 1]

  /** Which band: the low one has 4-bit indices, the high one 2-bit indices. */
  datatype Side = LowBand | HighBand

  function Indices(side: Side): nat {
    if side.LowBand? then 16 else 4
  }

  /** The limit of the logarithmic scale factor. */
  function NbLimit(side: Side): nat {
    if side.LowBand? then 18432 else 22528
  }

  /** A g722_band_t. */
  datatype Band = Band(nb: int, det: int, s: int, sz: int, r: int, p: seq<int>, a: seq<int>, b: seq<int>, d: seq<int>)
  {
    predicate Shaped() {
      |p| == 2 && |a| == 2 && |b| == 6 && |d| == 7
    }

    /** The ranges that every reachable band keeps. */
    predicate Valid(side: Side) {
      && Shaped()
      && 0 <= nb <= NbLimit(side)
      && (if side.LowBand? then 32 else 8) <= det <= 16384
      && -12288 <= a[1] <= 12288 && Abs(a[0]) <= 15360 - a[1]
      && IsInt16(s)
    }
  }

  function InitialBand(side: Side): (band: Band)
    ensures band.Valid(side)
  {
    Band(0, if side.LowBand? then 32 else 8, 0, 0, 0, [0, 0], [0, 0], [0, 0, 0, 0, 0, 0], [0, 0, 0, 0, 0, 0, 0])
  }

  /** `(int16_t) ((x*y) >> 15)`. */
  function Scaled(x: int, y: int): (r: int)
    ensures IsInt16(r)
  {
    Int16((x * y) / 0x8000)
  }

  // ----- scale factor

  function ScaleStep(side: Side, index: nat): (w: int)
    requires index < Indices(side)
    ensures -214 <= w <= 3042
  {
    if side.LowBand? then WL[RL42[index]] else WH[RH2[index]]
  }

  /** LOGSCL and LOGSCH. */
  function NextNb(side: Side, nb: int, index: nat): int
    requires index < Indices(side)
  {
    Min(Max((nb * 127) / 128 + ScaleStep(side, index), 0), NbLimit(side))
  }

  /** SCALEL and SCALEH. */
  function NextDet(side: Side, nb: int): int
    requires 0 <= nb <= NbLimit(side)
  {
    var mant := ILB[(nb / 64) % 32];
    var shift := (if side.LowBand? then 8 else 10) - nb / 2048;
    Int16((if shift < 0 then mant * Pow2(-shift) else ShrNat(mant, shift)) * 4)
  }

  /** The quantized difference that an index stands for: INVQAL and INVQAH. */
  function Difference(side: Side, det: int, index: nat): (dx: int)
    requires index < Indices(side)
    ensures IsInt16(dx)
  {
    Scaled(det, if side.LowBand? then QM4[index] else QM2[index])
  }

  // ----- block 4

  /** UPPOL2: the second pole coefficient; opp says whether the sign of p differs from that of a past p. */
  function NextA2(a1: int, a2: int, opp0: bool, opp1: bool): int {
    var wd1 := Sat16(a1 * 4);
    var wd32 := Min(if opp0 then wd1 else -wd1, 32767);
    var wd3 := Int16((if opp1 then -128 else 128) + wd32 / 128 + (a2 * 32512) / 0x8000);
    Min(Max(wd3, -12288), 12288)
  }

  /** UPPOL1: the first pole coefficient, limited by the new second one. */
  function NextA1(a1: int, ap2: int, opp0: bool): int {
    var ap1 := Sat16((if opp0 then -192 else 192) + Scaled(a1, 32640));
    var wd3 := Sat16(15360 - ap2);
    if Abs(ap1) > wd3 then if ap1 < 0 then -wd3 else wd3 else ap1
  }

  /** FILTEP: the prediction from the two poles. */
  function PoleSum(a1: int, r: int, a2: int, r1: int): int {
    Sat16(Scaled(a1, Sat16(r + r)) + Scaled(a2, Sat16(r1 + r1)))
  }

  /** UPZERO: one zero coefficient. */
  function NextB(b: int, dx: int, past: int): int {
    var wd1 := if dx == 0 then 0 else 128;
    Sat16((if (past < 0) != (dx < 0) then -wd1 else wd1) + Scaled(b, 32640))
  }

  /** One product of FILTEZ. */
  function ZeroTerm(b: int, d: int): int {
    (b * Sat16(d + d)) / 0x8000
  }

  /** FILTEZ: the products from index n up. */
  function ZeroSum(b: seq<int>, d: seq<int>, n: nat): int
    requires n <= |b| <= |d|
    decreases |b| - n
  {
    if n == |b| then 0 else ZeroSum(b, d, n + 1) + ZeroTerm(b[n], d[n])
  }

  function NextZeros(b: seq<int>, dx: int, d: seq<int>): (r: seq<int>)
    requires |b| < |d|
    ensures |r| == |b|
  {
    seq(|b|, i requires 0 <= i < |b| => NextB(b[i], dx, d[i + 1]))
  }

  /** block4. */
  function Block4(s: Band, dx: int): (n: Band)
    requires s.Shaped()
    ensures n.Shaped()
  {
    var r, p := Sat16(s.s + dx), Sat16(s.sz + dx);
    var opp0, opp1 := (p < 0) != (s.p[0] < 0), (p < 0) != (s.p[1] < 0);
    var a2 := NextA2(s.a[0], s.a[1], opp0, opp1);
    var a1 := NextA1(s.a[0], a2, opp0);
    var b := NextZeros(s.b, dx, s.d);
    var sz := Sat16(ZeroSum(b, [dx] + s.d[1..6], 0));
    Band(s.nb, s.det, Sat16(PoleSum(a1, r, a2, s.r) + sz), sz, r, [p, s.p[0]], [a1, a2], b, [dx, dx] + s.d[1..6])
  }

  /** What both ends do to a band with an index. */
  function Step(side: Side, s: Band, index: nat): (n: Band)
    requires s.Valid(side) && index < Indices(side)
    ensures n.Valid(side)
  {
    var nb := NextNb(side, s.nb, index);
    DetInRange(side, nb);
    Block4Poles(s.(nb := nb, det := NextDet(side, nb)), Difference(side, s.det, index));
    hide NextDet, NextNb, NextA1, NextA2, PoleSum, ZeroSum, NextZeros, Sat16, Difference, NbLimit;
    Block4(s.(nb := nb, det := NextDet(side, nb)), Difference(side, s.det, index))
  }

  /** LIMIT: whatever the difference, the poles stay in the stability triangle. */
  lemma Block4Poles(s: Band, dx: int)
    requires s.Shaped() && -12288 <= s.a[1] <= 12288 && Abs(s.a[0]) <= 15360 - s.a[1]
    ensures -12288 <= Block4(s, dx).a[1] <= 12288
    ensures Abs(Block4(s, dx).a[0]) <= 15360 - Block4(s, dx).a[1]
  {
    var p := Sat16(s.sz + dx);
    A2InRange(s.a[0], s.a[1], (p < 0) != (s.p[0] < 0), (p < 0) != (s.p[1] < 0));
    A1InRange(s.a[0], Block4(s, dx).a[1], (p < 0) != (s.p[0] < 0));
    hide NextA1, NextA2, PoleSum, ZeroSum, NextZeros, Sat16;
  }

  lemma A2InRange(a1: int, a2: int, opp0: bool, opp1: bool)
    ensures -12288 <= NextA2(a1, a2, opp0, opp1) <= 12288
  {
    hide Sat16, Int16;
  }

  lemma A1InRange(a1: int, ap2: int, opp0: bool)
    requires -12288 <= ap2 <= 12288
    ensures Abs(NextA1(a1, ap2, opp0)) <= 15360 - ap2
  {
    hide Scaled;
  }

  lemma DetInRange(side: Side, nb: int)
    requires 0 <= nb <= NbLimit(side)
    ensures (if side.LowBand? then 32 else 8) <= NextDet(side, nb) <= 16384
  {
    if nb == NbLimit(side) {
      LargestDet(side);
    } else {
      var mant, most := ILB[(nb / 64) % 32], if side.LowBand? then 8 else 10;
      MantissaBounds((nb / 64) % 32);
      hide ILB, Pow2, ShrNat;
      ShiftBounds(mant, most - nb / 2048, most);
    }
  }

  lemma LargestDet(side: Side)
    ensures NextDet(side, NbLimit(side)) == 16384
  {
    assert ILB[0] == 2048 && Pow2(1) == 2;
    hide ILB, Pow2, ShrNat;
    if side.LowBand? {
      assert (18432 / 64) % 32 == 0 && 18432 / 2048 == 9;
    } else {
      assert (22528 / 64) % 32 == 0 && 22528 / 2048 == 11;
    }
  }

  lemma MantissaBounds(k: nat)
    requires k < 32
    ensures 2048 <= ILB[k] <= 4008
  {
  }

  lemma ShiftBounds(mant: nat, shift: int, most: nat)
    requires 2048 <= mant <= 4008 && 0 <= shift <= most <= 10
    ensures (most == 8 ==> 8 <= ShrNat(mant, shift)) && 2 <= ShrNat(mant, shift) <= 4008
  {
    assert Pow2(11) == 2048 && Pow2(3) == 8 && Pow2(1) == 2;
    hide *;
    Pow2Add(11 - shift, shift);
    ShrSum(0, Pow2(11 - shift), shift);
    ShrMonotone(2048, mant, shift);
    Pow2Monotone(11 - most, 11 - shift);
    ShrShrinks(mant, shift);
  }

  lemma {:induction false} ShrShrinks(x: nat, n: nat)
    ensures ShrNat(x, n) <= x
    decreases n
  {
    if n > 0 {
      ShrShrinks(x / 2, n - 1);
    }
  }

  /** In every reachable band the poles of the predictor, whose coefficients are scaled by 2^14, are stable. */
  lemma PolesStable(side: Side, s: Band, x: real, y: real)
    requires s.Valid(side)
    requires Stability.Root(s.a[0] as real / 16384.0, s.a[1] as real / 16384.0, x, y)
    ensures x * x + y * y < 1.0
  {
    var a1, a2 := s.a[0], s.a[1];
    hide *;
    Stability.ScaledRootsInside(a1, a2, x, y);
  }
}
