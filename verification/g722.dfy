/** The embedded codes of src/g722.c, on values: what each rate sends and what each end does with it. */
module G722 {
  import opened Arith
  import opened Bits
  import opened G722Band

  /** Bits per sample: 6, 7 or 8 for 48, 56 or 64 kbit/s. */
  type Width = b: nat | 6 <= b <= 8 witness 6

  const QM5: seq<int> :=
    [-280, -280, -23352, -17560, -14120, -11664, -9752, -8184, -6864, -5712, -4696, -3784, -2960, -2208, -1520, -880] +
    [23352, 17560, 14120, 11664, 9752, 8184, 6864, 5712, 4696, 3784, 2960, 2208, 1520, 880, 280, -280]
  const QM6: seq<int> :=
    [-136, -136, -136, -136, -24808, -21904, -19008, -16704] +
    [-14984, -13512, -12280, -11192, -10232, -9360, -8576, -7856] +
    [-7192, -6576, -6000, -5456, -4944, -4464, -4008, -3576, -3168, -2776, -2400, -2032, -1688, -1360, -1040, -728] +
    [24808, 21904, 19008, 16704, 14984, 13512, 12280, 11192, 10232, 9360, 8576, 7856, 7192, 6576, 6000, 5456] +
    [4944, 4464, 4008, 3576, 3168, 2776, 2400, 2032, 1688, 1360, 1040, 728, 432, 136, -432, -136]
  const Q6: seq<int> :=
    [0, 35, 72, 110, 150, 190, 233, 276, 323, 370, 422, 473, 530, 587, 650, 714] +
    [786, 858, 940, 1023, 1121, 1219, 1339, 1458, 1612, 1765, 1980, 2195, 2557, 2919, 0, 0]
  const ILN: seq<nat> :=
    [0, 63, 62, 31, 30, 29, 28, 27, 26, 25, 24, 23, 22, 21, 20, 19] +
    [18, 17, 16, 15, 14, 13, 12, 11, 10, 9, 8, 7, 6, 5, 4, 0]
  const ILP: seq<nat> :=
    [0, 61, 60, 59, 58, 57, 56, 55, 54, 53, 52, 51, 50, 49, 48, 47] +
    [46, 45, 44, 43, 42, 41, 40, 39, 38, 37, 36, 35, 34, 33, 32, 0]
  const IHN: seq<nat> := [0, 1, 0]
  const IHP: seq<nat> := [0, 3, 2]

  // ----- codes and indices

  /** The code of a rate is the 64 kbit/s code without its last bits. */
  function Cut(b: Width, code: nat): nat {
    ShrNat(code, 8 - b)
  }

  /** The low band index that adaptation uses. */
  function LowIndex(b: Width, code: nat): (i: nat)
    ensures i < Indices(LowBand)
  {
    if b == 8 then (code % 64) / 4 else if b == 7 then (code % 32) / 2 else code % 16
  }

  function HighIndex(b: Width, code: nat): (i: nat)
    ensures i < Indices(HighBand)
  {
    (if b == 8 then code / 64 else if b == 7 then code / 32 else code / 16) % 4
  }

  /** The bits that the lower rates drop are not used for adaptation. */
  lemma Embedded(b: Width, code: nat)
    requires code < 256
    ensures LowIndex(b, Cut(b, code)) == LowIndex(8, code)
    ensures HighIndex(b, Cut(b, code)) == HighIndex(8, code)
    ensures Cut(b, code) < Pow2(b)
  {
    CutIs(b, code);
    var h, l, u, v := DigitsOf(code);
    hide *;
    Digits(h, l, u, v);
  }

  lemma DigitsOf(code: nat) returns (h: nat, l: nat, u: nat, v: nat)
    requires code < 256
    ensures h < 4 && l < 16 && u < 2 && v < 2 && code == 64 * h + 4 * l + 2 * u + v
  {
    h, l, u, v := code / 64, (code % 64) / 4, (code % 4) / 2, code % 2;
  }

  /** A code is two bits of high band index, four of low band index, and two that only refine the output. */
  lemma Digits(h: nat, l: nat, u: nat, v: nat)
    requires h < 4 && l < 16 && u < 2 && v < 2
    ensures var code := 64 * h + 4 * l + 2 * u + v;
            && code / 2 == 32 * h + 2 * l + u && (code / 2) / 2 == 16 * h + l
            && LowIndex(8, code) == LowIndex(7, code / 2) == LowIndex(6, (code / 2) / 2) == l
            && HighIndex(8, code) == HighIndex(7, code / 2) == HighIndex(6, (code / 2) / 2) == h
  {
    Digits64(h, l, u, v);
    Digits56(h, l, u);
    Digits48(h, l);
    hide *;
  }

  lemma Digits64(h: nat, l: nat, u: nat, v: nat)
    requires h < 4 && l < 16 && u < 2 && v < 2
    ensures (64 * h + 4 * l + 2 * u + v) / 2 == 32 * h + 2 * l + u
    ensures LowIndex(8, 64 * h + 4 * l + 2 * u + v) == l && HighIndex(8, 64 * h + 4 * l + 2 * u + v) == h
  {
    var low := 4 * l + 2 * u + v;
    assert (64 * h + low) / 64 == h && (64 * h + low) % 64 == low && low / 4 == l;
  }

  lemma Digits56(h: nat, l: nat, u: nat)
    requires h < 4 && l < 16 && u < 2
    ensures (32 * h + 2 * l + u) / 2 == 16 * h + l
    ensures LowIndex(7, 32 * h + 2 * l + u) == l && HighIndex(7, 32 * h + 2 * l + u) == h
  {
  }

  lemma Digits48(h: nat, l: nat)
    requires h < 4 && l < 16
    ensures LowIndex(6, 16 * h + l) == l && HighIndex(6, 16 * h + l) == h
  {
  }

  lemma CutIs(b: Width, code: nat)
    ensures Cut(b, code) == if b == 8 then code else if b == 7 then code / 2 else (code / 2) / 2
    ensures Pow2(b) == if b == 8 then 256 else if b == 7 then 128 else 64
  {
  }

  /** The low band after codes of b bits. */
  function LowAfter(b: Width, codes: seq<nat>): (s: Band)
    ensures s.Valid(LowBand)
  {
    if codes == [] then InitialBand(LowBand)
    else Step(LowBand, LowAfter(b, codes[..|codes| - 1]), LowIndex(b, codes[|codes| - 1]))
  }

  /** The high band after codes of b bits; at 8000 samples per second it is not used. */
  function HighAfter(eightK: bool, b: Width, codes: seq<nat>): (s: Band)
    ensures s.Valid(HighBand)
  {
    if codes == [] || eightK then InitialBand(HighBand)
    else Step(HighBand, HighAfter(eightK, b, codes[..|codes| - 1]), HighIndex(b, codes[|codes| - 1]))
  }

  lemma LowAfterSnoc(b: Width, codes: seq<nat>, code: nat)
    ensures LowAfter(b, codes + [code]) == Step(LowBand, LowAfter(b, codes), LowIndex(b, code))
  {
    assert (codes + [code])[..|codes|] == codes;
    hide Step, LowIndex;
  }

  lemma HighAfterSnoc(eightK: bool, b: Width, codes: seq<nat>, code: nat)
    ensures HighAfter(eightK, b, codes + [code])
         == if eightK then HighAfter(eightK, b, codes)
            else Step(HighBand, HighAfter(eightK, b, codes), HighIndex(b, code))
  {
    assert (codes + [code])[..|codes|] == codes;
    hide Step, HighIndex;
  }

  /** If only one end is at 8000 samples per second, the high bands part at the first code. */
  lemma MixedRatesPart(b: Width, code: nat)
    ensures HighAfter(true, b, [code]) != HighAfter(false, b, [code])
  {
    var first := InitialBand(HighBand);
    var index := HighIndex(b, code);
    HighAfterSnoc(false, b, [], code);
    assert [] + [code] == [code];
    FirstPole(first.(nb := NextNb(HighBand, 0, index), det := Step(HighBand, first, index).det),
              Difference(HighBand, 8, index));
  }

  lemma FirstPole(s: Band, dx: int)
    requires s.Shaped() && s.a == [0, 0]
    ensures Block4(s, dx).a[0] != 0
  {
    hide PoleSum, ZeroSum, NextZeros, Sat16, Int16;
    var p := Sat16(s.sz + dx);
    FirstPoleOf(NextA2(0, 0, (p < 0) != (s.p[0] < 0), (p < 0) != (s.p[1] < 0)), (p < 0) != (s.p[0] < 0));
    A2InRange(0, 0, (p < 0) != (s.p[0] < 0), (p < 0) != (s.p[1] < 0));
    hide NextA1, NextA2;
  }

  lemma FirstPoleOf(ap2: int, opp0: bool)
    ensures ap2 <= 12288 ==> NextA1(0, ap2, opp0) != 0
  {
  }

  function CutAll(b: Width, codes: seq<nat>): (r: seq<nat>)
    ensures |r| == |codes|
    ensures forall i :: 0 <= i < |r| ==> r[i] == Cut(b, codes[i])
  {
    if codes == [] then [] else CutAll(b, codes[..|codes| - 1]) + [Cut(b, codes[|codes| - 1])]
  }

  lemma CutAllPrefix(b: Width, codes: seq<nat>, n: nat)
    requires n <= |codes|
    ensures CutAll(b, codes)[..n] == CutAll(b, codes[..n])
  {
    hide Cut;
  }

  /** All three rates lead to the same bands, so the 64 kbit/s codes can be cut anywhere on their way. */
  lemma {:induction false} RatesAgree(eightK: bool, b: Width, codes: seq<byte>)
    ensures LowAfter(b, CutAll(b, codes)) == LowAfter(8, codes)
    ensures HighAfter(eightK, b, CutAll(b, codes)) == HighAfter(eightK, 8, codes)
  {
    hide Step, LowIndex, HighIndex, Cut, InitialBand;
    if codes == [] {
    } else {
      var n := |codes| - 1;
      RatesAgree(eightK, b, codes[..n]);
      Embedded(b, codes[n]);
      LowAfterSnoc(b, CutAll(b, codes[..n]), Cut(b, codes[n]));
      HighAfterSnoc(eightK, b, CutAll(b, codes[..n]), Cut(b, codes[n]));
    }
  }

  // ----- the encoder's quantizers

  function Threshold(det: int, i: nat): int
    requires i < 32
  {
    (Q6[i] * det) / 4096
  }

  /** The first quantizer level from i on whose threshold is above wd, or 30. */
  function Level(wd: nat, det: int, i: nat): (l: nat)
    requires 1 <= i <= 30
    ensures i <= l <= 30
    ensures forall j :: i <= j < l ==> wd >= Threshold(det, j)
    ensures l < 30 ==> wd < Threshold(det, l)
    decreases 30 - i
  {
    if i == 30 || wd < Threshold(det, i) then i else Level(wd, det, i + 1)
  }

  /** x if it is not negative, else its one's complement. */
  function Fold(x: int): nat {
    if x >= 0 then x else -x - 1
  }

  lemma LowCodeBounds(i: nat)
    requires 1 <= i <= 30
    ensures 4 <= ILN[i] < 64 && 4 <= ILP[i] < 64
  {
  }

  function LevelCode(i: nat, negative: bool): (ilow: nat)
    requires 1 <= i <= 30
    ensures 4 <= ilow < 64
  {
    LowCodeBounds(i);
    if negative then ILN[i] else ILP[i]
  }

  /** QUANTL. */
  function LowCode(det: int, el: int): (ilow: nat)
    ensures 4 <= ilow < 64
  {
    LevelCode(Level(Fold(el), det, 1), el < 0)
  }

  /** QUANTH. */
  function HighCode(det: int, eh: int): (ihigh: nat)
    ensures ihigh < 4
  {
    var mih := if Fold(eh) >= (564 * det) / 4096 then 2 else 1;
    if eh < 0 then IHN[mih] else IHP[mih]
  }

  /** The 64 kbit/s code of one pair of sub-band samples. */
  function FullCode(eightK: bool, low: Band, high: Band, x: (int, int)): (code: byte) {
    var ilow := LowCode(low.det, Sat16(x.0 - low.s));
    if eightK then 0xC0 + ilow else HighCode(high.det, Sat16(x.1 - high.s)) * 64 + ilow
  }

  /** The 64 kbit/s codes of a sequence of sub-band samples. */
  function FullCodes(eightK: bool, low: Band, high: Band, xs: seq<(int, int)>): (codes: seq<byte>)
    requires low.Valid(LowBand) && high.Valid(HighBand)
    ensures |codes| == |xs|
    decreases |xs|
  {
    hide *;
    if xs == [] then []
    else
      var code := FullCode(eightK, low, high, xs[0]);
      [code] + FullCodes(eightK, Step(LowBand, low, LowIndex(8, code)),
                         if eightK then high else Step(HighBand, high, HighIndex(8, code)), xs[1..])
  }

  // ----- the decoder's output

  function Sat15(x: int): int {
    if x > 16383 then 16383 else if x < -16384 then -16384 else x
  }

  /** What a low band code of b bits stands for, for a scale factor of 0x8000: every bit counts. */
  function LowValue(b: Width, code: nat): int {
    if b == 8 then QM6[code % 64] else if b == 7 then QM5[code % 32] else QM4[code % 16]
  }

  /** INVQBL. */
  function LowDifference(b: Width, det: int, code: nat): int {
    (det * LowValue(b, code)) / 0x8000
  }

  /** RECONS and LIMIT. */
  function LowOutput(b: Width, low: Band, code: nat): int {
    Sat15(low.s + LowDifference(b, low.det, code))
  }

  function HighOutput(b: Width, high: Band, code: nat): int {
    Sat15(Difference(HighBand, high.det, HighIndex(b, code)) + high.s)
  }

  /** The sub-band samples that code j of a stream stands for. */
  function OutputAt(eightK: bool, b: Width, codes: seq<nat>, j: nat): (int, int)
    requires j < |codes|
  {
    (LowOutput(b, LowAfter(b, codes[..j]), codes[j]),
     if eightK then 0 else HighOutput(b, HighAfter(eightK, b, codes[..j]), codes[j]))
  }
}
