/** The adaptive codec of src/g726.c: quantizer, predictor and adaptation, on values. */
module G726 {
  import opened Arith
  import opened Bits

  datatype Rate = Rate16 | Rate24 | Rate32 | Rate40

  /** The tables of one bit rate. */
  datatype Tables = Tables(
    bits: nat,           // bits per sample
    states: nat,         // quantizer states
    dqlntab: seq<int>, witab: seq<int>, fitab: seq<int>, qtab: seq<int>)

  function TablesOf(rate: Rate): Tables {
    match rate
    case Rate16 => Tables(2, 4,
      [116, 365, 365, 116],
      [-704, 14048, 14048, -704],
      [0x000, 0xE00, 0xE00, 0x000],
      [261])
    case Rate24 => Tables(3, 7,
      [-2048, 135, 273, 373, 373, 273, 135, -2048],
      [-128, 960, 4384, 18624, 18624, 4384, 960, -128],
      [0x000, 0x200, 0x400, 0xE00, 0xE00, 0x400, 0x200, 0x000],
      [8, 218, 331])
    case Rate32 => Tables(4, 15,
      [-2048, 4, 135, 213, 273, 323, 373, 425, 425, 373, 323, 273, 213, 135, 4, -2048],
      [-384, 576, 1312, 2048, 3584, 6336, 11360, 35904, 35904, 11360, 6336, 3584, 2048, 1312, 576, -384],
      [0x000, 0x000, 0x000, 0x200, 0x200, 0x200, 0x600, 0xE00, 0xE00, 0x600, 0x200, 0x200, 0x200, 0x000, 0x000, 0x000],
      [-124, 80, 178, 246, 300, 349, 400])
    case Rate40 => Tables(5, 31,
      [-2048, -66, 28, 104, 169, 224, 274, 318, 358, 395, 429, 459, 488, 514, 539, 566,
       566, 539, 514, 488, 459, 429, 395, 358, 318, 274, 224, 169, 104, 28, -66, -2048],
      [448, 448, 768, 1248, 1280, 1312, 1856, 3200, 4512, 5728, 7008, 8960, 11456, 14080, 16928, 22272,
       22272, 16928, 14080, 11456, 8960, 7008, 5728, 4512, 3200, 1856, 1312, 1280, 1248, 768, 448, 448],
      [0x000, 0x000, 0x000, 0x000, 0x000, 0x200, 0x200, 0x200, 0x200, 0x200, 0x400, 0x600, 0x800, 0xA00, 0xC00, 0xC00,
       0xC00, 0xC00, 0xA00, 0x800, 0x600, 0x400, 0x200, 0x200, 0x200, 0x200, 0x200, 0x000, 0x000, 0x000, 0x000, 0x000],
      [-122, -16, 68, 139, 198, 250, 298, 339, 378, 413, 445, 475, 502, 528, 553])
  }

  /** The number of codes. */
  function Codes(rate: Rate): (n: nat)
    ensures n >= 4
  {
    match rate case Rate16 => 4 case Rate24 => 8 case Rate32 => 16 case Rate40 => 32
  }

  /** The sign bit of a code. */
  function Negative(rate: Rate, code: nat): bool {
    code >= Codes(rate) / 2
  }

  /** The mask that takes the magnitude of dq: 0x3FFF, but 0x7FFF at 40 kbit/s. */
  function MagnitudeModulus(rate: Rate): nat {
    if rate == Rate40 then 0x8000 else 0x4000
  }

  /** top_bit: the index of the highest set bit, or -1. */
  function TopBit(x: nat): (r: int)
    ensures r >= -1
  {
    if x == 0 then -1 else TopBit(x / 2) + 1
  }

  // ----- the adaptive state

  datatype State = State(
    yl: int, yu: int, dms: int, dml: int, ap: int,
    a: seq<int>, b: seq<int>, pk: seq<bool>, dq: seq<int>, sr: seq<int>, td: bool)
  {
    predicate Valid() {
      && |a| == 2 && |b| == 6 && |pk| == 2 && |dq| == 6 && |sr| == 2
      && InRange()
    }

    /** The ranges that every reachable state keeps. */
    predicate InRange()
      requires |a| == 2
    {
      && -12288 <= a[1] <= 12288 && Abs(a[0]) <= 15360 - a[1]
      && 544 <= yu <= 5120 && 34816 <= yl <= 327680
      && 0 <= ap <= 512 && 0 <= dms <= 3584 && 0 <= dml <= 14336
    }
  }

  /** The state that g726_init sets. */
  function Initial(): (s: State)
    ensures s.Valid()
  {
    State(34816, 544, 0, 0, 0, [0, 0], [0, 0, 0, 0, 0, 0], [false, false], [32, 32, 32, 32, 32, 32], [32, 32], false)
  }

  // ----- prediction

  /** The product of a 14-bit integer and a number in 4-bit exponent, 6-bit mantissa form. */
  function Fmult(an: int, srn: int): (r: int)
    ensures IsInt16(r)
  {
    var anmag := Int16(if an > 0 then an else (-an) % 0x2000);
    if anmag < 0 then 0 // not reached for int16_t operands of the predictor
    else
      var anexp := TopBit(anmag) - 5;
      var anmant := if anmag == 0 then 32 else if anexp >= 0 then ShrNat(anmag, anexp) else anmag * Pow2(-anexp);
      var wanexp := anexp + (srn / 64) % 16 - 13;
      var wanmant := (anmant * (srn % 64) + 0x30) / 16;
      var retval := if wanexp >= 0 then (wanmant * Pow2(wanexp)) % 0x8000 else Shr(wanmant, -wanexp);
      Int16(if (an < 0) != (srn < 0) then -retval else retval)
  }

  function ZeroSum(b: seq<int>, dq: seq<int>): int
    requires |b| == |dq|
  {
    if b == [] then 0 else ZeroSum(b[..|b| - 1], dq[..|b| - 1]) + Fmult(b[|b| - 1] / 4, dq[|b| - 1])
  }

  /** predictor_zero: the estimate from the six zeros. */
  function PredictorZero(s: State): (r: int)
    requires s.Valid()
    ensures IsInt16(r)
  {
    Int16(ZeroSum(s.b, s.dq))
  }

  /** predictor_pole: the estimate from the two poles. */
  function PredictorPole(s: State): (r: int)
    requires s.Valid()
    ensures IsInt16(r)
  {
    Int16(Fmult(s.a[1] / 4, s.sr[1]) + Fmult(s.a[0] / 4, s.sr[0]))
  }

  /** The signal estimate se. */
  function Estimate(s: State): (se: int)
    requires s.Valid()
    ensures -0x4000 <= se <= 0x3FFF
  {
    Int16(PredictorZero(s) + PredictorPole(s)) / 2
  }

  /** step_size. */
  function StepSize(s: State): (y: int)
    requires s.Valid()
    ensures Min(s.yl / 64, s.yu) <= y <= Max(s.yl / 64, s.yu)
    ensures 544 <= y <= 5120
  {
    if s.ap >= 256 then s.yu
    else
      var y := s.yl / 64;
      var dif := s.yu - y;
      var al := s.ap / 4;
      StepBlend(dif, al);
      if dif > 0 then y + (dif * al) / 64
      else if dif < 0 then y + (dif * al + 0x3F) / 64
      else y
  }

  /** A weight below 64 moves the step only part of the way. */
  lemma StepBlend(dif: int, al: int)
    requires 0 <= al < 64
    ensures dif > 0 ==> 0 <= (dif * al) / 64 <= dif
    ensures dif < 0 ==> dif <= (dif * al + 0x3F) / 64 <= 0
  {
    if dif > 0 {
      assert 0 <= dif * al <= dif * 64;
    } else if dif < 0 {
      assert dif * 64 <= dif * al <= 0;
    }
  }

  // ----- the quantizer

  /** The base 2 logarithm of a magnitude, in steps of 1/128. */
  function Log(dqm: nat): int {
    var exp := TopBit(dqm / 2) + 1;
    128 * exp + Shr(dqm * 128, exp) % 128
  }

  /** The first table entry above dln. */
  function Find(dln: int, table: seq<int>): (i: nat)
    ensures i <= |table|
    ensures forall j :: 0 <= j < i ==> table[j] <= dln
    ensures i < |table| ==> dln < table[i]
  {
    if table == [] || dln < table[0] then 0 else 1 + Find(dln, table[1..])
  }

  /** quantize. */
  function Quantize(rate: Rate, d: int, y: int): (code: nat)
    requires -0x7FFF <= d <= 0x7FFF
    ensures code < Codes(rate)
  {
    var t := TablesOf(rate);
    var i := Find(Log(Abs(d)) - y / 4, t.qtab);
    var size := |t.qtab|;
    if d < 0 then 2 * size + 1 - i
    else if i == 0 && t.states % 2 == 1 then t.states
    else i
  }

  /** A code read as a two's complement number. */
  function Signed(rate: Rate, code: nat): int {
    if Negative(rate, code) then code - Codes(rate) else code
  }

  lemma {:induction false} TopBitBounds(x: nat)
    requires x > 0
    ensures TopBit(x) >= 0 && Pow2(TopBit(x)) <= x < 2 * Pow2(TopBit(x))
  {
    if x == 1 {
    } else {
      TopBitBounds(x / 2);
    }
  }

  /** A number of e + 1 bits, scaled to 8 significant bits. */
  lemma ShrScaled(x: nat, e: nat)
    requires Pow2(e) <= x < 2 * Pow2(e)
    ensures 128 <= Shr(x * 128, e) < 256
  {
    ShrSum(0, 128, e);
    ShrMonotone(128 * Pow2(e), x * 128, e);
    ShrSum(Pow2(e) - 1, 255, e);
    ShrMonotone(x * 128, Pow2(e) - 1 + 255 * Pow2(e), e);
  }

  /** In [128 k, 128 k + 127] for a k-bit exponent: the mantissa is what follows the top bit. */
  lemma LogIs(x: nat)
    requires x > 0
    ensures TopBit(x) >= 0 && 128 <= Shr(x * 128, TopBit(x)) < 256
    ensures Log(x) == 128 * TopBit(x) + Shr(x * 128, TopBit(x)) - 128
  {
    hide *;
    TopBitBounds(x);
    ShrScaled(x, TopBit(x));
    ExponentOf(x);
  }

  lemma ExponentOf(x: nat)
    requires x > 0
    ensures TopBit(x / 2) + 1 == TopBit(x)
    ensures Log(x) == 128 * TopBit(x) + Shr(x * 128, TopBit(x)) % 128
  {
    hide Shr;
  }

  lemma {:induction false} TopBitMonotone(x: nat, y: nat)
    requires x <= y
    ensures TopBit(x) <= TopBit(y)
  {
    if x == 0 {
    } else {
      TopBitMonotone(x / 2, y / 2);
    }
  }

  lemma LogMonotone(x: nat, y: nat)
    requires x <= y
    ensures 0 <= Log(x) <= Log(y)
  {
    hide *;
    if x == 0 {
      LogOfZero();
      if y > 0 {
        LogIs(y);
      }
    } else {
      LogIs(x);
      LogIs(y);
      TopBitMonotone(x, y);
      if TopBit(x) == TopBit(y) {
        ShrMonotone(x * 128, y * 128, TopBit(x));
      }
    }
  }

  lemma LogOfZero()
    ensures Log(0) == 0
  {
  }

  lemma {:induction false} FindMonotone(x: int, y: int, table: seq<int>)
    requires x <= y
    ensures Find(x, table) <= Find(y, table)
  {
    if table == [] || y < table[0] || x < table[0] {
    } else {
      FindMonotone(x, y, table[1..]);
    }
  }

  /** The magnitude level i that the table search finds for a difference. */
  function Level(rate: Rate, d: int, y: int): (i: nat)
    ensures i <= Codes(rate) / 2 - 1
  {
    Find(Log(Abs(d)) - y / 4, TablesOf(rate).qtab)
  }

  /** Read as a two's complement number, a code is its level, or the one's complement of it. */
  lemma SignedQuantize(rate: Rate, d: int, y: int)
    requires -0x7FFF <= d <= 0x7FFF
    ensures Signed(rate, Quantize(rate, d, y))
         == if d < 0 then -1 - Level(rate, d, y)
            else if Level(rate, d, y) == 0 && rate != Rate16 then -1
            else Level(rate, d, y)
  {
    hide Find, Log;
  }

  /** For a fixed step size, the code read as a two's complement number never falls as the difference rises. */
  lemma QuantizeMonotone(rate: Rate, d1: int, d2: int, y: int)
    requires -0x7FFF <= d1 <= d2 <= 0x7FFF
    ensures Signed(rate, Quantize(rate, d1, y)) <= Signed(rate, Quantize(rate, d2, y))
  {
    SignedQuantize(rate, d1, y);
    SignedQuantize(rate, d2, y);
    if d1 >= 0 {
      LevelMonotone(rate, d1, d2, y);
    } else if d2 < 0 {
      LevelMonotone(rate, d2, d1, y);
    }
    hide *;
  }

  lemma LevelMonotone(rate: Rate, d1: int, d2: int, y: int)
    requires Abs(d1) <= Abs(d2)
    ensures Level(rate, d1, y) <= Level(rate, d2, y)
  {
    hide Find, Log, TablesOf;
    LogMonotone(Abs(d1), Abs(d2));
    FindMonotone(Log(Abs(d1)) - y / 4, Log(Abs(d2)) - y / 4, TablesOf(rate).qtab);
  }
}
