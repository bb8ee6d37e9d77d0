/** Reconstruction and adaptation in src/g726.c: what the encoder and the decoder both do with a code. */
module G726Adapt {
  import opened Arith
  import opened G726

  // ----- reconstruct

  /** The antilog of a base 2 logarithm in steps of 1/128, scaled so that 2^14 is 14 << 7. */
  function Antilog(dql: int): (m: nat)
    requires dql <= 1919
  {
    if dql < 0 then 0 else ShrNat((128 + dql % 128) * 128, 14 - dql / 128)
  }

  /** The logarithm of the reconstructed magnitude of a code. */
  function DqLog(rate: Rate, code: nat, y: int): (dql: int)
    requires code < Codes(rate) && 544 <= y <= 5120
    ensures dql <= (if rate == Rate40 then 1846 else 1705)
    ensures IsInt16(dql)
  {
    DqTabBounds(rate, code);
    TablesOf(rate).dqlntab[code] + y / 4
  }

  lemma DqTabBounds(rate: Rate, code: nat)
    requires code < Codes(rate)
    ensures |TablesOf(rate).dqlntab| == Codes(rate)
    ensures -2048 <= TablesOf(rate).dqlntab[code] <= (if rate == Rate40 then 566 else 425)
  {
    hide TablesOf;
    match rate {
      case Rate16 => Tables16(code);
      case Rate24 => Tables24(code);
      case Rate32 => Tables32(code);
      case Rate40 => Tables40(code);
    }
  }

  predicate TablesFit(t: Tables, n: nat, code: nat, limit: int) {
    && |t.dqlntab| == |t.witab| == |t.fitab| == n && code < n
    && -2048 <= t.dqlntab[code] <= limit && 0 <= t.fitab[code] <= 3584
  }

  lemma Tables16(code: nat)
    requires code < 4
    ensures TablesFit(TablesOf(Rate16), 4, code, 425)
  {
  }

  lemma Tables24(code: nat)
    requires code < 8
    ensures TablesFit(TablesOf(Rate24), 8, code, 425)
  {
  }

  lemma Tables32(code: nat)
    requires code < 16
    ensures TablesFit(TablesOf(Rate32), 16, code, 425)
  {
  }

  lemma Tables40(code: nat)
    requires code < 32
    ensures TablesFit(TablesOf(Rate40), 32, code, 566)
  {
    hide TablesOf;
    DqTab40(code);
    FiTab40(code);
  }

  lemma DqTab40(code: nat)
    requires code < 32
    ensures |TablesOf(Rate40).dqlntab| == 32 && -2048 <= TablesOf(Rate40).dqlntab[code] <= 566
  {
  }

  lemma FiTab40(code: nat)
    requires code < 32
    ensures |TablesOf(Rate40).witab| == |TablesOf(Rate40).fitab| == 32 && 0 <= TablesOf(Rate40).fitab[code] <= 3584
  {
  }

  /** reconstruct: bit 15 of the difference signal holds its sign, the rest its magnitude. */
  function Reconstruct(rate: Rate, code: nat, y: int): (dq: int)
    requires code < Codes(rate) && 544 <= y <= 5120
    ensures IsInt16(dq)
  {
    hide DqLog, TablesOf, ShrNat, Codes, Int16;
    var dql := Int16(DqLog(rate, code, y));
    if dql < 0 then if Negative(rate, code) then -0x8000 else 0
    else
      var dex := (dql / 128) % 16;
      AntilogBounds(dql);
      var dq := Int16(ShrNat((128 + dql % 128) * 128, 14 - dex));
      if Negative(rate, code) then dq - 0x8000 else dq
  }

  /** One more step of the logarithm never lowers the magnitude. */
  lemma AntilogStep(dql: int)
    requires dql < 1919
    ensures Antilog(dql) <= Antilog(dql + 1)
  {
    if dql >= 0 {
      var n := 14 - dql / 128;
      if dql % 128 == 127 {
        Carry(dql);
        ShrMonotone(255 * 128, 2 * (128 * 128), n);
      } else {
        Within(dql);
        ShrMonotone((128 + dql % 128) * 128, (128 + (dql + 1) % 128) * 128, n);
      }
    }
  }

  lemma Carry(dql: nat)
    requires dql % 128 == 127 && dql < 1919
    ensures (dql + 1) % 128 == 0 && (dql + 1) / 128 == dql / 128 + 1
    ensures Antilog(dql + 1) == Shr(2 * (128 * 128), 14 - dql / 128)
  {
  }

  lemma Within(dql: nat)
    requires dql % 128 != 127 && dql < 1919
    ensures (dql + 1) % 128 == dql % 128 + 1 && (dql + 1) / 128 == dql / 128
  {
  }

  lemma {:induction false} AntilogMonotone(lo: int, hi: int)
    requires lo <= hi <= 1919
    ensures Antilog(lo) <= Antilog(hi)
    decreases hi - lo
  {
    hide *;
    if lo < hi {
      AntilogMonotone(lo, hi - 1);
      AntilogStep(hi - 1);
    }
  }

  /** The masks 0x3FFF and 0x7FFF are wide enough for every magnitude that can occur. */
  lemma AntilogBounds(dql: int)
    requires dql <= 1846
    ensures Antilog(dql) < 0x8000
    ensures dql <= 1705 ==> Antilog(dql) < 0x4000
  {
    AntilogMonotone(dql, 1846);
    AntilogSamples();
    if dql <= 1705 {
      AntilogMonotone(dql, 1705);
    }
    hide *;
  }

  lemma AntilogSamples()
    ensures Antilog(1846) == 23296 && Antilog(1705) == 10816
  {
  }

  /** The magnitude that a code stands for. */
  function Magnitude(rate: Rate, code: nat, y: int): (m: nat)
    requires code < Codes(rate) && 544 <= y <= 5120
    ensures m < MagnitudeModulus(rate)
  {
    AntilogBounds(DqLog(rate, code, y));
    Antilog(DqLog(rate, code, y))
  }

  /** The shift of the antilog is never negative, and dq is the magnitude, less 0x8000 for a negative code. */
  lemma ReconstructIs(rate: Rate, code: nat, y: int)
    requires code < Codes(rate) && 544 <= y <= 5120
    ensures DqLog(rate, code, y) >= 0 ==> 0 <= 14 - (DqLog(rate, code, y) / 128) % 16
    ensures Reconstruct(rate, code, y)
         == if Negative(rate, code) then Magnitude(rate, code, y) - 0x8000 else Magnitude(rate, code, y)
  {
    hide TablesOf, DqLog, ShrNat, Codes, Int16;
    var dql := DqLog(rate, code, y);
    if dql >= 0 {
      assert dql / 128 <= 14;
    }
  }

  /** |dq| never falls as the tabulated logarithm of the code rises. */
  lemma MagnitudeMonotone(rate: Rate, c1: nat, c2: nat, y: int)
    requires c1 < Codes(rate) && c2 < Codes(rate) && 544 <= y <= 5120
    requires TablesOf(rate).dqlntab[c1] <= TablesOf(rate).dqlntab[c2]
    ensures Magnitude(rate, c1, y) <= Magnitude(rate, c2, y)
  {
    AntilogMonotone(DqLog(rate, c1, y), DqLog(rate, c2, y));
    hide Antilog;
  }

  /** The reconstructed signal, before it is stored as int16_t. */
  function Rebuilt(rate: Rate, se: int, dq: int): int {
    if dq < 0 then se - dq % MagnitudeModulus(rate) else se + dq
  }

  /** The mask loses nothing: the reconstructed signal is exactly se plus or minus |dq|. */
  lemma RebuiltIsExact(rate: Rate, se: int, code: nat, y: int)
    requires code < Codes(rate) && 544 <= y <= 5120
    ensures Rebuilt(rate, se, Reconstruct(rate, code, y))
         == if Negative(rate, code) then se - Magnitude(rate, code, y) else se + Magnitude(rate, code, y)
  {
    ReconstructIs(rate, code, y);
    MaskIsExact(rate, se, Magnitude(rate, code, y), Negative(rate, code));
    hide *;
  }

  lemma MaskIsExact(rate: Rate, se: int, m: nat, negative: bool)
    requires m < MagnitudeModulus(rate)
    ensures Rebuilt(rate, se, if negative then m - 0x8000 else m) == if negative then se - m else se + m
  {
  }

  // ----- update

  /** The threshold that tells modem data from voice: three quarters of the locked step size. */
  function Threshold(yl: int): (thr: int)
    requires 34816 <= yl <= 327680
  {
    var ylint := yl / 0x8000;
    var ylfrac := (yl / 0x400) % 0x20;
    var thr := Int16(if ylint > 9 then 31 * 1024 else (32 + ylfrac) * Pow2(ylint));
    Int16((thr + thr / 2) / 2)
  }

  /** A tone has just stopped: the predictor must restart. */
  predicate Transition(s: State, dq: int)
    requires s.Valid()
  {
    s.td && dq % 0x8000 > Threshold(s.yl)
  }

  /** LIMB applied to FILTD: the fast scale factor. */
  function NextYu(y: int, wi: int): int {
    Min(Max(Int16(y + (wi - y) / 32), 544), 5120)
  }

  /** FILTE: the slow scale factor. */
  function NextYl(yl: int, yu: int): int {
    yl + yu + (-yl) / 64
  }

  /** UPA2 and LIMC: the second pole coefficient. */
  function NextA2(a1: int, a2: int, dqsez: int, flip1: bool, flip2: bool): int {
    var a2p := a2 - a2 / 128;
    if dqsez == 0 then a2p
    else
      var fa1 := if flip1 then a1 else -a1;
      var moved := if fa1 < -8191 then a2p - 0x100 else if fa1 > 8191 then a2p + 0xFF else a2p + fa1 / 32;
      if flip2 then if moved <= -12160 then -12288 else if moved >= 12416 then 12288 else moved - 0x80
      else if moved <= -12416 then -12288 else if moved >= 12160 then 12288 else moved + 0x80
  }

  /** UPA1 and LIMD: the first pole coefficient, limited by the new second one. */
  function NextA1(a1: int, a2p: int, dqsez: int, flip1: bool): int {
    var decayed := a1 - a1 / 256;
    var moved := if dqsez == 0 then decayed else if flip1 then decayed - 192 else decayed + 192;
    Min(Max(moved, -(15360 - a2p)), 15360 - a2p)
  }

  /** UPB: one zero coefficient. Its int16_t field may wrap. */
  function NextB(rate: Rate, b: int, dq: int, past: int): (r: int)
    ensures IsInt16(r)
  {
    var decayed := Int16(b - b / (if rate == Rate40 then 512 else 256));
    if dq % 0x8000 == 0 then decayed
    else if (dq < 0) == (past < 0) then Int16(decayed + 128)
    else Int16(decayed - 128)
  }

  /** FLOAT: a magnitude as a 4-bit exponent and a 6-bit mantissa. */
  function FloatMagnitude(mag: nat): int {
    var exp := TopBit(mag) + 1;
    exp * 64 + ShrNat(mag * 64, exp)
  }

  /** FLOAT A, for dq, whose sign is bit 15. */
  function FloatA(dq: int): (r: int)
    ensures IsInt16(r)
  {
    var mag := dq % 0x8000;
    Int16(if mag == 0 then if dq >= 0 then 0x20 else 0xFC20
          else if dq >= 0 then FloatMagnitude(mag)
          else FloatMagnitude(mag) - 0x400)
  }

  /** FLOAT B, for the reconstructed signal. */
  function FloatB(sr: int): (r: int)
    ensures IsInt16(r)
  {
    Int16(if sr == 0 then 0x20
          else if sr > 0 then FloatMagnitude(sr)
          else if sr > -0x8000 then FloatMagnitude(-sr) - 0x400
          else 0xFC20)
  }

  function NextDms(dms: int, fi: int): int {
    dms + (fi - dms) / 32
  }

  function NextDml(dml: int, fi: int): int {
    dml + (4 * fi - dml) / 128
  }

  /** The adaptation speed control: towards 512 when the step size should follow quickly. */
  function NextAp(ap: int, tr: bool, y: int, td: bool, dms: int, dml: int): int {
    if tr then 256
    else if y < 1536 || td || Abs(dms * 4 - dml) >= dml / 8 then ap + (0x200 - ap) / 16
    else ap + (-ap) / 16
  }

  function NextZeros(rate: Rate, b: seq<int>, dq: int, past: seq<int>): (r: seq<int>)
    requires |b| == |past|
    ensures |r| == |b|
  {
    seq(|b|, i requires 0 <= i < |b| => NextB(rate, b[i], dq, past[i]))
  }

  /** The poles after one sample. */
  function NextPoles(s: State, tr: bool, dqsez: int): (a: seq<int>)
    requires s.Valid()
    ensures |a| == 2
  {
    if tr then [0, 0]
    else
      var pk0 := dqsez < 0;
      var a2p := NextA2(s.a[0], s.a[1], dqsez, pk0 != s.pk[0], pk0 != s.pk[1]);
      [NextA1(s.a[0], a2p, dqsez, pk0 != s.pk[0]), a2p]
  }

  /** update: the state after one sample. */
  function Update(rate: Rate, s: State, y: int, wi: int, fi: int, dq: int, sr: int, dqsez: int): (r: State)
    requires s.Valid()
  {
    var tr := Transition(s, dq);
    var yu := NextYu(y, wi);
    var a := NextPoles(s, tr, dqsez);
    var td := !tr && a[1] < -11776;
    var dms, dml := NextDms(s.dms, fi), NextDml(s.dml, fi);
    State(NextYl(s.yl, yu), yu, dms, dml, NextAp(s.ap, tr, y, td, dms, dml),
          a, if tr then [0, 0, 0, 0, 0, 0] else NextZeros(rate, s.b, dq, s.dq),
          [dqsez < 0, s.pk[0]], [FloatA(dq)] + s.dq[..5], [FloatB(sr), s.sr[0]], td)
  }

  lemma PolesInRange(a1: int, a2: int, dqsez: int, flip1: bool, flip2: bool)
    requires -12288 <= a2 <= 12288 && Abs(a1) <= 15360 - a2
    ensures -12288 <= NextA2(a1, a2, dqsez, flip1, flip2) <= 12288
    ensures Abs(NextA1(a1, NextA2(a1, a2, dqsez, flip1, flip2), dqsez, flip1))
         <= 15360 - NextA2(a1, a2, dqsez, flip1, flip2)
  {
  }

  lemma ScaleInRange(yl: int, y: int, wi: int)
    requires 34816 <= yl <= 327680
    ensures 544 <= NextYu(y, wi) <= 5120
    ensures 34816 <= NextYl(yl, NextYu(y, wi)) <= 327680
  {
  }

  lemma SpeedInRange(ap: int, tr: bool, y: int, td: bool, dms: int, dml: int, fi: int)
    requires 0 <= ap <= 512 && 0 <= dms <= 3584 && 0 <= dml <= 14336 && 0 <= fi <= 3584
    ensures 0 <= NextAp(ap, tr, y, td, NextDms(dms, fi), NextDml(dml, fi)) <= 512
    ensures 0 <= NextDms(dms, fi) <= 3584
    ensures 0 <= NextDml(dml, fi) <= 14336
  {
  }

  /** Every update keeps the poles stable and the scale factors in range. */
  lemma UpdateKeepsValid(rate: Rate, s: State, y: int, wi: int, fi: int, dq: int, sr: int, dqsez: int)
    requires s.Valid() && 0 <= fi <= 3584
    ensures Update(rate, s, y, wi, fi, dq, sr, dqsez).Valid()
  {
    var pk0 := dqsez < 0;
    PolesInRange(s.a[0], s.a[1], dqsez, pk0 != s.pk[0], pk0 != s.pk[1]);
    ScaleInRange(s.yl, y, wi);
    var tr := Transition(s, dq);
    SpeedInRange(s.ap, tr, y, !tr && NextPoles(s, tr, dqsez)[1] < -11776, s.dms, s.dml, fi);
    hide NextA1, NextA2, NextYu, NextYl, NextAp, NextDms, NextDml, FloatA, FloatB, Transition, NextZeros;
  }

  // ----- one sample

  /** What both ends do with a code: the reconstructed signal, and the state after it. */
  function Signal(rate: Rate, s: State, code: nat): (sr: int)
    requires s.Valid() && code < Codes(rate)
    ensures IsInt16(sr)
  {
    Int16(Rebuilt(rate, Estimate(s), Reconstruct(rate, code, StepSize(s))))
  }

  function Adapted(rate: Rate, s: State, code: nat): (r: State)
    requires s.Valid() && code < Codes(rate)
    ensures r.Valid()
  {
    var y := StepSize(s);
    var sr := Signal(rate, s, code);
    var t := TablesOf(rate);
    FiInRange(rate, code);
    var dqsez := Int16(sr + PredictorZero(s) / 2 - Estimate(s));
    UpdateKeepsValid(rate, s, y, t.witab[code], t.fitab[code], Reconstruct(rate, code, y), sr, dqsez);
    Update(rate, s, y, t.witab[code], t.fitab[code], Reconstruct(rate, code, y), sr, dqsez)
  }

  lemma FiInRange(rate: Rate, code: nat)
    requires code < Codes(rate)
    ensures |TablesOf(rate).witab| == |TablesOf(rate).fitab| == |TablesOf(rate).dqlntab| == Codes(rate)
    ensures 0 <= TablesOf(rate).fitab[code] <= 3584
  {
    hide TablesOf;
    match rate {
      case Rate16 => Tables16(code);
      case Rate24 => Tables24(code);
      case Rate32 => Tables32(code);
      case Rate40 => Tables40(code);
    }
  }

  /** The code of one sample of 14-bit linear PCM. */
  function CodeOf(rate: Rate, s: State, amp: int): (code: nat)
    requires s.Valid() && -0x2000 <= amp <= 0x1FFF
    ensures code < Codes(rate)
  {
    Quantize(rate, amp - Estimate(s), StepSize(s))
  }

  /** The state once the codes have been processed. */
  function StateAfter(rate: Rate, codes: seq<nat>): (s: State)
    requires forall i :: 0 <= i < |codes| ==> codes[i] < Codes(rate)
    ensures s.Valid()
  {
    if codes == [] then Initial() else Adapted(rate, StateAfter(rate, codes[..|codes| - 1]), codes[|codes| - 1])
  }
}
