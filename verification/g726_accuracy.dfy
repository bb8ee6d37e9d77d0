/** How far the decoder of src/g726.c is from the encoder: each code is decoded within its own quantizer interval. */
module G726Accuracy {
  import opened Arith
  import opened Bits
  import opened G726
  import opened G726Adapt

  // ----- the quantizing and the reconstruction tables agree

  /** The quantizer level of a code. */
  function LevelOf(rate: Rate, code: nat): int {
    if Negative(rate, code) then Codes(rate) - 1 - code else code
  }

  /** The tabulated logarithm of a code lies in the decision interval of its level. */
  predicate Agrees(t: Tables, code: nat, level: nat) {
    && code < |t.dqlntab| && level <= |t.qtab|
    && (level > 0 ==> t.qtab[level - 1] <= t.dqlntab[code])
    && (level < |t.qtab| ==> t.dqlntab[code] < t.qtab[level])
  }

  lemma Agrees16(code: nat)
    requires code < 4
    ensures Agrees(TablesOf(Rate16), code, if code >= 2 then 3 - code else code)
  {
  }

  lemma Agrees24(code: nat)
    requires code < 8
    ensures Agrees(TablesOf(Rate24), code, if code >= 4 then 7 - code else code)
  {
  }

  lemma Agrees32(code: nat)
    requires code < 16
    ensures Agrees(TablesOf(Rate32), code, if code >= 8 then 15 - code else code)
  {
  }

  lemma Agrees40Positive(code: nat)
    requires code < 16
    ensures Agrees(TablesOf(Rate40), code, code)
  {
  }

  lemma Agrees40Negative(code: nat)
    requires 16 <= code < 32
    ensures Agrees(TablesOf(Rate40), code, 31 - code)
  {
  }

  lemma Sorted(rate: Rate, i: nat)
    requires i + 1 < |TablesOf(rate).qtab|
    ensures TablesOf(rate).qtab[i] < TablesOf(rate).qtab[i + 1]
  {
  }

  lemma AllAgree(rate: Rate, code: nat)
    requires code < Codes(rate)
    ensures 0 <= LevelOf(rate, code) && Agrees(TablesOf(rate), code, LevelOf(rate, code))
  {
    hide TablesOf, Agrees;
    match rate {
      case Rate16 => Agrees16(code);
      case Rate24 => Agrees24(code);
      case Rate32 => Agrees32(code);
      case Rate40 =>
        if code < 16 {
          Agrees40Positive(code);
        } else {
          Agrees40Negative(code);
        }
    }
  }

  lemma {:induction false} SortedTo(rate: Rate, i: nat, j: nat)
    requires i <= j < |TablesOf(rate).qtab|
    ensures TablesOf(rate).qtab[i] <= TablesOf(rate).qtab[j]
    decreases j - i
  {
    hide TablesOf;
    if i < j {
      SortedTo(rate, i, j - 1);
      Sorted(rate, j - 1);
    }
  }

  /** The quantizer finds the level of a code from the logarithm that the code is reconstructed with. */
  lemma FindsLevel(rate: Rate, code: nat)
    requires code < Codes(rate)
    ensures code < |TablesOf(rate).dqlntab|
    ensures Find(TablesOf(rate).dqlntab[code], TablesOf(rate).qtab) == LevelOf(rate, code)
  {
    AllAgree(rate, code);
    hide TablesOf, LevelOf, Find;
    var x, table, level := TablesOf(rate).dqlntab[code], TablesOf(rate).qtab, LevelOf(rate, code);
    var found := Find(x, table);
    if found < level {
      SortedTo(rate, found, level - 1);
    }
  }

  // ----- the antilogarithm undoes the logarithm

  lemma {:induction false} Pow2Order(a: nat, b: nat)
    requires Pow2(a) < Pow2(b)
    ensures a < b
  {
    if a > 0 && b > 0 {
      Pow2Order(a - 1, b - 1);
    }
  }

  lemma TopAtMost(x: nat, e: nat)
    requires 0 < x < 2 * Pow2(e)
    ensures TopBit(x) <= e
  {
    TopBitBounds(x);
    Doubling(e);
    hide TopBit, Pow2;
    Pow2Order(TopBit(x), e + 1);
  }

  lemma TopAtLeast(x: nat, e: nat)
    requires Pow2(e) <= x
    ensures TopBit(x) >= e
  {
    TopBitBounds(x);
    Doubling(TopBit(x));
    hide TopBit, Pow2;
    Pow2Order(e, TopBit(x) + 1);
  }

  lemma Doubling(e: nat)
    ensures Pow2(e + 1) == 2 * Pow2(e)
  {
  }

  lemma BelowMultiple(v: nat, q: nat, e: nat)
    requires v < Pow2(e) * q
    ensures Shr(v, e) < q
  {
    ShrLow(v, e);
    QuotientBelow(v, Shr(v, e), Pow2(e), q, Low(v, e));
  }

  lemma QuotientBelow(v: nat, s: nat, p: nat, q: nat, low: nat)
    requires v == low + s * p && v < p * q
    ensures s < q
  {
    hide *;
    assert p * (q - s) > 0;
  }

  lemma AboveMultiple(v: nat, q: nat, e: nat)
    requires Pow2(e) * q <= v
    ensures q <= Shr(v, e)
  {
    ShrMultiple(q, e);
    ShrMonotone(q * Pow2(e), v, e);
  }

  lemma LogAtMost(x: nat, e: nat, g: nat)
    requires x > 0 && g < 128 && 128 * x < Pow2(e) * (129 + g)
    ensures Log(x) <= 128 * e + g
  {
    LogIs(x);
    hide Log, TopBit, Shr, Pow2;
    AtMostDouble(x, Pow2(e), g);
    TopAtMost(x, e);
    if TopBit(x) == e {
      BelowMultiple(x * 128, 129 + g, e);
    }
  }

  lemma AtMostDouble(x: nat, p: nat, g: nat)
    requires g < 128 && 128 * x < p * (129 + g)
    ensures x < 2 * p
  {
    hide *;
    assert p * (127 - g) >= 0;
  }

  lemma LogAtLeast(x: nat, e: nat, g: nat)
    requires g < 128 && Pow2(e) * (128 + g) <= 128 * x
    ensures Log(x) >= 128 * e + g
  {
    hide Log, TopBit, Shr, Pow2;
    AtLeastOnce(x, Pow2(e), g);
    LogIs(x);
    TopAtLeast(x, e);
    if TopBit(x) == e {
      AboveMultiple(x * 128, 128 + g, e);
    }
  }

  lemma AtLeastOnce(x: nat, p: nat, g: nat)
    requires p > 0 && p * (128 + g) <= 128 * x
    ensures p <= x
  {
    hide *;
    assert p * g >= 0;
  }

  /** The antilogarithm of l, and the next number, enclose l; and from 7 bits on nothing is lost. */
  lemma AntilogUndoesLog(l: nat)
    requires l <= 1919
    ensures Antilog(l) > 0 && Log(Antilog(l)) <= l <= Log(Antilog(l) + 1)
    ensures l >= 896 ==> Log(Antilog(l)) == l
  {
    var e, f, m := l / 128, l % 128, Antilog(l);
    AntilogIs(e, f, m);
    hide Log, Antilog, Pow2;
    LogAtMost(m, e, f);
    LogAtLeast(m + 1, e, f);
    if e >= 7 {
      LogAtLeast(m, e, f);
    }
  }

  lemma AntilogIs(e: nat, f: nat, m: nat)
    requires e <= 14 && f < 128 && m == ShrNat((128 + f) * 128, 14 - e)
    ensures m > 0 && 128 * m <= Pow2(e) * (128 + f) < 128 * (m + 1)
    ensures e >= 7 ==> 128 * m == Pow2(e) * (128 + f)
    ensures Pow2(e) * (128 + f) < Pow2(e) * (129 + f)
  {
    Pow2Add(e, 14 - e);
    assert Pow2(14) == 16384;
    ShrBounds((128 + f) * 128, 14 - e);
    Scales(Pow2(e), Pow2(14 - e), m, 128 + f);
    if e >= 7 {
      Pow2Add(14 - e, e - 7);
      Pow2Add(7, e - 7);
      assert Pow2(7) == 128;
      ScalesExactly(Pow2(e), Pow2(14 - e), Pow2(e - 7), m, 128 + f);
    }
    hide Pow2, ShrNat, Shr;
    assert Pow2(e) * (129 + f) == Pow2(e) * (128 + f) + Pow2(e);
  }

  lemma Scales(p: nat, q: nat, m: nat, g: nat)
    requires p * q == 16384 && 128 <= g && q * m <= g * 128 < q * m + q
    ensures m > 0 && 128 * m <= p * g < 128 * (m + 1)
  {
    hide *;
    assert p > 0 && q > 0;
    assert q <= 16384;
    assert p * (q * m) == 16384 * m && p * (g * 128) == 128 * (p * g) && p * (q * m + q) == 16384 * m + 16384;
    assert p * (q * m) <= p * (g * 128) < p * (q * m + q);
  }

  lemma ScalesExactly(p: nat, q: nat, r: nat, m: nat, g: nat)
    requires q > 0 && q * r == 128 && p == 128 * r && q * m <= g * 128 < q * m + q
    ensures 128 * m == p * g
  {
    hide *;
    assert g * 128 == q * (g * r);
    Between(q, m, g * r);
  }

  lemma Between(q: nat, m: nat, n: nat)
    requires q > 0 && q * m <= q * n < q * m + q
    ensures m == n
  {
    hide *;
    assert q * (n - m) == q * n - q * m;
    Multiples(q, n - m);
  }

  // ----- a reconstructed difference is in the interval of the one that was quantized

  /** The level of a magnitude. */
  function LevelAt(rate: Rate, magnitude: nat, y: int): nat {
    Find(Log(magnitude) - y / 4, TablesOf(rate).qtab)
  }

  /** A logarithm between those of two magnitudes has a level between theirs. */
  lemma LevelBetween(rate: Rate, m: nat, l: int, y: int)
    ensures Log(m) <= l ==> LevelAt(rate, m, y) <= Find(l - y / 4, TablesOf(rate).qtab)
    ensures l <= Log(m) ==> Find(l - y / 4, TablesOf(rate).qtab) <= LevelAt(rate, m, y)
  {
    hide Find, Log, TablesOf;
    if Log(m) <= l {
      FindMonotone(Log(m) - y / 4, l - y / 4, TablesOf(rate).qtab);
    }
    if l <= Log(m) {
      FindMonotone(l - y / 4, Log(m) - y / 4, TablesOf(rate).qtab);
    }
  }

  /**
   * The magnitude that a code stands for, and the next number, enclose the decision interval of its level; from 7 bits
   * on the magnitude itself is of that level.
   */
  lemma Requantizes(rate: Rate, code: nat, y: int)
    requires code < Codes(rate) && 544 <= y <= 5120
    ensures var m, level := Magnitude(rate, code, y), LevelOf(rate, code);
      && (DqLog(rate, code, y) >= 0 ==> LevelAt(rate, m, y) <= level <= LevelAt(rate, m + 1, y))
      && (DqLog(rate, code, y) >= 896 ==> LevelAt(rate, m, y) == level)
      && (DqLog(rate, code, y) < 0 ==> m == 0 && level <= LevelAt(rate, 0, y))
  {
    hide *;
    FindsLevel(rate, code);
    DqLogIs(rate, code, y);
    Reenters(rate, DqLog(rate, code, y), y);
  }

  lemma Reenters(rate: Rate, l: int, y: int)
    requires l <= 1919
    ensures var m, level := Antilog(l), Find(l - y / 4, TablesOf(rate).qtab);
      && (l >= 0 ==> LevelAt(rate, m, y) <= level <= LevelAt(rate, m + 1, y))
      && (l >= 896 ==> LevelAt(rate, m, y) == level)
      && (l < 0 ==> m == 0 && level <= LevelAt(rate, 0, y))
  {
    assert l < 0 ==> Antilog(l) == 0;
    hide *;
    LevelBetween(rate, Antilog(l), l, y);
    LevelBetween(rate, Antilog(l) + 1, l, y);
    if l >= 0 {
      AntilogUndoesLog(l);
    } else {
      LogOfZero();
    }
  }

  lemma DqLogIs(rate: Rate, code: nat, y: int)
    requires code < Codes(rate) && 544 <= y <= 5120
    ensures code < |TablesOf(rate).dqlntab| && TablesOf(rate).dqlntab[code] == DqLog(rate, code, y) - y / 4
    ensures DqLog(rate, code, y) <= 1919
    ensures Magnitude(rate, code, y) == Antilog(DqLog(rate, code, y))
  {
    DqTabBounds(rate, code);
    hide TablesOf, Antilog;
  }

  lemma QuantizedLevel(rate: Rate, d: int, y: int)
    requires -0x7FFF <= d <= 0x7FFF
    ensures var c := Quantize(rate, d, y);
      && LevelOf(rate, c) == LevelAt(rate, Abs(d), y)
      && (d < 0 ==> Negative(rate, c)) && (d >= 0 && Negative(rate, c) ==> rate != Rate16 && c == Codes(rate) - 1)
  {
    SignedQuantize(rate, d, y);
    LevelSame(rate, d, y);
    hide Quantize, Level, LevelAt;
  }

  lemma LevelSame(rate: Rate, d: int, y: int)
    ensures Level(rate, d, y) == LevelAt(rate, Abs(d), y)
  {
    hide Find, Log, TablesOf;
  }

  /** The code that stands in for level 0 of a positive difference has no magnitude. */
  lemma LastCode(rate: Rate, y: int)
    requires rate != Rate16 && 544 <= y <= 5120
    ensures Magnitude(rate, Codes(rate) - 1, y) == 0
  {
    assert TablesOf(rate).dqlntab[Codes(rate) - 1] == -2048;
    DqLogIs(rate, Codes(rate) - 1, y);
    hide TablesOf, Magnitude, DqLog;
  }

  /** A signed difference and a magnitude enclose the same decision interval, on the same side of zero. */
  predicate Encloses(rate: Rate, e: int, d: int, y: int) {
    && LevelAt(rate, Abs(e), y) <= LevelAt(rate, Abs(d), y) <= LevelAt(rate, Abs(e) + 1, y)
    && (e > 0 ==> d >= 0) && (e < 0 ==> d < 0)
  }

  /** What the code of a difference is reconstructed as. */
  function Rebuilds(rate: Rate, code: nat, y: int): int
    requires code < Codes(rate) && 544 <= y <= 5120
  {
    var m: int := Magnitude(rate, code, y);
    if Negative(rate, code) then -m else m
  }

  /** Reconstruction undoes the quantizer: the difference is rebuilt within its own decision interval. */
  lemma UndoesQuantizer(rate: Rate, d: int, y: int)
    requires -0x7FFF <= d <= 0x7FFF && 544 <= y <= 5120
    ensures Encloses(rate, Rebuilds(rate, Quantize(rate, d, y), y), d, y)
  {
    hide *;
    var c := Quantize(rate, d, y);
    QuantizedLevel(rate, d, y);
    Requantizes(rate, c, y);
    LevelsRise(rate, 0, Abs(d), y);
    LevelsRise(rate, 0, 1, y);
    if d >= 0 && Negative(rate, c) {
      LastCode(rate, y);
    }
    Enclosed(rate, d, y, Magnitude(rate, c, y), Negative(rate, c));
    RebuildsIs(rate, c, y);
  }

  lemma RebuildsIs(rate: Rate, code: nat, y: int)
    requires code < Codes(rate) && 544 <= y <= 5120
    ensures var m: int := Magnitude(rate, code, y); Rebuilds(rate, code, y) == if Negative(rate, code) then -m else m
  {
    hide Magnitude;
  }

  lemma Enclosed(rate: Rate, d: int, y: int, m: int, negative: bool)
    requires m >= 0 && LevelAt(rate, m, y) <= LevelAt(rate, Abs(d), y) <= LevelAt(rate, m + 1, y)
    requires (d < 0 ==> negative) && (d >= 0 && negative ==> m == 0)
    ensures Encloses(rate, if negative then -m else m, d, y)
  {
    hide LevelAt;
  }

  lemma LevelsRise(rate: Rate, m: nat, n: nat, y: int)
    requires m <= n
    ensures LevelAt(rate, m, y) <= LevelAt(rate, n, y)
  {
    hide Find, Log, TablesOf;
    LogMonotone(m, n);
    FindMonotone(Log(m) - y / 4, Log(n) - y / 4, TablesOf(rate).qtab);
  }

  // ----- one sample

  lemma LargestMagnitude(rate: Rate, code: nat, y: int)
    requires code < Codes(rate) && 544 <= y <= 5120
    ensures Magnitude(rate, code, y) <= 23296
  {
    DqTabBounds(rate, code);
    assert DqLog(rate, code, y) <= 1846;
    DqLogIs(rate, code, y);
    hide TablesOf, Antilog, DqLog, Magnitude;
    AntilogMonotone(DqLog(rate, code, y), 1846);
    AntilogSamples();
  }

  /** The signal sr rebuilt for a 14-bit sample x is, about the common estimate, within the decision interval of x. */
  predicate Near(rate: Rate, s: State, x: int, sr: int)
    requires s.Valid()
  {
    Encloses(rate, sr - Estimate(s), x - Estimate(s), StepSize(s))
  }

  lemma SignalNear(rate: Rate, s: State, x: int)
    requires s.Valid() && -0x2000 <= x <= 0x1FFF
    ensures Near(rate, s, x, Signal(rate, s, CodeOf(rate, s, x)))
  {
    hide *;
    var se, y, c := Estimate(s), StepSize(s), CodeOf(rate, s, x);
    CodeIs(rate, s, x);
    UndoesQuantizer(rate, x - se, y);
    LargestMagnitude(rate, c, y);
    SignsOf(rate, x - se, Rebuilds(rate, c, y), y);
    SignalIs(rate, s, c, x);
    NearIs(rate, s, x, Signal(rate, s, c));
  }

  lemma CodeIs(rate: Rate, s: State, x: int)
    requires s.Valid() && -0x2000 <= x <= 0x1FFF
    ensures -0x7FFF <= x - Estimate(s) <= 0x7FFF
    ensures CodeOf(rate, s, x) == Quantize(rate, x - Estimate(s), StepSize(s))
  {
    hide Estimate, StepSize, Quantize;
  }

  lemma NearIs(rate: Rate, s: State, x: int, sr: int)
    requires s.Valid() && Encloses(rate, sr - Estimate(s), x - Estimate(s), StepSize(s))
    ensures Near(rate, s, x, sr)
  {
    hide Estimate, StepSize, Encloses;
  }

  /** The sum fits, because the estimate is on the near side of the sample. */
  lemma SignalIs(rate: Rate, s: State, c: nat, x: int)
    requires s.Valid() && c < Codes(rate) && -0x2000 <= x <= 0x1FFF && Magnitude(rate, c, StepSize(s)) <= 23296
    requires var e, d := Rebuilds(rate, c, StepSize(s)), x - Estimate(s); (e > 0 ==> d >= 0) && (e < 0 ==> d < 0)
    ensures Signal(rate, s, c) == Estimate(s) + Rebuilds(rate, c, StepSize(s))
  {
    hide Estimate, StepSize, Magnitude, Rebuilt, Reconstruct, Codes, Negative;
    RebuiltIsExact(rate, Estimate(s), c, StepSize(s));
    assert IsInt16(Estimate(s) + Rebuilds(rate, c, StepSize(s)));
  }

  lemma SignsOf(rate: Rate, d: int, e: int, y: int)
    requires Encloses(rate, e, d, y)
    ensures (e > 0 ==> d >= 0) && (e < 0 ==> d < 0)
  {
  }
}
