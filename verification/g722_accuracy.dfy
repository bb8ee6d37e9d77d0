/** How far the decoder of src/g722.c is from the encoder: each code is decoded within its own quantizer interval. */
module G722Accuracy {
  import opened Arith
  import opened Bits
  import opened G722Band
  import opened G722

  // ----- the intervals that codes of b bits tell apart

  /** The interval of quantizer level i: codes of 7 and 6 bits join two and four of those of 8 bits. */
  function Cell(b: Width, i: nat): nat {
    if b == 8 then i else if b == 7 then (i + 1) / 2 else (i + 1) / 4
  }

  /** The thresholds that bound it; the last interval has no upper one, for which 30 stands. */
  function Bottom(b: Width, k: nat): (t: int)
  {
    if b == 8 then k - 1 else if b == 7 then 2 * k - 2 else if k == 0 then 0 else 4 * k - 2
  }

  function Top(b: Width, k: nat): nat {
    if b == 8 then k else if b == 7 then 2 * k else 4 * k + 2
  }

  lemma CellOf(b: Width, i: nat)
    requires 1 <= i <= 30
    ensures 0 <= Bottom(b, Cell(b, i)) < i <= Top(b, Cell(b, i)) <= 30
  {
  }

  /** The size of a difference, for a scale factor of 0x8000, that a positive code of interval k stands for. */
  function Magnitude(b: Width, k: nat): int
    requires k <= 30 && (b == 7 ==> k <= 15) && (b == 6 ==> k <= 7)
  {
    if b == 8 then QM6[62 - k] else if b == 7 then QM5[31 - k] else QM4[15 - k]
  }

  lemma CellRange(b: Width, i: nat)
    requires 1 <= i <= 30
    ensures var k := Cell(b, i); k <= 30 && (b == 8 ==> k >= 1) && (b == 7 ==> 1 <= k <= 15) && (b == 6 ==> k <= 7)
  {
  }

  // ----- the tables agree

  lemma CodeIs(i: nat)
    requires 1 <= i <= 30
    ensures ILP[i] == 62 - i && ILN[i] == if i <= 2 then 64 - i else 34 - i
  {
  }

  /** The magnitude lies between the thresholds, which are given for a scale factor of 0x1000. */
  predicate Between(b: Width, k: nat)
    requires k <= 30 && (b == 7 ==> 1 <= k <= 15) && (b == 6 ==> k <= 7) && (b == 8 ==> k >= 1)
  {
    && 8 * Q6[Bottom(b, k)] <= Magnitude(b, k) <= 24808
    && (Top(b, k) < 30 ==> Magnitude(b, k) <= 8 * Q6[Top(b, k)])
  }

  lemma Between8Small(k: nat)
    requires 1 <= k <= 14
    ensures Between(8, k)
  {
  }

  lemma Between8Low(k: nat)
    requires 15 <= k <= 18
    ensures Between(8, k)
  {
  }

  lemma Between8High(k: nat)
    requires 19 <= k <= 22
    ensures Between(8, k)
  {
  }

  lemma Between8Large(k: nat)
    requires 23 <= k <= 30
    ensures Between(8, k)
  {
  }

  lemma Between7Small(k: nat)
    requires 1 <= k <= 8
    ensures Between(7, k)
  {
  }

  lemma Between7Large(k: nat)
    requires 9 <= k <= 15
    ensures Between(7, k)
  {
  }

  lemma Between6(k: nat)
    requires k <= 7
    ensures Between(6, k)
  {
  }

  lemma AllBetween(b: Width, i: nat)
    requires 1 <= i <= 30
    ensures Cell(b, i) <= 30 && (b == 8 ==> Cell(b, i) >= 1) && (b == 7 ==> 1 <= Cell(b, i) <= 15)
    ensures b == 6 ==> Cell(b, i) <= 7
    ensures Between(b, Cell(b, i))
  {
    hide Between;
    if b == 7 {
      if i <= 16 {
        Between7Small(Cell(b, i));
      } else {
        Between7Large(Cell(b, i));
      }
    } else if b == 6 {
      Between6(Cell(b, i));
    } else if i <= 14 {
      Between8Small(i);
    } else if i <= 18 {
      Between8Low(i);
    } else if i <= 22 {
      Between8High(i);
    } else {
      Between8Large(i);
    }
  }

  lemma Opposite8Small(k: nat)
    requires 1 <= k <= 14
    ensures QM6[if k <= 2 then 64 - k else 34 - k] == -QM6[62 - k]
  {
  }

  lemma Opposite8Large(k: nat)
    requires 15 <= k <= 30
    ensures QM6[34 - k] == -QM6[62 - k]
  {
  }

  lemma Opposite7(k: nat)
    requires 1 <= k <= 15
    ensures QM5[if k == 1 then 31 else 17 - k] == -QM5[31 - k]
  {
  }

  lemma Opposite6(k: nat)
    requires k <= 7
    ensures QM4[if k == 0 then 15 else 8 - k] == -QM4[15 - k]
  {
  }

  /** The code of b bits of interval k. */
  function CodeOf(b: Width, k: nat, negative: bool): int {
    if b == 8 then if !negative then 62 - k else if k <= 2 then 64 - k else 34 - k
    else if b == 7 then if !negative then 31 - k else if k == 1 then 31 else 17 - k
    else if negative && k > 0 then 8 - k else 15 - k
  }

  /** The codes of a level, cut to b bits, are those of its interval. */
  lemma CutCode(b: Width, i: nat, negative: bool)
    requires 1 <= i <= 30
    ensures Cut(b, LevelCode(i, negative)) == CodeOf(b, Cell(b, i), negative)
  {
    CodeIs(i);
    CutIs(b, LevelCode(i, negative));
    hide ILN, ILP, Cut;
  }

  predicate Stands(b: Width, k: nat, negative: bool)
    requires k <= 30 && (b == 7 ==> k <= 15) && (b == 6 ==> k <= 7)
  {
    CodeOf(b, k, negative) >= 0
    && LowValue(b, CodeOf(b, k, negative)) == if negative then -Magnitude(b, k) else Magnitude(b, k)
  }

  lemma Stands8(k: nat, negative: bool)
    requires 1 <= k <= 30
    ensures Stands(8, k, negative)
  {
    hide QM6, QM5, QM4;
    if k <= 14 {
      Opposite8Small(k);
    } else {
      Opposite8Large(k);
    }
  }

  lemma Stands7(k: nat, negative: bool)
    requires 1 <= k <= 15
    ensures Stands(7, k, negative)
  {
    hide QM6, QM5, QM4;
    Opposite7(k);
  }

  lemma Stands6(k: nat, negative: bool)
    requires k <= 7
    ensures Stands(6, k, negative)
  {
    hide QM6, QM5, QM4;
    Opposite6(k);
  }

  /** The code of a level stands for the magnitude of its interval, with the right sign. */
  lemma CodeValue(b: Width, i: nat, negative: bool)
    requires 1 <= i <= 30
    ensures Cell(b, i) <= 30 && (b == 7 ==> Cell(b, i) <= 15) && (b == 6 ==> Cell(b, i) <= 7)
    ensures LowValue(b, Cut(b, LevelCode(i, negative)))
         == if negative then -Magnitude(b, Cell(b, i)) else Magnitude(b, Cell(b, i))
  {
    CellRange(b, i);
    hide Cell, CodeOf, Magnitude, LowValue, Cut, LevelCode;
    CutCode(b, i, negative);
    if b == 8 {
      Stands8(Cell(b, i), negative);
    } else if b == 7 {
      Stands7(Cell(b, i), negative);
    } else {
      Stands6(Cell(b, i), negative);
    }
  }

  // ----- the decoder undoes the quantizer

  lemma Rises(i: nat)
    requires 1 <= i < 29
    ensures Q6[i] <= Q6[i + 1]
  {
  }

  lemma {:induction false} RisesTo(i: nat, j: nat)
    requires 1 <= i <= j <= 29
    ensures Q6[i] <= Q6[j]
    decreases j - i
  {
    hide Q6;
    if i < j {
      RisesTo(i, j - 1);
      Rises(j - 1);
    }
  }

  lemma DivMonotone(x: int, y: int, m: nat)
    requires x <= y && m > 0
    ensures x / m <= y / m
  {
    if x / m > y / m {
      Above(x / m, y / m + 1, m);
    }
  }

  lemma Above(x: int, y: int, m: nat)
    requires x >= y
    ensures m * x >= m * y
  {
  }

  lemma ThresholdMonotone(det: nat, i: nat, j: nat)
    requires i < 32 && j < 32 && Q6[i] <= Q6[j]
    ensures Threshold(det, i) <= Threshold(det, j)
  {
    RatioMonotone(Q6[i], Q6[j], det);
  }

  lemma RatioMonotone(p: int, q: int, det: nat)
    requires p <= q
    ensures (p * det) / 4096 <= (q * det) / 4096
  {
    hide *;
    assert (q - p) * det >= 0;
    DivMonotone(p * det, q * det, 4096);
  }

  /** A magnitude between two thresholds stays so when it is scaled. */
  lemma ScaledBetween(det: nat, m: int, t: nat)
    requires t < 32
    ensures 8 * Q6[t] <= m ==> Threshold(det, t) <= (det * m) / 0x8000
    ensures m <= 8 * Q6[t] ==> (det * m) / 0x8000 <= Threshold(det, t)
  {
    ScaledRatio(det, m, Q6[t]);
  }

  lemma ScaledRatio(det: nat, m: int, q: int)
    ensures 8 * q <= m ==> (q * det) / 4096 <= (det * m) / 0x8000
    ensures m <= 8 * q ==> (det * m) / 0x8000 <= (q * det) / 4096
  {
    hide *;
    Eighths(q, det);
    if 8 * q <= m {
      assert (m - 8 * q) * det >= 0;
      DivMonotone(det * (8 * q), det * m, 0x8000);
    }
    if m <= 8 * q {
      assert (8 * q - m) * det >= 0;
      DivMonotone(det * m, det * (8 * q), 0x8000);
    }
  }

  lemma Eighths(q: int, det: int)
    ensures (det * (8 * q)) / 0x8000 == (q * det) / 4096
  {
    assert det * (8 * q) == 8 * (q * det);
    EighthsOf(q * det);
  }

  lemma EighthsOf(x: int)
    ensures (8 * x) / 0x8000 == x / 4096
  {
    hide *;
  }

  /** Negated, a floor is at most one further from zero. */
  lemma NegatedFloor(x: int)
    ensures x / 0x8000 <= -((-x) / 0x8000) <= x / 0x8000 + 1
  {
    hide *;
  }

  /** The quantizer's search: the difference lies in the interval of its level. */
  lemma InInterval(b: Width, det: nat, el: int)
    ensures var k := Cell(b, Level(Fold(el), det, 1));
      && 0 <= Bottom(b, k) < Top(b, k) <= 30 && Threshold(det, Bottom(b, k)) <= Fold(el)
      && (Top(b, k) < 30 ==> Fold(el) < Threshold(det, Top(b, k)))
  {
    var i := Level(Fold(el), det, 1);
    var k := Cell(b, i);
    CellOf(b, i);
    assert Q6[0] == 0;
    hide Q6, Level, Threshold, Cell, Bottom, Top, Fold;
    if Bottom(b, k) == 0 {
      NoThreshold(det);
    }
    if Top(b, k) < 30 {
      RisesTo(i, Top(b, k));
      ThresholdMonotone(det, i, Top(b, k));
    }
  }

  lemma NoThreshold(det: nat)
    ensures Threshold(det, 0) == 0
  {
  }

  /** The size of a difference of either sign. */
  function Size(dx: int, negative: bool): int {
    if negative then -dx else dx
  }

  /** It lies in interval k, up to one for the rounding of negative numbers; the last one ends at det. */
  predicate Within(b: Width, det: int, k: nat, size: int, negative: bool) {
    && 0 <= Bottom(b, k) < Top(b, k) <= 30 && Threshold(det, Bottom(b, k)) <= size <= det
    && (Top(b, k) < 30 ==> size <= Threshold(det, Top(b, k)) + if negative then 1 else 0)
  }

  /**
   * The difference that a cut code stands for lies in the interval of the one that was encoded, and on the same side of
   * zero.
   */
  lemma UndoesQuantizer(b: Width, det: nat, el: int)
    ensures Within(b, det, Cell(b, Level(Fold(el), det, 1)),
                   Size(LowDifference(b, det, Cut(b, LowCode(det, el))), el < 0), el < 0)
  {
    LowCodeIs(det, el);
    hide LowCode, LevelCode, LowDifference, Within, Fold, Cell, Cut;
    UndoesLevel(b, det, Level(Fold(el), det, 1), el < 0);
  }

  lemma LowCodeIs(det: int, el: int)
    ensures LowCode(det, el) == LevelCode(Level(Fold(el), det, 1), el < 0)
  {
  }

  lemma UndoesLevel(b: Width, det: nat, i: nat, negative: bool)
    requires 1 <= i <= 30
    ensures Within(b, det, Cell(b, i), Size(LowDifference(b, det, Cut(b, LevelCode(i, negative))), negative), negative)
  {
    hide Q6, Threshold, Cell, Bottom, Top, LowValue, Cut, LevelCode, Magnitude, Between, Within;
    CellRange(b, i);
    CellOf(b, i);
    AllBetween(b, i);
    CodeValue(b, i, negative);
    SizeOf(b, det, Cell(b, i), negative);
  }

  lemma SizeOf(b: Width, det: nat, k: nat, negative: bool)
    requires k <= 30 && (b == 7 ==> 1 <= k <= 15) && (b == 6 ==> k <= 7) && (b == 8 ==> k >= 1) && Between(b, k)
    requires 0 <= Bottom(b, k) < Top(b, k) <= 30
    ensures var m := if negative then -Magnitude(b, k) else Magnitude(b, k);
      Within(b, det, k, Size((det * m) / 0x8000, negative), negative)
  {
    hide Q6, Threshold, Magnitude, Bottom, Top;
    var m := Magnitude(b, k);
    ScaledBetween(det, m, Bottom(b, k));
    ScaledBetween(det, m, Top(b, k));
    AtMostDet(det, m);
    NegatedFloor(det * m);
    assert det * -m == -(det * m);
  }

  lemma AtMostDet(det: nat, m: int)
    requires m <= 24808
    ensures (det * m) / 0x8000 <= det && -((-(det * m)) / 0x8000) <= det
  {
    hide *;
    assert (0x8000 - m) * det >= 0;
    assert det * m <= 0x8000 * det;
  }

  // ----- one output

  /** The width of the interval of a difference el; in the last one, what is left of the larger of |far| and det. */
  function Spread(b: Width, det: int, el: int, far: int): int {
    var k := Cell(b, Level(Fold(el), det, 1));
    (if Top(b, k) < 30 then Threshold(det, Top(b, k)) else Max(Abs(far), det)) - Threshold(det, Bottom(b, k))
  }

  lemma Limited(v: int, x: int)
    requires -16384 <= x <= 16383
    ensures Abs(Sat15(v) - x) <= Abs(v - x)
  {
  }

  lemma BelowDet(det: nat, t: nat)
    requires t < 32
    ensures 0 <= Threshold(det, t) <= det
  {
    assert 0 <= Q6[t] <= 4096 by {
      LargestThreshold(t);
    }
    FractionOf(Q6[t], det);
  }

  lemma FractionOf(q: int, det: nat)
    requires 0 <= q <= 4096
    ensures 0 <= (q * det) / 4096 <= det
  {
    hide *;
    RatioMonotone(0, q, det);
    RatioMonotone(q, 4096, det);
  }

  lemma LargestThreshold(t: nat)
    requires t < 32
    ensures 0 <= Q6[t] <= 4096
  {
  }

  /** In the same interval, and the difference was not saturated unless there is no upper threshold. */
  lemma SameInterval(b: Width, det: nat, d: int)
    requires det <= 16384
    ensures var el := Sat16(d);
      Abs(d - LowDifference(b, det, Cut(b, LowCode(det, el)))) <= Spread(b, det, el, d)
  {
    hide Threshold, LowDifference, Cell, Cut, LowCode, Level, Bottom, Top, Fold, Sat16, Size;
    var el := Sat16(d);
    var k := Cell(b, Level(Fold(el), det, 1));
    InInterval(b, det, el);
    UndoesQuantizer(b, det, el);
    BelowDet(det, Top(b, k));
    BelowDet(det, Bottom(b, k));
    var dx := LowDifference(b, det, Cut(b, LowCode(det, el)));
    if Top(b, k) < 30 {
      Inside(d, dx, Threshold(det, Bottom(b, k)), Threshold(det, Top(b, k)));
    } else {
      Outside(d, dx, Threshold(det, Bottom(b, k)), det);
    }
  }

  /** Two numbers in one interval. */
  lemma Inside(d: int, dx: int, lo: int, hi: int)
    requires 0 <= lo <= Fold(Sat16(d)) < hi <= 16384
    requires lo <= Size(dx, Sat16(d) < 0) <= hi + if Sat16(d) < 0 then 1 else 0
    ensures Abs(d - dx) <= hi - lo
  {
  }

  lemma Outside(d: int, dx: int, lo: int, hi: int)
    requires 0 <= lo <= Fold(Sat16(d)) && lo <= Size(dx, Sat16(d) < 0) <= hi
    ensures Abs(d - dx) <= Max(Abs(d), hi) - lo
  {
  }

  /** The decoder's low band sample is within the width of its interval of the encoder's, if both have the same band. */
  lemma LowNear(b: Width, s: Band, x: int)
    requires s.Valid(LowBand) && -16384 <= x <= 16383
    ensures var el := Sat16(x - s.s);
      Abs(LowOutput(b, s, Cut(b, LowCode(s.det, el))) - x) <= Spread(b, s.det, el, x - s.s)
  {
    SameInterval(b, s.det, x - s.s);
    Limited(s.s + LowDifference(b, s.det, Cut(b, LowCode(s.det, Sat16(x - s.s)))), x);
    hide LowDifference, Spread, Cut, LowCode, Sat16, Sat15, Level;
  }

  /** The one threshold of the high band. */
  function HighThreshold(det: int): int {
    (564 * det) / 4096
  }

  function HighSpread(det: int, eh: int, far: int): int {
    if Fold(eh) < HighThreshold(det) then HighThreshold(det) else Max(Abs(far), det) - HighThreshold(det)
  }

  lemma HighValues(det: int, eh: int)
    requires 0 <= det <= 16384
    ensures var dx := Difference(HighBand, det, HighCode(det, eh));
      var size := Size(dx, eh < 0);
      if Fold(eh) < HighThreshold(det) then 0 <= size <= HighThreshold(det) + (if eh < 0 then 1 else 0)
      else HighThreshold(det) <= size <= det
  {
  }

  /** The same for the high band, which has one threshold. */
  lemma HighNear(s: Band, x: int)
    requires s.Valid(HighBand) && -16384 <= x <= 16383
    ensures var eh := Sat16(x - s.s);
      Abs(Sat15(Difference(HighBand, s.det, HighCode(s.det, eh)) + s.s) - x) <= HighSpread(s.det, eh, x - s.s)
  {
    var eh := Sat16(x - s.s);
    var dx := Difference(HighBand, s.det, HighCode(s.det, eh));
    HighValues(s.det, eh);
    HighBelowDet(s.det);
    hide Difference, HighCode, HighThreshold;
    Limited(s.s + dx, x);
    if Fold(eh) < HighThreshold(s.det) {
      Inside(x - s.s, dx, 0, HighThreshold(s.det));
    } else {
      Outside(x - s.s, dx, HighThreshold(s.det), s.det);
    }
  }

  lemma HighBelowDet(det: nat)
    ensures 0 <= HighThreshold(det) <= det
  {
  }

  /** Both ends adapt their predictors by the difference that the code cut to 6 bits stands for, at every rate. */
  lemma AdaptsToCell(det: nat, el: int)
    requires det <= 16384
    ensures Difference(LowBand, det, LowIndex(8, LowCode(det, el))) == LowDifference(6, det, Cut(6, LowCode(det, el)))
    ensures Within(6, det, Cell(6, Level(Fold(el), det, 1)),
                   Size(Difference(LowBand, det, LowIndex(8, LowCode(det, el))), el < 0), el < 0)
  {
    var code := LowCode(det, el);
    hide LowCode, QM4, Within, Level, Cell, Fold, Size;
    Embedded(6, code);
    CutIs(6, code);
    UndoesQuantizer(6, det, el);
    ScaledFits(det, LowIndex(8, code));
  }

  lemma ScaledFits(det: nat, index: nat)
    requires det <= 16384 && index < 16
    ensures Scaled(det, QM4[index]) == (det * QM4[index]) / 0x8000
  {
    assert -20456 <= QM4[index] <= 20456;
    hide QM4;
    ScaledOf(det, QM4[index]);
  }

  lemma ScaledOf(det: nat, q: int)
    requires det <= 16384 && -20456 <= q <= 20456
    ensures Scaled(det, q) == (det * q) / 0x8000
  {
    ProductBound(det, q, 16384, 20456);
  }

  // ----- streams

  /** The code of a pair of samples that follows these codes. */
  function NextCode(eightK: bool, past: seq<nat>, x: (int, int)): byte {
    FullCode(eightK, LowAfter(8, past), HighAfter(eightK, 8, past), x)
  }

  function CodesAfter(eightK: bool, past: seq<nat>, xs: seq<(int, int)>): (codes: seq<byte>)
    ensures |codes| == |xs|
  {
    FullCodes(eightK, LowAfter(8, past), HighAfter(eightK, 8, past), xs)
  }

  lemma {:induction false} CodesFrom(eightK: bool, sent: seq<nat>, xs: seq<(int, int)>, j: nat)
    requires j < |xs|
    ensures var codes := CodesAfter(eightK, sent, xs);
      codes[j] == NextCode(eightK, sent + codes[..j], xs[j])
    decreases j
  {
    hide *;
    var codes := CodesAfter(eightK, sent, xs);
    FirstCode(eightK, sent, xs);
    if j == 0 {
      assert sent + codes[..0] == sent;
    } else {
      CodesFrom(eightK, sent + [codes[0]], xs[1..], j - 1);
      assert sent + [codes[0]] + codes[1..][..j - 1] == sent + codes[..j];
    }
  }

  lemma FirstCode(eightK: bool, sent: seq<nat>, xs: seq<(int, int)>)
    requires xs != []
    ensures var codes := CodesAfter(eightK, sent, xs);
      codes[0] == NextCode(eightK, sent, xs[0]) && codes[1..] == CodesAfter(eightK, sent + [codes[0]], xs[1..])
  {
    var code := NextCode(eightK, sent, xs[0]);
    LowAfterSnoc(8, sent, code);
    HighAfterSnoc(eightK, 8, sent, code);
    hide LowAfter, HighAfter, FullCode, Step, LowIndex, HighIndex;
  }

  /** A code is its two parts, whatever it is cut to. */
  lemma Parts(b: Width, h: nat, ilow: nat)
    requires h < 4 && ilow < 64
    ensures LowValue(b, Cut(b, h * 64 + ilow)) == LowValue(b, Cut(b, ilow))
    ensures HighIndex(b, Cut(b, h * 64 + ilow)) == h
  {
    hide QM6, QM5, QM4, Cut;
    CutIs(b, h * 64 + ilow);
    CutIs(b, ilow);
    Halves(h, ilow);
    if b == 8 {
      Remainders(64, h, ilow);
    } else if b == 7 {
      Remainders(32, h, ilow / 2);
    } else {
      Remainders(16, h, ilow / 2 / 2);
    }
  }

  lemma Halves(h: nat, l: nat)
    ensures (h * 64 + l) / 2 == h * 32 + l / 2 && (h * 64 + l) / 2 / 2 == h * 16 + l / 2 / 2
  {
    hide *;
  }

  lemma Remainders(m: nat, h: nat, l: nat)
    requires m in {64, 32, 16} && h < 4 && l < m
    ensures (h * m + l) % m == l % m && ((h * m + l) / m) % 4 == h
  {
    hide *;
    if m == 64 {
      assert (h * 64 + l) / 64 == h;
    } else if m == 32 {
      assert (h * 32 + l) / 32 == h;
    } else {
      assert (h * 16 + l) / 16 == h;
    }
  }

  /** How far output may be from the samples it was encoded from, if both ends have these bands. */
  predicate Near(eightK: bool, b: Width, low: Band, high: Band, x: (int, int), out: (int, int)) {
    && Abs(out.0 - x.0) <= Spread(b, low.det, Sat16(x.0 - low.s), x.0 - low.s)
    && (if eightK then out.1 == 0
        else Abs(out.1 - x.1) <= HighSpread(high.det, Sat16(x.1 - high.s), x.1 - high.s))
  }

  predicate InRange(xs: seq<(int, int)>) {
    forall j :: 0 <= j < |xs| ==> -16384 <= xs[j].0 <= 16383 && -16384 <= xs[j].1 <= 16383
  }

  /**
   * At any of the three rates, each output is within the quantizer interval of the sample it was encoded from: the
   * decoder's predictions and scale factors are the encoder's, and its inverse quantizer undoes the quantizer.
   */
  lemma OutputNear(eightK: bool, b: Width, xs: seq<(int, int)>, j: nat)
    requires InRange(xs) && j < |xs|
    ensures var codes := CodesAfter(eightK, [], xs);
      Near(eightK, b, LowAfter(8, codes[..j]), HighAfter(eightK, 8, codes[..j]), xs[j],
           OutputAt(eightK, b, CutAll(b, codes), j))
  {
    var codes := CodesAfter(eightK, [], xs);
    hide *;
    CodesFrom(eightK, [], xs, j);
    assert [] + codes[..j] == codes[..j];
    CutAllPrefix(b, codes, j);
    CutAllAt(b, codes, j);
    RatesAgree(eightK, b, codes[..j]);
    SampleRange(xs, j);
    BandsNear(eightK, b, LowAfter(8, codes[..j]), HighAfter(eightK, 8, codes[..j]), xs[j]);
    NextCodeIs(eightK, codes[..j], xs[j]);
    OutputIs(eightK, b, CutAll(b, codes), j);
  }

  lemma SampleRange(xs: seq<(int, int)>, j: nat)
    requires InRange(xs) && j < |xs|
    ensures -16384 <= xs[j].0 <= 16383 && -16384 <= xs[j].1 <= 16383
  {
  }

  lemma CutAllAt(b: Width, codes: seq<nat>, j: nat)
    requires j < |codes|
    ensures CutAll(b, codes)[j] == Cut(b, codes[j])
  {
  }

  /** The pair of samples that a code stands for after others. */
  function OutputAfter(eightK: bool, low: Band, high: Band, b: Width, code: nat): (int, int) {
    (LowOutput(b, low, code), if eightK then 0 else HighOutput(b, high, code))
  }

  lemma OutputIs(eightK: bool, b: Width, codes: seq<nat>, j: nat)
    requires j < |codes|
    ensures OutputAt(eightK, b, codes, j)
         == OutputAfter(eightK, LowAfter(b, codes[..j]), HighAfter(eightK, b, codes[..j]), b, codes[j])
  {
    hide LowAfter, HighAfter, LowOutput, HighOutput;
  }

  lemma NextCodeIs(eightK: bool, past: seq<nat>, x: (int, int))
    ensures NextCode(eightK, past, x) == FullCode(eightK, LowAfter(8, past), HighAfter(eightK, 8, past), x)
    ensures LowAfter(8, past).Valid(LowBand) && HighAfter(eightK, 8, past).Valid(HighBand)
  {
    hide LowAfter, HighAfter, FullCode;
  }

  lemma LowPartNear(b: Width, low: Band, x: int, h: nat)
    requires low.Valid(LowBand) && -16384 <= x <= 16383 && h < 4
    ensures var el := Sat16(x - low.s);
      Abs(LowOutput(b, low, Cut(b, h * 64 + LowCode(low.det, el))) - x) <= Spread(b, low.det, el, x - low.s)
  {
    hide LowValue, Cut, LowCode, Spread, Sat16, Sat15;
    LowNear(b, low, x);
    Parts(b, h, LowCode(low.det, Sat16(x - low.s)));
  }

  lemma HighPartNear(b: Width, high: Band, x: int, ilow: nat)
    requires high.Valid(HighBand) && -16384 <= x <= 16383 && ilow < 64
    ensures var eh := Sat16(x - high.s);
      Abs(HighOutput(b, high, Cut(b, HighCode(high.det, eh) * 64 + ilow)) - x) <= HighSpread(high.det, eh, x - high.s)
  {
    hide HighIndex, Cut, HighCode, HighSpread, Difference, Sat16, Sat15;
    HighNear(high, x);
    Parts(b, HighCode(high.det, Sat16(x - high.s)), ilow);
  }

  lemma BandsNear(eightK: bool, b: Width, low: Band, high: Band, x: (int, int))
    requires low.Valid(LowBand) && high.Valid(HighBand) && -16384 <= x.0 <= 16383 && -16384 <= x.1 <= 16383
    ensures Near(eightK, b, low, high, x, OutputAfter(eightK, low, high, b, Cut(b, FullCode(eightK, low, high, x))))
  {
    hide Sat16, Spread, HighSpread, Cut, LowCode, HighCode, LowOutput, HighOutput, Band.Valid;
    var ihigh := if eightK then 3 else HighCode(high.det, Sat16(x.1 - high.s));
    LowPartNear(b, low, x.0, ihigh);
    HighPartNear(b, high, x.1, LowCode(low.det, Sat16(x.0 - low.s)));
  }
}
