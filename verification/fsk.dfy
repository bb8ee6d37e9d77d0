/** The sliding correlator of src/fsk.c: two tones, each with a running sum over a window of products. */
module Fsk {
  import opened Arith
  import Dds

  const WINDOW: nat := 128 // FSK_MAX_WINDOW_LEN

  // ----- running sums

  lemma {:induction false} TotalZero(s: seq<int>)
    requires forall i :: 0 <= i < |s| ==> s[i] == 0
    ensures Total(s) == 0
  {
    if s != [] {
      TotalZero(s[..|s| - 1]);
    }
  }

  /** Only the entries below span are in use, and each of them is at most limit. */
  predicate Bounded(s: seq<int>, span: nat, limit: int) {
    && (forall i :: 0 <= i < |s| && i < span ==> -limit <= s[i] <= limit)
    && (forall i :: span <= i < |s| ==> s[i] == 0)
  }

  lemma {:induction false} TotalBound(s: seq<int>, span: nat, limit: int)
    requires Bounded(s, span, limit) && limit >= 0
    ensures -(span * limit) <= Total(s) <= span * limit
    decreases |s|
  {
    if s == [] {
      assert span * limit >= 0;
    } else if |s| <= span {
      assert Bounded(s[..|s| - 1], span - 1, limit);
      TotalBound(s[..|s| - 1], span - 1, limit);
      assert span * limit == (span - 1) * limit + limit;
    } else {
      TotalBound(s[..|s| - 1], span, limit);
    }
  }

  // ----- the window is a ring

  /** Where the write after t others goes, for a ring of span slots. */
  function Slot(ptr: nat, span: nat, t: nat): nat {
    if ptr + t < span then ptr + t else ptr + t - span
  }

  /** The window after some values have been written from ptr on. */
  function Written(window: seq<int>, ptr: nat, span: nat, values: seq<int>): (w: seq<int>)
    requires ptr < span <= |window| && |values| <= span
    ensures |w| == |window|
  {
    if values == [] then window
    else
      var n := |values| - 1;
      Written(window, ptr, span, values[..n])[Slot(ptr, span, n) := values[n]]
  }

  lemma {:induction false} WrittenAt(window: seq<int>, ptr: nat, span: nat, values: seq<int>, t: nat)
    requires ptr < span <= |window| && t < |values| <= span
    ensures Written(window, ptr, span, values)[Slot(ptr, span, t)] == values[t]
    decreases |values|
  {
    var n := |values| - 1;
    if t < n {
      WrittenAt(window, ptr, span, values[..n], t);
    }
  }

  lemma {:induction false} WrittenBeyond(window: seq<int>, ptr: nat, span: nat, values: seq<int>, i: nat)
    requires ptr < span <= i < |window| && |values| <= span
    ensures Written(window, ptr, span, values)[i] == window[i]
    decreases |values|
  {
    if values != [] {
      WrittenBeyond(window, ptr, span, values[..|values| - 1], i);
    }
  }

  /** One span of values replaces all that was in use. */
  lemma WrittenRound(window: seq<int>, ptr: nat, span: nat, values: seq<int>)
    requires ptr < span <= |window| && |values| == span
    ensures Written(window, ptr, span, values) == values[span - ptr..] + values[..span - ptr] + window[span..]
  {
    var w := Written(window, ptr, span, values);
    var r := values[span - ptr..] + values[..span - ptr] + window[span..];
    hide Written;
    forall i | 0 <= i < |w|
      ensures w[i] == r[i]
    {
      if i < span {
        WrittenAt(window, ptr, span, values, if i < ptr then i + span - ptr else i - ptr);
      } else {
        WrittenBeyond(window, ptr, span, values, i);
      }
    }
  }

  lemma {:induction false} TotalAppend(a: seq<int>, b: seq<int>)
    ensures Total(a + b) == Total(a) + Total(b)
    decreases |b|
  {
    if b == [] {
      assert a + b == a;
    } else {
      assert (a + b)[..|a + b| - 1] == a + b[..|b| - 1];
      TotalAppend(a, b[..|b| - 1]);
    }
  }

  /** After one span of values the sum of the whole window is the sum of those values. */
  lemma RecentTotal(window: seq<int>, ptr: nat, span: nat, values: seq<int>)
    requires ptr < span <= |window| && |values| == span
    requires forall i :: span <= i < |window| ==> window[i] == 0
    ensures Total(Written(window, ptr, span, values)) == Total(values)
  {
    hide Total, Written;
    var head, tail := values[..span - ptr], values[span - ptr..];
    WrittenRound(window, ptr, span, values);
    TotalAppend(tail + head, window[span..]);
    TotalZero(window[span..]);
    TotalAppend(tail, head);
    TotalAppend(head, tail);
    assert values == head + tail;
  }

  // ----- scaling

  /** The number of bits in the span: the scaling_shift that fsk_rx_restart computes. */
  function BitLength(x: nat): (n: nat) {
    if x == 0 then 0 else 1 + BitLength(x / 2)
  }

  /** The bound on a scaled product: 32767 * 32768 >> shift. */
  function Limit(shift: nat): (l: int)
    requires 1 <= shift <= 8
    ensures l > 0
  {
    32767 * Pow2(15 - shift)
  }

  lemma SpanShift(span: nat)
    requires 1 <= span <= WINDOW
    ensures 1 <= BitLength(span) <= 8 && span < Pow2(BitLength(span))
  {
    BitLengthBounds(span);
    BitLengthMonotone(span, WINDOW);
    assert BitLength(WINDOW) == 8;
  }

  lemma {:induction false} BitLengthBounds(x: nat)
    ensures x < Pow2(BitLength(x))
  {
    if x > 0 {
      BitLengthBounds(x / 2);
    }
  }

  lemma {:induction false} BitLengthMonotone(x: nat, y: nat)
    requires x <= y
    ensures BitLength(x) <= BitLength(y)
  {
    if x > 0 {
      BitLengthMonotone(x / 2, y / 2);
    }
  }

  /** A scaled product of a table value and a sample stays within the limit. */
  lemma ScaledProduct(tone: int, amp: int, shift: nat)
    requires -32767 <= tone <= 32767 && IsInt16(amp) && 1 <= shift <= 8
    ensures IsInt32(tone * amp) && -Limit(shift) <= Shr(tone * amp, shift) <= Limit(shift)
  {
    var most: int := 32767 * 0x8000;
    ProductBound(tone, amp, 32767, 0x8000);
    LimitIs(shift);
    ShrMonotone(tone * amp, most, shift);
    ShrMonotone(-most, tone * amp, shift);
  }

  lemma LimitIs(shift: nat)
    requires 1 <= shift <= 8
    ensures Shr(32767 * 0x8000, shift) == Limit(shift)
    ensures var most: int := 32767 * 0x8000; Shr(-most, shift) == -Limit(shift)
  {
    LimitScaled(shift);
    ShrMultiple(Limit(shift), shift);
    ShrMultiple(-Limit(shift), shift);
    hide *;
  }

  lemma LimitScaled(shift: nat)
    requires 1 <= shift <= 8
    ensures Limit(shift) * Pow2(shift) == 32767 * 0x8000
    ensures var most: int := 32767 * 0x8000; -Limit(shift) * Pow2(shift) == -most
  {
    Pow2Add(15 - shift, shift);
    assert Pow2(15) == 0x8000;
    hide Pow2;
    Triple(Pow2(15 - shift), Pow2(shift));
  }

  lemma Triple(p: int, q: int)
    ensures (32767 * p) * q == 32767 * (p * q) && (-(32767 * p)) * q == -(32767 * (p * q))
  {
  }

  /** sum[j]: the energy of the top bits of a running sum. */
  function Energy(re: int, im: int): int {
    Shr(re, 15) * Shr(re, 15) + Shr(im, 15) * Shr(im, 15)
  }

  /** A running sum of products that are scaled for the span. */
  lemma TotalFits(s: seq<int>, span: nat, shift: nat)
    requires 1 <= span <= WINDOW && shift == BitLength(span) && 1 <= shift <= 8 && Bounded(s, span, Limit(shift))
    ensures IsInt32(Total(s)) && -32767 <= Shr(Total(s), 15) <= 32767
  {
    hide Total, Bounded, Shr;
    TotalBound(s, span, Limit(shift));
    SpanShift(span);
    SpanLimit(span, shift);
    TopBits();
    var most: int := 32767 * 0x8000;
    ShrMonotone(Total(s), most, 15);
    ShrMonotone(-most, Total(s), 15);
  }

  lemma TopBits()
    ensures var most: int := 32767 * 0x8000; Shr(most, 15) == 32767 && Shr(-most, 15) == -32767
  {
    assert Pow2(15) == 0x8000;
    ShrMultiple(32767, 15);
    ShrMultiple(-32767, 15);
  }

  lemma SpanLimit(span: nat, shift: nat)
    requires span < Pow2(shift) && 1 <= shift <= 8
    ensures span * Limit(shift) <= 32767 * 0x8000
  {
    LimitScaled(shift);
    hide *;
    Times(span, Pow2(shift), Limit(shift));
  }

  lemma Times(x: int, y: int, l: int)
    requires x <= y && l >= 0
    ensures x * l <= l * y
  {
    assert (y - x) * l >= 0;
  }

  /** For any span up to the window neither the running sums nor their energy can overflow. */
  lemma EnergyFits(re: seq<int>, im: seq<int>, span: nat, shift: nat)
    requires 1 <= span <= WINDOW && shift == BitLength(span) && 1 <= shift <= 8
    requires Bounded(re, span, Limit(shift)) && Bounded(im, span, Limit(shift))
    ensures IsInt32(Total(re)) && IsInt32(Total(im))
    ensures 0 <= Energy(Total(re), Total(im)) <= 0x7FFF_FFFF
  {
    TotalFits(re, span, shift);
    TotalFits(im, span, shift);
    SquareFits(Shr(Total(re), 15));
    SquareFits(Shr(Total(im), 15));
    hide Total, Bounded, Shr;
  }

  lemma SquareFits(x: int)
    requires -32767 <= x <= 32767
    ensures 0 <= x * x <= 32767 * 32767
  {
    ProductBound(x, x, 32767, 32767);
    Square(x);
  }

  lemma Square(x: int)
    ensures x * x >= 0
  {
  }

  // ----- the receiver

  /** The phase after n samples. */
  function PhaseAfter(phase: nat, rate: int, n: nat): nat {
    if n == 0 then phase else Dds.Advanced(PhaseAfter(phase, rate, n - 1), rate)
  }

  /** The scaled products of samples with an oscillator: its cosine, or its sine. */
  function Products(cosine: bool, phase: nat, rate: int, shift: nat, amps: seq<int>): (p: seq<int>)
    ensures |p| == |amps|
  {
    if amps == [] then []
    else
      var n := |amps| - 1;
      var now := PhaseAfter(phase, rate, n);
      Products(cosine, phase, rate, shift, amps[..n])
        + [Shr((if cosine then Dds.Cosine(now) else Dds.Lookup(now)) * amps[n], shift)]
  }

  /** The energy of the correlation of samples with a tone, computed afresh. */
  function Correlation(phase: nat, rate: int, shift: nat, amps: seq<int>): int {
    Energy(Total(Products(true, phase, rate, shift, amps)), Total(Products(false, phase, rate, shift, amps)))
  }

  /** The exact correlation of samples with an oscillator: its cosine, or its sine. */
  function Projection(cosine: bool, phase: nat, rate: int, amps: seq<int>): int {
    if amps == [] then 0
    else
      var n := |amps| - 1;
      var now := PhaseAfter(phase, rate, n);
      Projection(cosine, phase, rate, amps[..n]) + (if cosine then Dds.Cosine(now) else Dds.Lookup(now)) * amps[n]
  }

  /** The running sum is the exact correlation, scaled down, up to one unit for each sample. */
  lemma {:induction false} SumNear(cosine: bool, phase: nat, rate: int, shift: nat, amps: seq<int>)
    ensures var t := Total(Products(cosine, phase, rate, shift, amps));
      Pow2(shift) * t <= Projection(cosine, phase, rate, amps) <= Pow2(shift) * (t + |amps|)
    decreases |amps|
  {
    hide Shr, Dds.Cosine, Dds.Lookup, PhaseAfter, Pow2;
    if amps != [] {
      var n := |amps| - 1;
      var p, now := Products(cosine, phase, rate, shift, amps), PhaseAfter(phase, rate, n);
      var x := (if cosine then Dds.Cosine(now) else Dds.Lookup(now)) * amps[n];
      SumNear(cosine, phase, rate, shift, amps[..n]);
      ShrBounds(x, shift);
      assert p[..n] == Products(cosine, phase, rate, shift, amps[..n]);
      OneTerm(Pow2(shift), Total(p[..n]), Shr(x, shift), n);
    } else {
      assert Pow2(shift) * 0 == 0;
    }
  }

  lemma OneTerm(p: nat, t: int, s: int, n: nat)
    ensures p * (t + s) == p * t + p * s && p * (t + s + (n + 1)) == p * (t + n) + p * s + p
  {
  }

  /** The energy is the sum of the squares, over 2^30, up to the bits that are dropped before squaring. */
  lemma EnergyNear(re: int, im: int)
    ensures Abs(re * re + im * im - 0x4000_0000 * Energy(re, im)) <= 0x1_0000 * (Abs(re) + Abs(im)) + 0x8000_0000
  {
    SquareNear(re);
    SquareNear(im);
    hide Shr;
  }

  lemma SquareNear(x: int)
    ensures Abs(x * x - 0x4000_0000 * (Shr(x, 15) * Shr(x, 15))) <= 0x1_0000 * Abs(x) + 0x4000_0000
  {
    assert Pow2(15) == 0x8000 by {
      assert Pow2(5) == 32 && Pow2(10) == 1024;
    }
    ShrBounds(x, 15);
    hide Shr, Pow2;
    Dropped(x, Shr(x, 15), x - 0x8000 * Shr(x, 15));
  }

  lemma Dropped(x: int, a: int, r: int)
    requires x == 0x8000 * a + r && 0 <= r < 0x8000
    ensures Abs(x * x - 0x4000_0000 * (a * a)) <= 0x1_0000 * Abs(x) + 0x4000_0000
  {
    assert x * x - 0x4000_0000 * (a * a) == 2 * (x * r) - r * r by {
      assert 0x8000 * a == x - r;
      assert (0x8000 * a) * (0x8000 * a) == 0x4000_0000 * (a * a);
      assert (x - r) * (x - r) == x * x - 2 * (x * r) + r * r;
    }
    ProductBound(x, r, Abs(x), 0x8000);
    ProductBound(r, r, 0x8000, 0x8000);
  }

  /** One of the two tones: its oscillator, its window of products, and their running sum. */
  class Tone {
    const phaseRate: int
    var phaseAcc: nat
    const re: array<int>
    const im: array<int>
    var dotRe: int
    var dotIm: int

    ghost predicate Valid(span: nat, shift: nat)
      reads this, re, im
    {
      && 1 <= span <= WINDOW && shift == BitLength(span) && 1 <= shift <= 8
      && re.Length == im.Length == WINDOW && re != im
      && phaseAcc < Dds.TURN
      && Bounded(re[..], span, Limit(shift)) && Bounded(im[..], span, Limit(shift))
      && dotRe == Total(re[..]) && dotIm == Total(im[..])
    }

    /** The products of samples have been written from ptr on, over the windows there were. */
    ghost predicate Tracks(window: (seq<int>, seq<int>), phase: nat, ptr: nat, span: nat, shift: nat, amps: seq<int>)
      requires ptr < span <= WINDOW == |window.0| == |window.1| && |amps| <= span
      reads this, re, im
    {
      && re[..] == Written(window.0, ptr, span, Products(true, phase, phaseRate, shift, amps))
      && im[..] == Written(window.1, ptr, span, Products(false, phase, phaseRate, shift, amps))
      && phaseAcc == PhaseAfter(phase, phaseRate, |amps|)
    }

    constructor (phaseRate: int, ghost span: nat, ghost shift: nat)
      requires 1 <= span <= WINDOW && shift == BitLength(span)
      ensures Valid(span, shift) && fresh(re) && fresh(im)
    {
      this.phaseRate := phaseRate;
      phaseAcc, dotRe, dotIm := 0, 0, 0;
      re := new int[WINDOW](_ => 0);
      im := new int[WINDOW](_ => 0);
      new;
      SpanShift(span);
      TotalZero(re[..]);
      TotalZero(im[..]);
    }

    /** Takes the products at ptr out of the running sums, which still fit int32_t. */
    method Remove(ptr: nat, ghost span: nat, ghost shift: nat)
      requires Valid(span, shift) && ptr < span
      modifies `dotRe, `dotIm
      ensures dotRe == Total(re[..][ptr := 0]) && dotIm == Total(im[..][ptr := 0])
      ensures IsInt32(dotRe) && IsInt32(dotIm)
    {
      hide Total, Limit, BitLength, Pow2;
      TotalUpdate(re[..], ptr, 0);
      TotalUpdate(im[..], ptr, 0);
      dotRe := dotRe - re[ptr];
      dotIm := dotIm - im[ptr];
      TotalFits(re[..][ptr := 0], span, shift);
      TotalFits(im[..][ptr := 0], span, shift);
    }

    /** Puts new products at ptr, and into the running sums. */
    method Insert(ptr: nat, newRe: int, newIm: int, ghost span: nat, ghost shift: nat)
      requires 1 <= span <= WINDOW && shift == BitLength(span) && 1 <= shift <= 8 && ptr < span
      requires re.Length == im.Length == WINDOW && re != im && phaseAcc < Dds.TURN
      requires Bounded(re[..], span, Limit(shift)) && Bounded(im[..], span, Limit(shift))
      requires dotRe == Total(re[..][ptr := 0]) && dotIm == Total(im[..][ptr := 0])
      requires -Limit(shift) <= newRe <= Limit(shift) && -Limit(shift) <= newIm <= Limit(shift)
      modifies `dotRe, `dotIm, re, im
      ensures Valid(span, shift)
      ensures re[..] == old(re[..])[ptr := newRe] && im[..] == old(im[..])[ptr := newIm]
    {
      hide Total, Limit, BitLength, Pow2;
      ghost var r0, i0 := re[..], im[..];
      TotalUpdate(r0[ptr := 0], ptr, newRe);
      TotalUpdate(i0[ptr := 0], ptr, newIm);
      re[ptr], im[ptr] := newRe, newIm;
      assert re[..] == r0[ptr := 0][ptr := newRe] && im[..] == i0[ptr := 0][ptr := newIm];
      dotRe := dotRe + re[ptr];
      dotIm := dotIm + im[ptr];
    }

    /** The correlation part of one pass of fsk_rx. */
    method Correlate(amp: int, ptr: nat, span: nat, shift: nat) returns (sum: int)
      requires Valid(span, shift) && ptr < span && IsInt16(amp)
      modifies this, re, im
      ensures Valid(span, shift)
      ensures re[..] == old(re[..])[ptr := Shr(Dds.Cosine(old(phaseAcc)) * amp, shift)]
      ensures im[..] == old(im[..])[ptr := Shr(Dds.Lookup(old(phaseAcc)) * amp, shift)]
      ensures phaseAcc == Dds.Advanced(old(phaseAcc), phaseRate)
      ensures IsInt32(Total(old(re[..])[ptr := 0])) && IsInt32(Total(old(im[..])[ptr := 0]))
      ensures IsInt32(Dds.Cosine(old(phaseAcc)) * amp) && IsInt32(Dds.Lookup(old(phaseAcc)) * amp)
      ensures IsInt32(Total(re[..])) && IsInt32(Total(im[..]))
      ensures sum == Energy(Total(re[..]), Total(im[..])) && 0 <= sum && IsInt32(sum)
    {
      hide Total, Limit, BitLength, Pow2, Shr, Dds.Cosine, Dds.Lookup, Bounded;
      Remove(ptr, span, shift);
      var phRe, phIm := Dds.Cosine(phaseAcc), Dds.Lookup(phaseAcc);
      phaseAcc := Dds.Advanced(phaseAcc, phaseRate);
      ScaledProduct(phRe, amp, shift);
      ScaledProduct(phIm, amp, shift);
      Insert(ptr, Shr(phRe * amp, shift), Shr(phIm * amp, shift), span, shift);
      EnergyFits(re[..], im[..], span, shift);
      sum := Energy(dotRe, dotIm);
    }

    /** One pass of fsk_rx_fillin: a product of zero. */
    method Skip(ptr: nat, ghost span: nat, ghost shift: nat)
      requires Valid(span, shift) && ptr < span
      modifies this, re, im
      ensures Valid(span, shift)
      ensures re[..] == old(re[..])[ptr := 0] && im[..] == old(im[..])[ptr := 0]
      ensures phaseAcc == Dds.Advanced(old(phaseAcc), phaseRate)
    {
      hide Total, Limit, BitLength, Pow2, Bounded;
      Remove(ptr, span, shift);
      phaseAcc := Dds.Advanced(phaseAcc, phaseRate);
      Insert(ptr, 0, 0, span, shift);
    }
  }

  /** One more product. */
  lemma NextProduct(cosine: bool, window: seq<int>, phase: nat, rate: int, ptr: nat, span: nat, shift: nat,
                    amps: seq<int>, n: nat)
    requires ptr < span <= |window| && n < |amps| <= span
    ensures var now := PhaseAfter(phase, rate, n);
      Written(window, ptr, span, Products(cosine, phase, rate, shift, amps[..n + 1]))
      == Written(window, ptr, span, Products(cosine, phase, rate, shift, amps[..n]))
           [Slot(ptr, span, n) := Shr((if cosine then Dds.Cosine(now) else Dds.Lookup(now)) * amps[n], shift)]
  {
    hide Shr, Dds.Cosine, Dds.Lookup, Slot;
    assert amps[..n + 1][..n] == amps[..n];
    var p := Products(cosine, phase, rate, shift, amps[..n + 1]);
    assert p[..n] == Products(cosine, phase, rate, shift, amps[..n]);
  }

  lemma Fresh(window: (seq<int>, seq<int>), ptr: nat, span: nat, shift: nat, phase: nat, rate: int, amps: seq<int>)
    requires ptr < span <= |window.0| == |window.1| && |amps| == span
    requires forall i :: span <= i < |window.0| ==> window.0[i] == 0 && window.1[i] == 0
    ensures Energy(Total(Written(window.0, ptr, span, Products(true, phase, rate, shift, amps))),
                   Total(Written(window.1, ptr, span, Products(false, phase, rate, shift, amps))))
         == Correlation(phase, rate, shift, amps)
  {
    hide Total, Written, Products, Energy;
    RecentTotal(window.0, ptr, span, Products(true, phase, rate, shift, amps));
    RecentTotal(window.1, ptr, span, Products(false, phase, rate, shift, amps));
  }

  /** The settings that fsk_rx_restart computes for a baud rate, in units of a hundredth of a baud. */
  method Scaling(baudRate: nat) returns (span: nat, shift: nat)
    requires 0 < baudRate <= 800_000
    ensures span == Min(800_000 / baudRate, WINDOW) && 1 <= span <= WINDOW && shift == BitLength(span)
  {
    span := 800_000 / baudRate;
    assert span >= 1 by {
      OneSample(baudRate);
    }
    if span > WINDOW {
      span := WINDOW;
    }
    shift := 0;
    var chop := span;
    while chop != 0
      invariant shift + BitLength(chop) == BitLength(span)
      decreases chop
    {
      shift := shift + 1;
      chop := chop / 2;
    }
  }

  lemma OneSample(baudRate: nat)
    requires 0 < baudRate <= 800_000
    ensures 800_000 / baudRate >= 1
  {
    hide *;
    var q, r := 800_000 / baudRate, 800_000 % baudRate;
    assert 800_000 == baudRate * q + r;
  }

  /** A sample, and how its power compares with the carrier thresholds. */
  datatype Sample = Sample(amp: int, belowOff: bool, belowOn: bool)

  function Amps(xs: seq<Sample>): (a: seq<int>)
    ensures |a| == |xs|
    ensures forall i :: 0 <= i < |xs| ==> a[i] == xs[i].amp
  {
    seq(|xs|, i requires 0 <= i < |xs| => xs[i].amp)
  }

  /** signal_present and baud_phase. */
  datatype Carrier = Carrier(present: int, phase: int)

  /** A sample is demodulated: the carrier was on and stays on, or it has been strong enough for long enough. */
  predicate Demodulates(c: Carrier, span: nat, x: Sample) {
    if c.present != 0 then !x.belowOff || c.present > 1 else !x.belowOn && c.phase >= span / 2 - 30
  }

  function NextCarrier(c: Carrier, span: nat, x: Sample): Carrier {
    if c.present != 0 then
      Carrier(if x.belowOff then c.present - 1 else c.present, if Demodulates(c, span, x) then c.phase else 0)
    else if Demodulates(c, span, x) then Carrier(1, 0)
    else Carrier(0, if x.belowOn then 0 else c.phase + 1)
  }

  function CarrierAfter(c: Carrier, span: nat, xs: seq<Sample>): Carrier {
    if xs == [] then c
    else NextCarrier(CarrierAfter(c, span, xs[..|xs| - 1]), span, xs[|xs| - 1])
  }

  /**
   * From a quiet line, samples above the turn-on threshold turn the carrier on, after half a span less 30 of them, and
   * it stays on until a sample is below the turn-off threshold.
   */
  lemma {:induction false} CarrierComesUp(span: nat, xs: seq<Sample>)
    requires forall i :: 0 <= i < |xs| ==> !xs[i].belowOn && !xs[i].belowOff
    ensures CarrierAfter(Carrier(0, 0), span, xs)
         == if |xs| <= Max(0, span / 2 - 30) then Carrier(0, |xs|) else Carrier(1, 0)
  {
    if xs != [] {
      CarrierComesUp(span, xs[..|xs| - 1]);
    }
  }

  /** An fsk_rx_state_t up to its decision which tone is stronger; framing is not part of it. */
  class Receiver {
    const span: nat
    const shift: nat
    const zero: Tone
    const one: Tone
    var bufPtr: nat
    var signalPresent: int
    var baudPhase: int

    ghost predicate Valid()
      reads this, zero, zero.re, zero.im, one, one.re, one.im
    {
      && zero != one && {zero.re, zero.im} !! {one.re, one.im}
      && zero.Valid(span, shift) && one.Valid(span, shift)
      && bufPtr < span
    }

    /** fsk_rx_init. */
    constructor (baudRate: nat, rateZero: int, rateOne: int)
      requires 0 < baudRate <= 800_000
      ensures Valid() && fresh({zero, one, zero.re, zero.im, one.re, one.im})
    {
      var w, h := Scaling(baudRate);
      var z := new Tone(rateZero, w, h);
      var o := new Tone(rateOne, w, h);
      span, shift, zero, one := w, h, z, o;
      bufPtr, signalPresent, baudPhase := 0, 0, 0;
    }

    /** One pass of the loop of fsk_rx, with its three early exits that leave bufPtr alone; bit is the decision. */
    method Receive(x: Sample) returns (ready: bool, bit: bool)
      requires Valid() && IsInt16(x.amp)
      modifies this, zero, zero.re, zero.im, one, one.re, one.im
      ensures Valid()
      ensures zero.re[..] == old(zero.re[..])[old(bufPtr) := Shr(Dds.Cosine(old(zero.phaseAcc)) * x.amp, shift)]
      ensures zero.im[..] == old(zero.im[..])[old(bufPtr) := Shr(Dds.Lookup(old(zero.phaseAcc)) * x.amp, shift)]
      ensures one.re[..] == old(one.re[..])[old(bufPtr) := Shr(Dds.Cosine(old(one.phaseAcc)) * x.amp, shift)]
      ensures one.im[..] == old(one.im[..])[old(bufPtr) := Shr(Dds.Lookup(old(one.phaseAcc)) * x.amp, shift)]
      ensures Carrier(signalPresent, baudPhase) == NextCarrier(old(Carrier(signalPresent, baudPhase)), span, x)
      ensures ready == Demodulates(old(Carrier(signalPresent, baudPhase)), span, x)
      ensures bufPtr == if !ready then old(bufPtr) else if old(bufPtr) + 1 >= span then 0 else old(bufPtr) + 1
      ensures zero.phaseAcc == Dds.Advanced(old(zero.phaseAcc), zero.phaseRate)
      ensures one.phaseAcc == Dds.Advanced(old(one.phaseAcc), one.phaseRate)
      ensures ready ==>
        bit == (Energy(Total(zero.re[..]), Total(zero.im[..])) < Energy(Total(one.re[..]), Total(one.im[..])))
    {
      hide Total, Limit, BitLength, Bounded, Shr, Energy, Dds.Cosine, Dds.Lookup;
      ready, bit := false, false;
      var sum0 := zero.Correlate(x.amp, bufPtr, span, shift);
      var sum1 := one.Correlate(x.amp, bufPtr, span, shift);
      if signalPresent != 0 {
        if x.belowOff {
          signalPresent := signalPresent - 1;
          if signalPresent <= 0 {
            baudPhase := 0;
            return;
          }
        }
      } else {
        if x.belowOn {
          baudPhase := 0;
          return;
        }
        if baudPhase < span / 2 - 30 {
          baudPhase := baudPhase + 1;
          return;
        }
        signalPresent := 1;
        baudPhase := 0;
      }
      ready, bit := true, sum0 < sum1;
      bufPtr := bufPtr + 1;
      if bufPtr >= span {
        bufPtr := 0;
      }
    }

    /** A sample with the carrier on, as one more of those that the windows track. */
    method ReceiveTracked(x: Sample, ghost z: (seq<int>, seq<int>), ghost o: (seq<int>, seq<int>),
                          ghost pz: nat, ghost po: nat, ghost ptr: nat, ghost amps: seq<int>, ghost n: nat)
      returns (bit: bool)
      requires Valid() && signalPresent > 0 && IsInt16(x.amp) && !x.belowOff
      requires |z.0| == |z.1| == |o.0| == |o.1| == WINDOW
      requires ptr < span == |amps| && n < span && amps[n] == x.amp && bufPtr == Slot(ptr, span, n)
      requires zero.Tracks(z, pz, ptr, span, shift, amps[..n]) && one.Tracks(o, po, ptr, span, shift, amps[..n])
      modifies this, zero, zero.re, zero.im, one, one.re, one.im
      ensures Valid() && signalPresent > 0 && bufPtr == Slot(ptr, span, n + 1)
      ensures zero.Tracks(z, pz, ptr, span, shift, amps[..n + 1]) && one.Tracks(o, po, ptr, span, shift, amps[..n + 1])
      ensures bit == (Energy(Total(zero.re[..]), Total(zero.im[..])) < Energy(Total(one.re[..]), Total(one.im[..])))
    {
      hide Total, Limit, BitLength, Bounded, Shr, Energy, Dds.Cosine, Dds.Lookup, Dds.Advanced, Written, Products;
      NextProduct(true, z.0, pz, zero.phaseRate, ptr, span, shift, amps, n);
      NextProduct(false, z.1, pz, zero.phaseRate, ptr, span, shift, amps, n);
      NextProduct(true, o.0, po, one.phaseRate, ptr, span, shift, amps, n);
      NextProduct(false, o.1, po, one.phaseRate, ptr, span, shift, amps, n);
      var ready;
      ready, bit := Receive(x);
    }

    /**
     * One span of samples with the carrier on: whatever was in the windows before, the decision after them is the
     * one that correlating these samples afresh with each tone gives.
     */
    method ReceiveSpan(xs: seq<Sample>) returns (bit: bool)
      requires Valid() && |xs| == span && signalPresent > 0
      requires forall i :: 0 <= i < |xs| ==> IsInt16(xs[i].amp) && !xs[i].belowOff
      modifies this, zero, zero.re, zero.im, one, one.re, one.im
      ensures Valid() && bufPtr == old(bufPtr)
      ensures bit == (Correlation(old(zero.phaseAcc), zero.phaseRate, shift, Amps(xs))
                      < Correlation(old(one.phaseAcc), one.phaseRate, shift, Amps(xs)))
    {
      hide Total, Limit, BitLength, Pow2, Shr, Energy, Dds.Cosine, Dds.Lookup, Dds.Advanced;
      ghost var z, o := (zero.re[..], zero.im[..]), (one.re[..], one.im[..]);
      ghost var pz, po, ptr, amps := zero.phaseAcc, one.phaseAcc, bufPtr, Amps(xs);
      assert amps[..0] == [];
      assert zero.Tracks(z, pz, ptr, span, shift, amps[..0]) && one.Tracks(o, po, ptr, span, shift, amps[..0]);
      hide Written, Products, Correlation;
      bit := false;
      var i := 0;
      while i < |xs|
        invariant 0 <= i <= |xs| && Valid() && signalPresent > 0 && bufPtr == Slot(ptr, span, i)
        invariant zero.Tracks(z, pz, ptr, span, shift, amps[..i]) && one.Tracks(o, po, ptr, span, shift, amps[..i])
        invariant i > 0 ==>
          bit == (Energy(Total(zero.re[..]), Total(zero.im[..])) < Energy(Total(one.re[..]), Total(one.im[..])))
      {
        bit := ReceiveTracked(xs[i], z, o, pz, po, ptr, amps, i);
        i := i + 1;
      }
      assert amps[..i] == amps;
      Fresh(z, ptr, span, shift, pz, zero.phaseRate, amps);
      Fresh(o, ptr, span, shift, po, one.phaseRate, amps);
    }

    /** fsk_rx_fillin: len samples are missing. It never moves bufPtr. */
    method FillIn(len: nat)
      requires Valid()
      modifies this, zero, zero.re, zero.im, one, one.re, one.im
      ensures Valid() && bufPtr == old(bufPtr)
      ensures len > 0 ==> zero.re[..] == old(zero.re[..])[bufPtr := 0] && zero.im[..] == old(zero.im[..])[bufPtr := 0]
      ensures len > 0 ==> one.re[..] == old(one.re[..])[bufPtr := 0] && one.im[..] == old(one.im[..])[bufPtr := 0]
    {
      hide Total, Limit, BitLength, Bounded, Dds.Advanced;
      var i := 0;
      while i < len
        invariant 0 <= i <= len && Valid() && bufPtr == old(bufPtr)
        invariant zero.re[..] == if i == 0 then old(zero.re[..]) else old(zero.re[..])[bufPtr := 0]
        invariant zero.im[..] == if i == 0 then old(zero.im[..]) else old(zero.im[..])[bufPtr := 0]
        invariant one.re[..] == if i == 0 then old(one.re[..]) else old(one.re[..])[bufPtr := 0]
        invariant one.im[..] == if i == 0 then old(one.im[..]) else old(one.im[..])[bufPtr := 0]
      {
        zero.Skip(bufPtr, span, shift);
        one.Skip(bufPtr, span, shift);
        i := i + 1;
      }
    }
  }
}
