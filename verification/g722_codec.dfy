/** g722_encode and g722_decode in src/g722.c, for sub-band samples, and their lockstep through packing. */
module G722Codec {
  import opened Arith
  import opened Bits
  import opened BitstreamPacking
  import opened CodePacking
  import opened G722Band
  import opened G722

  /** A g722_band_t that block4 updates in place. */
  class BandState {
    const side: Side
    var nb: int
    var det: int
    var s: int
    var sz: int
    var r: int
    var p: seq<int>
    var a: seq<int>
    var b: seq<int>
    var d: seq<int>

    function Value(): Band
      reads this
    {
      Band(nb, det, s, sz, r, p, a, b, d)
    }

    constructor (side: Side)
      ensures this.side == side && Value() == InitialBand(side)
    {
      this.side := side;
      nb, det, s, sz, r := 0, if side.LowBand? then 32 else 8, 0, 0, 0;
      p, a, b, d := [0, 0], [0, 0], [0, 0, 0, 0, 0, 0], [0, 0, 0, 0, 0, 0, 0];
    }

    /** UPPOL2, UPPOL1 and the pole part of block4. */
    method Poles(dx: int) returns (sp: int)
      requires Value().Shaped()
      modifies `r, `p, `a
      ensures r == Sat16(s + dx)
      ensures p == [Sat16(sz + dx), old(p[0])]
      ensures a == Block4(old(Value()), dx).a
      ensures sp == PoleSum(a[0], r, a[1], old(r))
    {
      hide NextA1, NextA2, PoleSum, Sat16, ZeroSum, NextZeros;
      var r0 := Sat16(s + dx);
      var p0 := Sat16(sz + dx);
      var opp0, opp1 := (p0 < 0) != (p[0] < 0), (p0 < 0) != (p[1] < 0);
      var ap2 := NextA2(a[0], a[1], opp0, opp1);
      var ap1 := NextA1(a[0], ap2, opp0);
      sp := PoleSum(ap1, r0, ap2, r);
      r := r0;
      a := [ap1, ap2];
      p := [p0, p[0]];
    }

    /** UPZERO, DELAYA and one product of FILTEZ, for index i. */
    method ZeroAt(i: nat, dx: int) returns (term: int)
      requires |b| == 6 && |d| == 7 && i < 6
      modifies `b, `d
      ensures b == old(b)[i := NextB(old(b[i]), dx, old(d[i + 1]))]
      ensures d == old(d)[i + 1 := old(d[i])]
      ensures term == ZeroTerm(b[i], old(d[i]))
    {
      hide NextB, ZeroTerm;
      b := b[i := NextB(b[i], dx, d[i + 1])];
      term := ZeroTerm(b[i], d[i]);
      d := d[i + 1 := d[i]];
    }

    /** The loop of block4, from the oldest difference to the newest. */
    method Zeros(dx: int)
      requires |b| == 6 && |d| == 7
      modifies `b, `d, `sz
      ensures b == NextZeros(old(b), dx, old(d))
      ensures d == [dx, dx] + old(d[1..6])
      ensures sz == Sat16(ZeroSum(b, [dx] + old(d[1..6]), 0))
    {
      hide NextB, ZeroTerm, Sat16;
      ghost var b0, d0 := b, d[0 := dx];
      ghost var b1 := NextZeros(b0, dx, d0);
      assert d0[..6] == [dx] + old(d[1..6]) && b1 == NextZeros(b0, dx, old(d));
      d := d[0 := dx];
      assert b == b0[..6] + b1[6..] && d == d0[..7] + d0[6..6];
      var sum := 0;
      var i := 6;
      while i > 0
        modifies `b, `d
        invariant 0 <= i <= 6 && |b| == 6 && |d| == 7
        invariant b == b0[..i] + b1[i..]
        invariant d == d0[..i + 1] + d0[i..6]
        invariant sum == ZeroSum(b1, d0[..6], i)
      {
        i := i - 1;
        Patch(b0, b1, i);
        Shift(d0, i);
        assert b1[i] == NextB(b0[i], dx, d0[i + 1]);
        var term := ZeroAt(i, dx);
        sum := sum + term;
      }
      assert b == b1;
      sz := Sat16(sum);
    }

    /** The coefficients from i up are new. */
    static lemma Patch(b0: seq<int>, b1: seq<int>, i: nat)
      requires |b0| == |b1| == 6 && i < 6
      ensures (b0[..i + 1] + b1[i + 1..])[i := b1[i]] == b0[..i] + b1[i..]
      ensures (b0[..i + 1] + b1[i + 1..])[i] == b0[i]
    {
    }

    /** The differences from i up have moved on by one. */
    static lemma Shift(d0: seq<int>, i: nat)
      requires |d0| == 7 && i < 6
      ensures var d := d0[..i + 2] + d0[i + 1..6];
        d[i + 1 := d[i]] == d0[..i + 1] + d0[i..6] && d[i] == d0[i] && d[i + 1] == d0[i + 1]
    {
    }

    /** block4. */
    method Adapt(dx: int)
      requires Value().Shaped()
      modifies `s, `sz, `r, `p, `a, `b, `d
      ensures Value() == Block4(old(Value()), dx)
    {
      hide NextA1, NextA2, PoleSum, Sat16, ZeroSum, NextZeros;
      var sp := Poles(dx);
      Zeros(dx);
      s := Sat16(sp + sz);
    }

    /**
     * LOGSCL, SCALEL and block4, or their high band forms. The encoder stores the new scale factor in its
     * int16_t field before it limits it, the decoder after.
     */
    method Advance(index: nat, cast: bool)
      requires Value().Valid(side) && index < Indices(side)
      modifies this
      ensures Value() == Step(side, old(Value()), index)
    {
      hide NextDet, Scaled, Block4, ScaleStep;
      var dx := Difference(side, det, index);
      ScaleFits(side, nb, index);
      var sum := (nb * 127) / 128 + ScaleStep(side, index);
      nb := if cast then Int16(sum) else sum;
      if nb < 0 {
        nb := 0;
      } else if nb > NbLimit(side) {
        nb := NbLimit(side);
      }
      det := NextDet(side, nb);
      Adapt(dx);
    }
  }

  lemma ScaleFits(side: Side, nb: int, index: nat)
    requires 0 <= nb <= NbLimit(side) && index < Indices(side)
    ensures IsInt16((nb * 127) / 128 + ScaleStep(side, index))
  {
    hide ScaleStep;
  }

  /** The search loop of QUANTL. */
  method QuantizeLow(det: int, el: int) returns (ilow: nat)
    ensures ilow == LowCode(det, el)
  {
    hide Threshold, LevelCode;
    var wd := Fold(el);
    var i := 1;
    while i < 30 && wd >= Threshold(det, i)
      invariant 1 <= i <= 30
      invariant Level(wd, det, i) == Level(wd, det, 1)
    {
      i := i + 1;
    }
    ilow := LevelCode(i, el < 0);
  }

  // ----- the two ends

  /** A g722_encode_state_t behind the transmit QMF. */
  class Encoder {
    const b: Width
    const packed: bool
    const eightK: bool
    const low: BandState
    const high: BandState
    var outBuffer: nat
    var outBits: nat
    ghost var codes: seq<byte> // the 64 kbit/s codes so far
    ghost var bytes: seq<byte> // every byte emitted

    function Pending(): (s: seq<bool>)
      reads `outBuffer, `outBits
      ensures |s| == outBits
    {
      Field(true, outBuffer, outBits)
    }

    /** The bands are those that the codes lead to. */
    ghost predicate Steady()
      reads this, low, high
    {
      && low != high && low.side == LowBand && high.side == HighBand
      && low.Value() == LowAfter(b, CutAll(b, codes))
      && high.Value() == HighAfter(eightK, b, CutAll(b, codes))
    }

    /** The bytes emitted and the pending bits are the codes of this rate. */
    ghost predicate Valid()
      reads this, low, high
    {
      Steady() && Carried()
    }

    ghost predicate Carried()
      reads `codes, `bytes, `outBuffer, `outBits
    {
      && outBits <= 7 && Holds(true, outBuffer, outBits)
      && if packed then BytesBits(true, bytes) + Pending() == CodesBits(true, b, CutAll(b, codes))
         else bytes == CutAll(b, codes)
    }

    /** g722_encode_init. */
    constructor (b: Width, eightK: bool, packed: bool)
      ensures Valid() && fresh(low) && fresh(high) && codes == [] && bytes == []
      ensures this.b == b && this.eightK == eightK && this.packed == (packed && b != 8)
      ensures low.Value() == InitialBand(LowBand) && high.Value() == InitialBand(HighBand)
    {
      this.b, this.eightK, this.packed := b, eightK, packed && b != 8;
      var l := new BandState(LowBand);
      var h := new BandState(HighBand);
      low, high := l, h;
      outBuffer, outBits := 0, 0;
      codes, bytes := [], [];
      new;
      hide Step, Pow2;
    }

    /** One pass of the encoding loop, up to packing. */
    method EncodeSample(x: (int, int)) returns (code: nat)
      requires low != high && low.side == LowBand && high.side == HighBand
      requires low.Value().Valid(LowBand) && high.Value().Valid(HighBand)
      modifies low, high
      ensures var full := FullCode(eightK, old(low.Value()), old(high.Value()), x);
        && code == Cut(b, full)
        && low.Value() == Step(LowBand, old(low.Value()), LowIndex(8, full))
        && high.Value() == if eightK then old(high.Value()) else Step(HighBand, old(high.Value()), HighIndex(8, full))
    {
      hide Step, LowCode, Sat16, Cut, InitialBand, Band.Valid;
      var ilow := QuantizeLow(low.det, Sat16(x.0 - low.s));
      var ril := ilow / 4;
      var high0 := high.Value();
      low.Advance(ril, true);
      if eightK {
        code := Cut(b, 0xC0 + ilow);
        IndicesOf(3, ilow);
      } else {
        var ihigh := HighCode(high.det, Sat16(x.1 - high.s));
        high.Advance(ihigh, true);
        code := Cut(b, ihigh * 64 + ilow);
        IndicesOf(ihigh, ilow);
      }
    }

    /** Packs the bits of a code, and writes a byte once there is one. */
    method Pack(code: nat, data: array<byte>, n: nat) returns (end: nat)
      requires outBits <= 7 && Holds(true, outBuffer, outBits)
      requires code < Pow2(b) && n < data.Length
      modifies `outBuffer, `outBits, data
      ensures outBits <= 7 && Holds(true, outBuffer, outBits)
      ensures n <= end <= n + 1 && forall k :: 0 <= k < n ==> data[k] == old(data[k])
      ensures BytesBits(true, data[n..end]) + Pending() == old(Pending()) + Field(true, code, b)
    {
      hide Joined, Front, Rest, Field, Holds, Pow2, BytesBits;
      JoinedBits(true, outBuffer, outBits, code, b);
      outBuffer := Joined(true, outBuffer, outBits, code, b);
      outBits := outBits + b;
      end := n;
      if outBits >= 8 {
        outBits := outBits - OCTET;
        ByteOut(true, [], outBuffer, outBits);
        data[n] := Front(true, outBuffer, OCTET, outBits);
        outBuffer := Rest(true, outBuffer, OCTET);
        end := n + 1;
        assert data[n..end] == [] + [data[n]];
      }
      BytesBitsFew(true, 0);
    }

    /** Emits a code, which is full cut to the rate. */
    method Emit(code: nat, ghost full: byte, data: array<byte>, n: nat) returns (end: nat)
      requires Carried() && code == Cut(b, full) && n < data.Length
      modifies `outBuffer, `outBits, `codes, `bytes, data
      ensures Carried() && codes == old(codes) + [full]
      ensures n <= end <= n + 1 && forall k :: 0 <= k < n ==> data[k] == old(data[k])
      ensures bytes == old(bytes) + data[n..end]
    {
      hide Cut, BytesBits, CodesBits, Holds, Field, Pow2, CutAll;
      CutFits(b, full);
      CutAllSnoc(b, codes, full);
      if packed {
        CodesBitsSnoc(true, b, CutAll(b, codes), code);
        ghost var pending := Pending();
        end := Pack(code, data, n);
        BytesBitsAppend(true, bytes, data[n..end]);
        RegroupPacked(BytesBits(true, bytes), pending, Field(true, code, b), BytesBits(true, data[n..end]), Pending());
      } else {
        data[n] := code;
        end := n + 1;
        assert data[n..end] == [code];
      }
      bytes := bytes + data[n..end];
      codes := codes + [full];
    }

    /** Encodes one pair of sub-band samples and emits what is ready. */
    method EncodeOne(x: (int, int), data: array<byte>, n: nat) returns (end: nat)
      requires Valid() && n < data.Length
      modifies this, low, high, data
      ensures Valid()
      ensures codes == old(codes) + [FullCode(eightK, old(low.Value()), old(high.Value()), x)]
      ensures low.Value() == Step(LowBand, old(low.Value()), LowIndex(8, codes[|codes| - 1]))
      ensures high.Value()
           == if eightK then old(high.Value())
              else Step(HighBand, old(high.Value()), HighIndex(8, codes[|codes| - 1]))
      ensures n <= end <= n + 1 && forall k :: 0 <= k < n ==> data[k] == old(data[k])
      ensures bytes == old(bytes) + data[n..end]
    {
      hide Step, FullCode, Cut, LowIndex, HighIndex, Indices, Carried, CutAll, LowAfter, HighAfter, Band.Valid;
      ghost var full := FullCode(eightK, low.Value(), high.Value(), x);
      var code := EncodeSample(x);
      Recorded(eightK, b, codes, full);
      end := Emit(code, full, data, n);
    }

    /** g722_encode, after the transmit QMF; the caller gives it at least one byte for each code. */
    method Encode(data: array<byte>, xs: seq<(int, int)>) returns (n: nat)
      requires Valid() && |xs| <= data.Length
      modifies this, low, high, data
      ensures Valid()
      ensures codes == old(codes) + FullCodes(eightK, old(low.Value()), old(high.Value()), xs)
      ensures n <= data.Length && bytes == old(bytes) + data[..n]
    {
      hide Step, FullCode, LowIndex, HighIndex, Carried, Band.Valid, LowAfter, HighAfter, CutAll, Indices, Cut;
      n := 0;
      var i := 0;
      ghost var all := old(codes) + FullCodes(eightK, old(low.Value()), old(high.Value()), xs);
      while i < |xs|
        invariant 0 <= i <= |xs| && 0 <= n <= i
        invariant Valid()
        invariant all == codes + FullCodes(eightK, low.Value(), high.Value(), xs[i..])
        invariant bytes == old(bytes) + data[..n]
      {
        assert xs[i..][1..] == xs[i + 1..];
        n := EncodeOne(xs[i], data, n);
        i := i + 1;
      }
    }
  }

  /** A g722_decode_state_t before the receive QMF. */
  class Decoder {
    const b: Width
    const packed: bool
    const eightK: bool
    const low: BandState
    const high: BandState
    var inBuffer: nat
    var inBits: nat
    ghost var codes: seq<nat>  // the codes so far
    ghost var bytes: seq<byte> // every byte consumed

    function Pending(): (s: seq<bool>)
      reads `inBuffer, `inBits
      ensures |s| == inBits
    {
      Field(true, inBuffer, inBits)
    }

    ghost predicate Steady()
      reads this, low, high
    {
      && low != high && low.side == LowBand && high.side == HighBand
      && low.Value() == LowAfter(b, codes)
      && high.Value() == HighAfter(eightK, b, codes)
    }

    /**
     * Between two calls: the codes and at most seven pending bits are the bytes consumed. The last byte is always
     * read for a code that needs it, so it leaves at least the bits that the code before cannot have left.
     */
    ghost predicate Valid()
      reads this, low, high
    {
      Steady() && Carried() && (packed ==> b < 8 && (bytes != [] ==> inBits >= 8 - b))
    }

    ghost predicate Carried()
      reads `codes, `bytes, `inBuffer, `inBits
    {
      && inBits <= 7 && Holds(true, inBuffer, inBits)
      && if packed then Fits(b, codes) && CodesBits(true, b, codes) + Pending() == BytesBits(true, bytes)
         else codes == bytes
    }

    /** g722_decode_init. */
    constructor (b: Width, eightK: bool, packed: bool)
      ensures Valid() && fresh(low) && fresh(high) && codes == [] && bytes == []
      ensures this.b == b && this.eightK == eightK && this.packed == (packed && b != 8)
    {
      this.b, this.eightK, this.packed := b, eightK, packed && b != 8;
      var l := new BandState(LowBand);
      var h := new BandState(HighBand);
      low, high := l, h;
      inBuffer, inBits := 0, 0;
      codes, bytes := [], [];
      new;
      hide Step, Pow2;
    }

    /** The bits of one code, after a further byte if it needs one. */
    method Unpack(data: seq<byte>, j: nat) returns (code: nat, end: nat)
      requires inBits <= 7 && Holds(true, inBuffer, inBits) && j < |data|
      modifies `inBuffer, `inBits
      ensures inBits <= 7 && Holds(true, inBuffer, inBits)
      ensures j <= end <= |data| && code < Pow2(b)
      ensures Field(true, code, b) + Pending() == old(Pending()) + BytesBits(true, data[j..end])
      ensures inBits + 8 * (|data| - end) < old(inBits) + 8 * (|data| - j)
      ensures end > j ==> inBits >= 8 - b
    {
      hide Joined, Front, Rest, Field, Holds, Pow2, BytesBits;
      end := j;
      BytesBitsFew(true, 0);
      if inBits < b {
        BytesBitsFew(true, data[j]);
        assert data[j..j + 1] == [data[j]];
        JoinByte(true, inBuffer, inBits, data[j]);
        inBuffer := Joined(true, inBuffer, inBits, data[j], OCTET);
        inBits := inBits + 8;
        end := j + 1;
      }
      inBits := inBits - b;
      FrontRestBits(true, inBuffer, b, inBits);
      code := Front(true, inBuffer, b, inBits);
      inBuffer := Rest(true, inBuffer, b);
    }

    /** One pass of the decoding loop, from the code on. */
    method DecodeSample(code: nat) returns (rlow: int, rhigh: int)
      requires low != high && low.side == LowBand && high.side == HighBand
      requires low.Value().Valid(LowBand) && high.Value().Valid(HighBand)
      modifies low, high
      ensures rlow == LowOutput(b, old(low.Value()), code)
      ensures rhigh == if eightK then 0 else HighOutput(b, old(high.Value()), code)
      ensures low.Value() == Step(LowBand, old(low.Value()), LowIndex(b, code))
      ensures high.Value()
           == if eightK then old(high.Value()) else Step(HighBand, old(high.Value()), HighIndex(b, code))
    {
      hide Step, LowOutput, HighOutput, LowIndex, HighIndex, Band.Valid;
      rlow := LowOutput(b, low.Value(), code);
      low.Advance(LowIndex(b, code), false);
      rhigh := 0;
      if !eightK {
        rhigh := HighOutput(b, high.Value(), code);
        high.Advance(HighIndex(b, code), false);
      }
    }

    /** Takes one code, packed or not. */
    method Take(data: seq<byte>, j: nat) returns (code: nat, end: nat)
      requires Carried() && j < |data|
      modifies `inBuffer, `inBits, `codes, `bytes
      ensures Carried() && codes == old(codes) + [code]
      ensures j <= end <= |data| && bytes == old(bytes) + data[j..end]
      ensures inBits + 8 * (|data| - end) < old(inBits) + 8 * (|data| - j)
      ensures packed && end > j ==> inBits >= 8 - b
    {
      hide BytesBits, CodesBits, Holds, Field, Pow2;
      if packed {
        ghost var pending := Pending();
        code, end := Unpack(data, j);
        CodesBitsSnoc(true, b, codes, code);
        BytesBitsAppend(true, bytes, data[j..end]);
        RegroupTaken(CodesBits(true, b, codes), pending, Field(true, code, b), Pending(),
                     BytesBits(true, bytes), BytesBits(true, data[j..end]));
      } else {
        code, end := data[j], j + 1;
        assert data[j..end] == [data[j]];
      }
      codes, bytes := codes + [code], bytes + data[j..end];
    }

    /** Takes and decodes one code. */
    method DecodeOne(data: seq<byte>, j: nat) returns (out: (int, int), end: nat)
      requires Steady() && Carried() && j < |data|
      modifies this, low, high
      ensures Steady() && Carried() && j <= end <= |data| && bytes == old(bytes) + data[j..end]
      ensures |codes| == |old(codes)| + 1 && old(codes) <= codes
      ensures out == OutputAt(eightK, b, codes, |codes| - 1)
      ensures inBits + 8 * (|data| - end) < old(inBits) + 8 * (|data| - j)
      ensures packed && end > j ==> inBits >= 8 - b
    {
      hide Step, LowOutput, HighOutput, LowIndex, HighIndex, Carried, Indices, Band.Valid, LowAfter, HighAfter;
      var code;
      code, end := Take(data, j);
      assert codes[..|codes| - 1] == old(codes);
      LowAfterSnoc(b, old(codes), code);
      HighAfterSnoc(eightK, b, old(codes), code);
      var rlow, rhigh := DecodeSample(code);
      out := (rlow, rhigh);
    }

    /**
     * g722_decode, before the receive QMF. It stops when it has read the last byte, even with a whole code left:
     * DecodedCount says exactly how many codes that makes.
     */
    method Decode(data: seq<byte>) returns (out: seq<(int, int)>)
      requires Valid()
      modifies this, low, high
      ensures Valid() && bytes == old(bytes) + data
      ensures |codes| == |old(codes)| + |out| && old(codes) <= codes
      ensures |codes| == if packed then LazyCount(b, |bytes|) else |bytes|
      ensures forall k :: 0 <= k < |out| ==> out[k] == OutputAt(eightK, b, codes, |old(codes)| + k)
    {
      hide OutputAt, BytesBits, CodesBits, Holds, Field, LowAfter, HighAfter, Fits, Pow2, LazyCount;
      out := [];
      var j := 0;
      while j < |data|
        invariant 0 <= j <= |data| && Steady() && Carried() && bytes == old(bytes) + data[..j]
        invariant packed && j == |data| && bytes != [] ==> inBits >= 8 - b
        invariant |codes| == |old(codes)| + |out| && old(codes) <= codes
        invariant forall k :: 0 <= k < |out| ==> out[k] == OutputAt(eightK, b, codes, |old(codes)| + k)
        decreases inBits + 8 * (|data| - j)
      {
        ghost var was := codes;
        var o;
        o, j := DecodeOne(data, j);
        OutputsStand(eightK, b, was, codes);
        out := out + [o];
      }
      CodesTaken();
    }

    lemma CodesTaken()
      requires Valid()
      ensures |codes| == if packed then LazyCount(b, |bytes|) else |bytes|
    {
      hide LazyCount;
      if packed {
        DecodedCount(this);
      }
    }
  }

  predicate Fits(b: Width, codes: seq<nat>) {
    forall i :: 0 <= i < |codes| ==> codes[i] < Pow2(b)
  }

  lemma IndicesOf(ihigh: nat, ilow: nat)
    requires ihigh < 4 && ilow < 64
    ensures LowIndex(8, ihigh * 64 + ilow) == ilow / 4 && HighIndex(8, ihigh * 64 + ilow) == ihigh
  {
  }

  /** A further 64 kbit/s code moves the bands on, whatever the rate. */
  lemma Recorded(eightK: bool, b: Width, codes: seq<byte>, full: byte)
    ensures LowAfter(b, CutAll(b, codes + [full])) == Step(LowBand, LowAfter(b, CutAll(b, codes)), LowIndex(8, full))
    ensures HighAfter(eightK, b, CutAll(b, codes + [full]))
         == if eightK then HighAfter(eightK, b, CutAll(b, codes))
            else Step(HighBand, HighAfter(eightK, b, CutAll(b, codes)), HighIndex(8, full))
  {
    hide *;
    Embedded(b, full);
    CutAllSnoc(b, codes, full);
    LowAfterSnoc(b, CutAll(b, codes), Cut(b, full));
    HighAfterSnoc(eightK, b, CutAll(b, codes), Cut(b, full));
  }

  lemma CutFits(b: Width, full: byte)
    ensures Cut(b, full) < Pow2(b) <= 256
  {
    hide *;
    Embedded(b, full);
    Pow2Of8(b);
  }

  lemma CutAllSnoc(b: Width, codes: seq<byte>, full: byte)
    ensures CutAll(b, codes + [full]) == CutAll(b, codes) + [Cut(b, full)]
  {
    hide Cut;
    assert (codes + [full])[..|codes|] == codes;
  }

  lemma Pow2Of8(b: Width)
    ensures Pow2(b) <= 256
  {
    Pow2Monotone(b, 8);
    assert Pow2(8) == 256;
  }

  /** A longer stream stands for the same samples so far. */
  lemma OutputsStand(eightK: bool, b: Width, codes: seq<nat>, more: seq<nat>)
    requires codes <= more
    ensures forall j :: 0 <= j < |codes| ==> OutputAt(eightK, b, codes, j) == OutputAt(eightK, b, more, j)
  {
    hide LowAfter, HighAfter, LowOutput, HighOutput;
    forall j | 0 <= j < |codes|
      ensures OutputAt(eightK, b, codes, j) == OutputAt(eightK, b, more, j)
    {
      assert codes[..j] == more[..j];
    }
  }

  // ----- how many codes the decoder takes

  /** The codes of b bits that a loop takes which reads a byte only when it must, and stops after the last one. */
  function LazyCount(b: Width, bytes: nat): nat {
    if bytes == 0 then 0 else 8 * (bytes - 1) / b + 1
  }

  lemma LazyCountIs(b: Width, codes: nat, left: nat, bytes: nat)
    requires b * codes + left == 8 * bytes && 8 - b <= left <= 7 && bytes > 0 && b < 8
    ensures codes == LazyCount(b, bytes)
    ensures codes == 8 * bytes / b - (if 8 * bytes % b == 0 then 1 else 0)
    ensures left >= b <==> 8 * bytes % b == 0
  {
    if b == 6 {
      LazyCount48(codes, left, bytes);
    } else {
      LazyCount56(codes, left, bytes);
    }
  }

  /** An even number of bits never leaves seven beside codes of six. */
  lemma LazyCount48(codes: nat, left: nat, bytes: nat)
    requires 6 * codes + left == 8 * bytes && 2 <= left <= 7 && bytes > 0
    ensures codes == 8 * (bytes - 1) / 6 + 1
    ensures codes == 8 * bytes / 6 - (if 8 * bytes % 6 == 0 then 1 else 0)
    ensures left >= 6 <==> 8 * bytes % 6 == 0
  {
    WholeCodes(6, codes - 1, left - 2, 8 * (bytes - 1));
    if left < 6 {
      WholeCodes(6, codes, left, 8 * bytes);
    } else {
      WholeCodes(6, codes + 1, 0, 8 * bytes);
    }
  }

  lemma LazyCount56(codes: nat, left: nat, bytes: nat)
    requires 7 * codes + left == 8 * bytes && 1 <= left <= 7 && bytes > 0
    ensures codes == 8 * (bytes - 1) / 7 + 1
    ensures codes == 8 * bytes / 7 - (if 8 * bytes % 7 == 0 then 1 else 0)
    ensures left >= 7 <==> 8 * bytes % 7 == 0
  {
    WholeCodes(7, codes - 1, left - 1, 8 * (bytes - 1));
    if left < 7 {
      WholeCodes(7, codes, left, 8 * bytes);
    } else {
      WholeCodes(7, codes + 1, 0, 8 * bytes);
    }
  }

  /**
   * After any calls a packed decoder has every code wholly contained in the bytes it was given, but for the last one
   * when the bytes end where a code does; exactly then a whole code is left for the next call.
   */
  lemma DecodedCount(decoder: Decoder)
    requires decoder.Valid() && decoder.packed
    ensures |decoder.codes| == LazyCount(decoder.b, |decoder.bytes|)
    ensures decoder.bytes != [] ==> (
      var bits := 8 * |decoder.bytes|;
      && |decoder.codes| == bits / decoder.b - (if bits % decoder.b == 0 then 1 else 0)
      && (decoder.inBits >= decoder.b <==> bits % decoder.b == 0))
  {
    hide LowAfter, HighAfter, BytesBits, CodesBits, Field, Holds, Pow2;
    Lengths(true, decoder.b, decoder.codes, decoder.Pending(), decoder.bytes);
    if decoder.bytes != [] {
      LazyCountIs(decoder.b, |decoder.codes|, decoder.inBits, |decoder.bytes|);
    }
  }

  /** 7 bytes hold 8 codes of 56 kbit/s, and 3 bytes hold 4 of 48 kbit/s: one call decodes all but the last. */
  method HeldBack(fast: bool, data: seq<byte>) returns (out: seq<(int, int)>)
    requires |data| == if fast then 7 else 3
    ensures |out| == 8 * |data| / (if fast then 7 else 6) - 1
    ensures 8 * |data| % (if fast then 7 else 6) == 0
  {
    var decoder := new Decoder(if fast then 7 else 6, false, true);
    out := decoder.Decode(data);
    assert [] + data == data;
    DecodedCount(decoder);
  }

  // ----- lockstep

  /**
   * Whatever the calls in which samples were encoded and bytes decoded, and whatever the rate: a decoder that has
   * consumed the first of the bytes emitted has the first codes, as many as DecodedCount says, and its low band
   * is where the encoder's was after that many codes. So is its high band, if both ends use it.
   */
  lemma Lockstep(encoder: Encoder, decoder: Decoder)
    requires encoder.Valid() && decoder.Valid()
    requires encoder.b == decoder.b && encoder.packed == decoder.packed
    requires decoder.bytes <= encoder.bytes
    ensures |decoder.codes| <= |encoder.codes|
    ensures decoder.codes == CutAll(encoder.b, encoder.codes[..|decoder.codes|])
    ensures |decoder.codes| == if decoder.packed then LazyCount(decoder.b, |decoder.bytes|) else |decoder.bytes|
    ensures decoder.low.Value() == LowAfter(8, encoder.codes[..|decoder.codes|])
    ensures encoder.eightK == decoder.eightK ==>
      decoder.high.Value() == HighAfter(encoder.eightK, 8, encoder.codes[..|decoder.codes|])
  {
    hide LowAfter, HighAfter, BytesBits, CodesBits, Field, Holds, Pow2, Cut;
    var b, sent := encoder.b, CutAll(encoder.b, encoder.codes);
    if decoder.packed {
      CutAllFits(b, encoder.codes);
      ReadIsPrefix(true, b, sent, encoder.Pending(), encoder.bytes, decoder.codes, decoder.Pending(), decoder.bytes);
      DecodedCount(decoder);
    }
    assert decoder.codes <= sent;
    var n := |decoder.codes|;
    CutAllPrefix(b, encoder.codes, n);
    RatesAgree(encoder.eightK, b, encoder.codes[..n]);
  }

  lemma CutAllFits(b: Width, codes: seq<byte>)
    ensures Fits(b, CutAll(b, codes))
  {
    hide Cut, Pow2;
    forall i | 0 <= i < |codes|
      ensures CutAll(b, codes)[i] < Pow2(b)
    {
      Embedded(b, codes[i]);
    }
  }

  /** The encoder's bands after any number of its codes: the ones the decoder is compared with. */
  lemma EncoderBands(encoder: Encoder)
    requires encoder.Valid()
    ensures encoder.low.Value() == LowAfter(8, encoder.codes)
    ensures encoder.high.Value() == HighAfter(encoder.eightK, 8, encoder.codes)
  {
    hide LowAfter, HighAfter, BytesBits, CodesBits, Field, Holds, Pow2, Cut;
    RatesAgree(encoder.eightK, encoder.b, encoder.codes);
  }
}
