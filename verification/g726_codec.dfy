/** g726_encode and g726_decode in src/g726.c: the codec state, and the packing of its codes. */
module G726Codec {
  import opened Arith
  import opened Bits
  import opened BitstreamPacking
  import opened CodePacking
  import opened G726
  import opened G726Adapt
  import Stability

  datatype Packing = Unpacked | LeftPacked | RightPacked

  predicate AreCodes(rate: Rate, codes: seq<nat>) {
    forall i :: 0 <= i < |codes| ==> codes[i] < Codes(rate)
  }

  predicate AreSamples(amp: seq<int>) {
    forall i :: 0 <= i < |amp| ==> IsInt16(amp[i])
  }

  /** The codes of 16-bit samples, which are first linearized to 14 bits. */
  function CodesFor(rate: Rate, s: State, amp: seq<int>): (codes: seq<nat>)
    requires s.Valid() && AreSamples(amp)
    ensures |codes| == |amp| && AreCodes(rate, codes)
    decreases |amp|
  {
    hide CodeOf, Adapted, Codes;
    if amp == [] then []
    else
      var code := CodeOf(rate, s, amp[0] / 4);
      [code] + CodesFor(rate, Adapted(rate, s, code), amp[1..])
  }

  /** The 16-bit sample that code j of a stream stands for. */
  function SampleAt(rate: Rate, codes: seq<nat>, j: nat): int
    requires AreCodes(rate, codes) && j < |codes|
  {
    Int16(Signal(rate, StateAfter(rate, codes[..j]), codes[j]) * 4)
  }

  lemma TableSizes(rate: Rate)
    ensures TablesOf(rate).states > 0 && (TablesOf(rate).states - 1) / 2 == |TablesOf(rate).qtab|
  {
  }

  /** quantize, with its table search. */
  method QuantizeDifference(rate: Rate, d: int, y: int) returns (code: nat)
    requires -0x7FFF <= d <= 0x7FFF
    ensures code == Quantize(rate, d, y)
  {
    hide Log, Find;
    TableSizes(rate);
    hide TablesOf;
    var t := TablesOf(rate);
    var dln := Log(Abs(d)) - y / 4;
    var size := (t.states - 1) / 2;
    var i := 0;
    while i < size && dln >= t.qtab[i]
      invariant 0 <= i <= size == |t.qtab|
      invariant forall j :: 0 <= j < i ==> t.qtab[j] <= dln
    {
      i := i + 1;
    }
    if d < 0 {
      code := size * 2 + 1 - i;
    } else if i == 0 && t.states % 2 == 1 {
      code := t.states;
    } else {
      code := i;
    }
  }

  /** A g726_state_t for linear samples. */
  class Codec {
    const rate: Rate
    const packing: Packing
    var yl: int
    var yu: int
    var dms: int
    var dml: int
    var ap: int
    var a: seq<int>
    var b: seq<int>
    var pk: seq<bool>
    var dq: seq<int>
    var sr: seq<int>
    var td: bool
    var bitstream: nat
    var residue: nat
    ghost var codes: seq<nat>  // every code so far
    ghost var bytes: seq<byte> // every byte emitted (encoder) or consumed (decoder)

    /** The adaptive part of the state. */
    function Adaptive(): State
      reads this
    {
      State(yl, yu, dms, dml, ap, a, b, pk, dq, sr, td)
    }

    /** The state after the first n codes. */
    ghost function StateAt(n: nat): State
      requires AreCodes(rate, codes) && n <= |codes|
      reads this
    {
      StateAfter(rate, codes[..n])
    }

    ghost predicate Steady()
      reads this
    {
      AreCodes(rate, codes) && Adaptive() == StateAfter(rate, codes)
    }

    predicate Lsb()
    {
      packing != LeftPacked
    }

    function Width(): nat
    {
      TablesOf(rate).bits
    }

    function Pending(): (s: seq<bool>)
      reads `bitstream, `residue
      ensures |s| == residue
    {
      Field(Lsb(), bitstream, residue)
    }

    ghost predicate Encoding()
      reads this
    {
      Steady() && Emitted()
    }

    /** The bytes emitted and the pending bits are the codes. */
    ghost predicate Emitted()
      reads `bitstream, `residue, `codes, `bytes
    {
      && residue <= 7 && Holds(Lsb(), bitstream, residue)
      && if packing == Unpacked then bytes == codes
         else BytesBits(Lsb(), bytes) + Pending() == CodesBits(Lsb(), Width(), codes)
    }

    /** The codes and the pending bits, too few for a code, are the bytes consumed. */
    ghost predicate Decoding()
      reads this
    {
      && Steady()
      && residue < Width() && Holds(Lsb(), bitstream, residue)
      && if packing == Unpacked then residue == 0 && codes == Masked(rate, bytes)
         else CodesBits(Lsb(), Width(), codes) + Pending() == BytesBits(Lsb(), bytes)
    }

    /** g726_init. */
    constructor (rate: Rate, packing: Packing)
      ensures this.rate == rate && this.packing == packing
      ensures Adaptive() == Initial()
      ensures codes == [] && bytes == [] && Encoding() && Decoding()
    {
      this.rate, this.packing := rate, packing;
      yl, yu, dms, dml, ap := 34816, 544, 0, 0, 0;
      a, pk, sr := [0, 0], [false, false], [32, 32];
      b, dq := [0, 0, 0, 0, 0, 0], [32, 32, 32, 32, 32, 32];
      td := false;
      bitstream, residue := 0, 0;
      codes, bytes := [], [];
      new;
      assert Adaptive() == Initial();
      hide Adapted, TablesOf, Pow2, Field, BytesBits, CodesBits, Holds, Initial, StateAfter, Masked;
      NothingPacked(Lsb(), Width());
      NothingCoded(rate);
      WidthBounds(rate);
    }

    // ----- update

    /** UPA2 and LIMC. */
    static method AdaptedA2(a1: int, a2: int, dqsez: int, flip1: bool, flip2: bool) returns (a2p: int)
      ensures a2p == NextA2(a1, a2, dqsez, flip1, flip2)
    {
      a2p := a2 - a2 / 128;
      if dqsez != 0 {
        var fa1 := if flip1 then a1 else -a1;
        if fa1 < -8191 {
          a2p := a2p - 0x100;
        } else if fa1 > 8191 {
          a2p := a2p + 0xFF;
        } else {
          a2p := a2p + fa1 / 32;
        }
        if flip2 {
          a2p := if a2p <= -12160 then -12288 else if a2p >= 12416 then 12288 else a2p - 0x80;
        } else {
          a2p := if a2p <= -12416 then -12288 else if a2p >= 12160 then 12288 else a2p + 0x80;
        }
      }
    }

    /** UPA1 and LIMD. */
    static method AdaptedA1(a1: int, a2p: int, dqsez: int, flip1: bool) returns (r: int)
      requires a2p <= 12288
      ensures r == NextA1(a1, a2p, dqsez, flip1)
    {
      r := a1 - a1 / 256;
      if dqsez != 0 {
        r := if flip1 then r - 192 else r + 192;
      }
      var a1ul := 15360 - a2p;
      if r < -a1ul {
        r := -a1ul;
      } else if r > a1ul {
        r := a1ul;
      }
    }

    method AdaptPoles(dqsez: int) returns (a2p: int)
      requires Adaptive().Valid()
      modifies `a
      ensures a == NextPoles(old(Adaptive()), false, dqsez) && a2p == a[1]
    {
      hide NextA1, NextA2;
      var pk0 := dqsez < 0;
      PolesInRange(a[0], a[1], dqsez, pk0 != pk[0], pk0 != pk[1]);
      a2p := AdaptedA2(a[0], a[1], dqsez, pk0 != pk[0], pk0 != pk[1]);
      var a1 := AdaptedA1(a[0], a2p, dqsez, pk0 != pk[0]);
      a := [a1, a2p];
    }

    /** UPB. */
    method AdaptZeros(dq0: int)
      requires |b| == |dq|
      modifies `b
      ensures b == NextZeros(rate, old(b), dq0, dq)
    {
      hide NextB;
      ghost var was := b;
      var i := 0;
      while i < |b|
        invariant 0 <= i <= |b| == |was| == |dq|
        invariant forall k :: 0 <= k < i ==> b[k] == NextB(rate, was[k], dq0, dq[k])
        invariant forall k :: i <= k < |b| ==> b[k] == was[k]
      {
        b := b[i := NextB(rate, b[i], dq0, dq[i])];
        i := i + 1;
      }
    }

    /** The delay lines, with FLOAT A and FLOAT B for their new first elements. */
    method Delay(dq0: int, sr0: int, dqsez: int)
      requires |dq| == 6 && |sr| == 2 && |pk| == 2
      modifies `dq, `sr, `pk
      ensures dq == [FloatA(dq0)] + old(dq[..5])
      ensures sr == [FloatB(sr0), old(sr[0])]
      ensures pk == [dqsez < 0, old(pk[0])]
    {
      hide FloatA, FloatB;
      ghost var was := dq;
      var i := 5;
      while i > 0
        modifies `dq
        invariant 0 <= i <= 5 && |dq| == 6
        invariant forall k :: 0 <= k <= i ==> dq[k] == was[k]
        invariant forall k :: i < k <= 5 ==> dq[k] == was[k - 1]
      {
        dq := dq[i := dq[i - 1]];
        i := i - 1;
      }
      dq := dq[0 := FloatA(dq0)];
      sr := [FloatB(sr0), sr[0]];
      pk := [dqsez < 0, pk[0]];
    }

    /** TONE, FILTA, FILTB and FILTC. */
    method AdaptSpeed(tr: bool, a2p: int, y: int, fi: int)
      modifies `td, `dms, `dml, `ap
      ensures td == (!tr && a2p < -11776)
      ensures dms == NextDms(old(dms), fi) && dml == NextDml(old(dml), fi)
      ensures ap == NextAp(old(ap), tr, y, td, dms, dml)
    {
      td := if tr then false else a2p < -11776;
      dms := dms + (fi - dms) / 32;
      dml := dml + (fi * 4 - dml) / 128;
      if tr {
        ap := 256;
      } else if y < 1536 {
        ap := ap + (0x200 - ap) / 16;
      } else if td {
        ap := ap + (0x200 - ap) / 16;
      } else if Abs(dms * 4 - dml) >= dml / 8 {
        ap := ap + (0x200 - ap) / 16;
      } else {
        ap := ap + (-ap) / 16;
      }
    }

    /** LIMB, FILTD and FILTE. */
    method AdaptScale(y: int, wi: int)
      modifies `yu, `yl
      ensures yu == NextYu(y, wi) && yl == NextYl(old(yl), yu)
    {
      yu := Int16(y + (wi - y) / 32);
      if yu < 544 {
        yu := 544;
      } else if yu > 5120 {
        yu := 5120;
      }
      yl := yl + (yu + (-yl) / 64);
    }

    /** update. */
    method Update(y: int, wi: int, fi: int, dq0: int, sr0: int, dqsez: int)
      requires Adaptive().Valid()
      modifies `yl, `yu, `dms, `dml, `ap, `a, `b, `pk, `dq, `sr, `td
      ensures Adaptive() == G726Adapt.Update(rate, old(Adaptive()), y, wi, fi, dq0, sr0, dqsez)
    {
      hide Threshold, NextYu, NextYl, NextA1, NextA2, NextB, NextZeros, FloatA, FloatB, NextAp, NextDms, NextDml;
      var tr := td && dq0 % 0x8000 > Threshold(yl);
      var a2p := 0;
      if tr {
        a := [0, 0];
        b := [0, 0, 0, 0, 0, 0];
      } else {
        a2p := AdaptPoles(dqsez);
        AdaptZeros(dq0);
      }
      AdaptScale(y, wi);
      Delay(dq0, sr0, dqsez);
      AdaptSpeed(tr, a2p, y, fi);
    }

    // ----- one sample

    /** The common part of the encoder and decoder functions: everything that follows from the code. */
    method Reconstructed(code: nat, y: int, se: int, sezi: int) returns (sr0: int)
      requires Adaptive().Valid() && code < Codes(rate)
      requires y == StepSize(Adaptive()) && se == Estimate(Adaptive()) && sezi == PredictorZero(Adaptive())
      modifies `yl, `yu, `dms, `dml, `ap, `a, `b, `pk, `dq, `sr, `td
      ensures sr0 == Signal(rate, old(Adaptive()), code)
      ensures Adaptive() == Adapted(rate, old(Adaptive()), code)
    {
      hide G726Adapt.Update, Reconstruct, Rebuilt, StepSize, Estimate, PredictorZero, TablesOf;
      var t := TablesOf(rate);
      FiInRange(rate, code);
      var dq0 := Reconstruct(rate, code, y);
      sr0 := Int16(Rebuilt(rate, se, dq0));
      var dqsez := Int16(sr0 + sezi / 2 - se);
      Update(y, t.witab[code], t.fitab[code], dq0, sr0, dqsez);
    }

    /** The encoder functions. */
    method EncodeSample(amp: int) returns (code: nat)
      requires Adaptive().Valid() && -0x2000 <= amp <= 0x1FFF
      modifies `yl, `yu, `dms, `dml, `ap, `a, `b, `pk, `dq, `sr, `td
      ensures code == CodeOf(rate, old(Adaptive()), amp)
      ensures Adaptive() == Adapted(rate, old(Adaptive()), code)
    {
      hide Adapted, Signal, StepSize, Quantize, PredictorZero, PredictorPole;
      var sezi := PredictorZero(Adaptive());
      var sei := Int16(sezi + PredictorPole(Adaptive()));
      var se := sei / 2;
      var d := Int16(amp - se);
      var y := StepSize(Adaptive());
      code := QuantizeDifference(rate, d, y);
      var sr0 := Reconstructed(code, y, se, sezi);
    }

    /** The decoder functions, for linear output. */
    method DecodeSample(data: nat) returns (amp: int)
      requires Adaptive().Valid()
      modifies `yl, `yu, `dms, `dml, `ap, `a, `b, `pk, `dq, `sr, `td
      ensures amp == Int16(Signal(rate, old(Adaptive()), data % Codes(rate)) * 4)
      ensures Adaptive() == Adapted(rate, old(Adaptive()), data % Codes(rate))
    {
      hide Adapted, Signal, StepSize, PredictorZero, PredictorPole;
      var code := data % Codes(rate);
      var sezi := PredictorZero(Adaptive());
      var sei := Int16(sezi + PredictorPole(Adaptive()));
      var y := StepSize(Adaptive());
      var se := sei / 2;
      var sr0 := Reconstructed(code, y, se, sezi);
      amp := Int16(sr0 * 4);
    }

    // ----- packing

    /** Packs the bits of a code, and writes a byte once there is one. */
    method Pack(code: nat, data: array<byte>, n: nat) returns (end: nat)
      requires residue <= 7 && Holds(Lsb(), bitstream, residue)
      requires code < Pow2(Width()) && n < data.Length
      modifies `bitstream, `residue, data
      ensures residue <= 7 && Holds(Lsb(), bitstream, residue)
      ensures n <= end <= n + 1 && forall k :: 0 <= k < n ==> data[k] == old(data[k])
      ensures BytesBits(Lsb(), data[n..end]) + Pending() == old(Pending()) + Field(Lsb(), code, Width())
    {
      hide Joined, Front, Rest, Field, Holds, Pow2, BytesBits;
      WidthBounds(rate);
      hide TablesOf;
      JoinedBits(Lsb(), bitstream, residue, code, Width());
      bitstream := Joined(Lsb(), bitstream, residue, code, Width());
      residue := residue + Width();
      end := n;
      ghost var text := Pending();
      if residue >= 8 {
        residue := residue - OCTET;
        ByteOut(Lsb(), [], bitstream, residue);
        data[n] := Front(Lsb(), bitstream, OCTET, residue);
        bitstream := Rest(Lsb(), bitstream, OCTET);
        end := n + 1;
        assert data[n..end] == [] + [data[n]];
      }
      BytesBitsFew(Lsb(), 0);
    }

    /** Emits what is ready once there is one more code. */
    method Emit(code: nat, data: array<byte>, n: nat) returns (end: nat)
      requires Emitted() && code < Pow2(Width()) && code < 256 && n < data.Length
      modifies `bitstream, `residue, `codes, `bytes, data
      ensures Emitted() && codes == old(codes) + [code]
      ensures n <= end <= n + 1 && forall k :: 0 <= k < n ==> data[k] == old(data[k])
      ensures bytes == old(bytes) + data[n..end]
    {
      hide BytesBits, CodesBits, Holds, Field, TablesOf, Pow2;
      if packing != Unpacked {
        ghost var pending := Pending();
        CodesBitsSnoc(Lsb(), Width(), codes, code);
        end := Pack(code, data, n);
        BytesBitsAppend(Lsb(), bytes, data[n..end]);
        RegroupPacked(BytesBits(Lsb(), bytes), pending, Field(Lsb(), code, Width()),
                      BytesBits(Lsb(), data[n..end]), Pending());
      } else {
        data[n] := code;
        end := n + 1;
        assert data[n..end] == [code];
      }
      codes, bytes := codes + [code], bytes + data[n..end];
    }

    /** Encodes one sample and emits what is ready. */
    method EncodeOne(amp: int, data: array<byte>, n: nat) returns (end: nat)
      requires Encoding() && IsInt16(amp) && n < data.Length
      modifies this, data
      ensures Encoding()
      ensures codes == old(codes) + [CodeOf(rate, old(Adaptive()), amp / 4)]
      ensures Adaptive() == Adapted(rate, old(Adaptive()), CodeOf(rate, old(Adaptive()), amp / 4))
      ensures n <= end <= n + 1 && forall k :: 0 <= k < n ==> data[k] == old(data[k])
      ensures bytes == old(bytes) + data[n..end]
    {
      hide Adapted, CodeOf, Codes, BytesBits, CodesBits, Holds, Field, TablesOf, Pow2;
      var code := EncodeSample(amp / 4);
      CodesFit(rate, code);
      StateAfterSnoc(rate, codes, code);
      end := Emit(code, data, n);
    }

    /** g726_encode for linear samples; the caller gives it at least one byte for each sample. */
    method Encode(data: array<byte>, amp: seq<int>) returns (n: nat)
      requires Encoding() && AreSamples(amp) && |amp| <= data.Length
      modifies this, data
      ensures Encoding()
      ensures codes == old(codes) + CodesFor(rate, old(Adaptive()), amp)
      ensures n <= data.Length && bytes == old(bytes) + data[..n]
    {
      hide CodeOf, Adapted, TablesOf, Codes, BytesBits, CodesBits, Holds, Field, State.InRange;
      n := 0;
      var i := 0;
      while i < |amp|
        invariant 0 <= i <= |amp| && 0 <= n <= i
        invariant Encoding() && Adaptive().Valid()
        invariant old(codes) + CodesFor(rate, old(Adaptive()), amp) == codes + CodesFor(rate, Adaptive(), amp[i..])
        invariant bytes == old(bytes) + data[..n]
      {
        assert amp[i..][1..] == amp[i + 1..];
        n := EncodeOne(amp[i], data, n);
        i := i + 1;
      }
    }

    // ----- unpacking

    /** Takes the bits of one code, after a further byte if it needs one; fails if there is none. */
    method Unpack(data: seq<byte>, i: nat) returns (ok: bool, code: nat, end: nat)
      requires residue <= 7 && Holds(Lsb(), bitstream, residue) && i <= |data|
      modifies `bitstream, `residue
      ensures residue <= 7 && Holds(Lsb(), bitstream, residue)
      ensures i <= end <= |data| && code < Pow2(Width())
      ensures ok ==> Field(Lsb(), code, Width()) + Pending() == old(Pending()) + BytesBits(Lsb(), data[i..end])
      ensures ok ==> Width() + residue == old(residue) + 8 * (end - i)
      ensures !ok ==> residue < Width() && end == i == |data| && Pending() == old(Pending())
    {
      hide Joined, Front, Rest, Field, Holds, Pow2, BytesBits;
      WidthBounds(rate);
      hide TablesOf;
      code, end := 0, i;
      BytesBitsFew(Lsb(), 0);
      if residue < Width() {
        if i >= |data| {
          return false, code, end;
        }
        var next := data[i..i + 1];
        JoinByte(Lsb(), bitstream, residue, next[0]);
        BytesBitsFew(Lsb(), next[0]);
        assert next == [next[0]];
        bitstream := Joined(Lsb(), bitstream, residue, next[0], OCTET);
        residue := residue + 8;
        end := i + 1;
      }
      residue := residue - Width();
      FrontRestBits(Lsb(), bitstream, Width(), residue);
      code := Front(Lsb(), bitstream, Width(), residue);
      bitstream := Rest(Lsb(), bitstream, Width());
      ok := true;
    }

    /** Between two codes: what is pending may still be a whole code. */
    ghost predicate Unpacking()
      reads this
    {
      && Steady()
      && residue <= 7 && Holds(Lsb(), bitstream, residue)
      && if packing == Unpacked then residue == 0 && codes == Masked(rate, bytes)
         else CodesBits(Lsb(), Width(), codes) + Pending() == BytesBits(Lsb(), bytes)
    }

    /** The codes in the pending bits and so many further bytes fit in the room for samples. */
    ghost predicate Room(further: nat, room: nat)
      reads `residue
    {
      if packing == Unpacked then further <= room else residue + 8 * further < Width() * (room + 1)
    }

    /** The next code, if the bytes from data[i] on still hold one. */
    method NextCode(data: seq<byte>, i: nat, ghost room: nat) returns (ok: bool, code: nat, end: nat)
      requires Unpacking() && i <= |data| && Room(|data| - i, room)
      modifies `bitstream, `residue, `bytes
      ensures residue <= 7 && Holds(Lsb(), bitstream, residue)
      ensures i <= end <= |data| && bytes == old(bytes) + data[i..end]
      ensures !ok ==> Decoding() && end == |data|
      ensures ok && packing == Unpacked ==> residue == 0 && end == i + 1 && code == data[i]
      ensures ok && packing != Unpacked ==> code < Pow2(Width())
      ensures ok && packing != Unpacked ==>
        CodesBits(Lsb(), Width(), codes) + Field(Lsb(), code, Width()) + Pending() == BytesBits(Lsb(), bytes)
      ensures ok ==> room > 0 && Room(|data| - end, room - 1)
      ensures ok ==> residue + 8 * (|data| - end) < old(residue) + 8 * (|data| - i)
    {
      hide Adapted, TablesOf, Codes, Holds, Field, Pow2, BytesBits, CodesBits;
      WidthBounds(rate);
      if packing != Unpacked {
        ghost var had := Pending();
        ok, code, end := Unpack(data, i);
        if ok {
          RoomLeft(Width(), residue, |data| - end, room);
          BytesBitsAppend(Lsb(), bytes, data[i..end]);
          RegroupTaken(CodesBits(Lsb(), Width(), codes), had, Field(Lsb(), code, Width()), Pending(),
                       BytesBits(Lsb(), bytes), BytesBits(Lsb(), data[i..end]));
        }
      } else if i >= |data| {
        ok, code, end := false, 0, i;
      } else {
        ok, code, end := true, data[i], i + 1;
      }
      assert !ok ==> bytes + data[i..end] == bytes;
      bytes := bytes + data[i..end];
    }

    /** Decodes one code into amp[samples], if there is one. */
    method DecodeOne(amp: array<int>, samples: nat, data: seq<byte>, i: nat) returns (ok: bool, end: nat)
      requires Unpacking() && i <= |data| && samples <= amp.Length && Room(|data| - i, amp.Length - samples)
      modifies this, amp
      ensures i <= end <= |data| && bytes == old(bytes) + data[i..end]
      ensures !ok ==> Decoding() && end == |data| && codes == old(codes)
      ensures ok ==> Unpacking() && samples < amp.Length && Room(|data| - end, amp.Length - samples - 1)
      ensures ok ==> residue + 8 * (|data| - end) < old(residue) + 8 * (|data| - i)
      ensures ok ==> |codes| == |old(codes)| + 1 && old(codes) <= codes
      ensures ok ==> amp[samples] == SampleAt(rate, codes, |codes| - 1)
      ensures forall k :: 0 <= k < samples ==> amp[k] == old(amp[k])
    {
      hide Adapted, TablesOf, Codes, Holds, Field, Pow2, BytesBits, CodesBits, Signal, Masked;
      var data0;
      ok, data0, end := NextCode(data, i, amp.Length - samples);
      if ok {
        amp[samples] := DecodeSample(data0);
        Record(data0, old(bytes));
        assert codes[..|codes| - 1] == old(codes);
      }
    }

    /** Notes a decoded code, which takes the decoder back between two codes. */
    ghost method Record(data0: nat, was: seq<byte>)
      requires AreCodes(rate, codes) && Adaptive() == Adapted(rate, StateAfter(rate, codes), data0 % Codes(rate))
      requires residue <= 7 && Holds(Lsb(), bitstream, residue)
      requires packing == Unpacked ==>
        residue == 0 && codes == Masked(rate, was) && data0 < 256 && bytes == was + [data0]
      requires packing != Unpacked ==> (
        && data0 < Pow2(Width())
        && CodesBits(Lsb(), Width(), codes) + Field(Lsb(), data0, Width()) + Pending() == BytesBits(Lsb(), bytes))
      modifies `codes
      ensures Unpacking() && codes == old(codes) + [data0 % Codes(rate)]
    {
      hide Adapted, TablesOf, Codes, Holds, Field, Pow2, BytesBits, CodesBits, Masked;
      ghost var code := data0 % Codes(rate);
      StateAfterSnoc(rate, codes, code);
      if packing != Unpacked {
        MaskIsIdentity(rate, data0);
        CodesBitsSnoc(Lsb(), Width(), codes, code);
      } else {
        MaskedSnoc(rate, was, data0);
      }
      codes := codes + [code];
    }

    /** g726_decode for linear samples; the caller has room for every sample that the bytes complete. */
    method Decode(amp: array<int>, data: seq<byte>) returns (samples: nat)
      requires Decoding() && Room(|data|, amp.Length)
      modifies this, amp
      ensures Decoding() && bytes == old(bytes) + data
      ensures samples <= amp.Length && |codes| == |old(codes)| + samples && old(codes) <= codes
      ensures forall k :: 0 <= k < samples ==> amp[k] == SampleAt(rate, codes, |old(codes)| + k)
    {
      hide StateAfter, TablesOf, Codes, Holds, Field, BytesBits, CodesBits, Room, SampleAt;
      var ok, i := true, 0;
      samples := 0;
      assert Unpacking() by {
        WidthBounds(rate);
      }
      while ok
        invariant i <= |data| && bytes == old(bytes) + data[..i] && AreCodes(rate, codes)
        invariant samples <= amp.Length && |codes| == |old(codes)| + samples && old(codes) <= codes
        invariant ok ==> Unpacking() && Room(|data| - i, amp.Length - samples)
        invariant !ok ==> Decoding() && i == |data|
        invariant forall k :: 0 <= k < samples ==> amp[k] == SampleAt(rate, codes, |old(codes)| + k)
        decreases ok, residue + 8 * (|data| - i)
      {
        ghost var was := codes;
        ok, i := DecodeOne(amp, samples, data, i);
        if ok {
          SamplesStand(rate, was, codes);
          samples := samples + 1;
        }
      }
    }
  }

  /** The decoder functions use only the low bits of an unpacked byte. */
  function Masked(rate: Rate, bytes: seq<byte>): (codes: seq<nat>)
    ensures |codes| == |bytes| && AreCodes(rate, codes)
    ensures forall i :: 0 <= i < |codes| ==> codes[i] == bytes[i] % Codes(rate)
  {
    if bytes == [] then [] else Masked(rate, bytes[..|bytes| - 1]) + [bytes[|bytes| - 1] % Codes(rate)]
  }

  lemma WidthBounds(rate: Rate)
    ensures 2 <= TablesOf(rate).bits <= 5
  {
  }

  /** Every code fits the width of the codes, and a byte. */
  lemma NothingCoded(rate: Rate)
    ensures AreCodes(rate, []) && StateAfter(rate, []) == Initial() && Masked(rate, []) == []
  {
    hide Initial;
  }

  lemma NothingPacked(lsbFirst: bool, width: nat)
    ensures Holds(lsbFirst, 0, 0) && Field(lsbFirst, 0, 0) == []
    ensures BytesBits(lsbFirst, []) == [] && CodesBits(lsbFirst, width, []) == []
  {
  }

  lemma CodesFit(rate: Rate, code: nat)
    requires code < Codes(rate)
    ensures code < Pow2(TablesOf(rate).bits) && code < 256
  {
  }

  lemma StateAfterSnoc(rate: Rate, codes: seq<nat>, code: nat)
    requires AreCodes(rate, codes) && code < Codes(rate)
    ensures AreCodes(rate, codes + [code])
    ensures StateAfter(rate, codes + [code]) == Adapted(rate, StateAfter(rate, codes), code)
  {
    hide Adapted, Codes;
    assert (codes + [code])[..|codes|] == codes;
  }

  /** The decoder's mask leaves every packed code unchanged. */
  lemma MaskIsIdentity(rate: Rate, code: nat)
    requires code < Pow2(TablesOf(rate).bits)
    ensures code % Codes(rate) == code < Codes(rate)
  {
  }

  lemma MaskedSnoc(rate: Rate, bytes: seq<byte>, data: byte)
    ensures Masked(rate, bytes + [data]) == Masked(rate, bytes) + [data % Codes(rate)]
  {
    hide Codes;
    assert (bytes + [data])[..|bytes|] == bytes;
  }

  lemma RoomLeft(width: nat, residue: nat, further: nat, room: nat)
    requires 0 < width && width + residue + 8 * further < width * (room + 1)
    ensures room > 0 && residue + 8 * further < width * (room - 1 + 1)
  {
  }

  /** A longer stream stands for the same samples so far. */
  lemma SamplesStand(rate: Rate, codes: seq<nat>, more: seq<nat>)
    requires AreCodes(rate, codes) && AreCodes(rate, more) && codes <= more
    ensures forall j :: 0 <= j < |codes| ==> SampleAt(rate, codes, j) == SampleAt(rate, more, j)
  {
    hide Codes, Signal, StateAfter;
    forall j | 0 <= j < |codes|
      ensures SampleAt(rate, codes, j) == SampleAt(rate, more, j)
    {
      assert codes[..j] == more[..j];
    }
  }

  // ----- lockstep

  /**
   * Whatever the calls in which samples were encoded and bytes decoded: a decoder that has consumed the first
   * of the bytes emitted has exactly the codes wholly contained in them, and is in the state in which the
   * encoder was after that many samples.
   */
  lemma Lockstep(encoder: Codec, decoder: Codec)
    requires encoder.Encoding() && decoder.Decoding()
    requires encoder.rate == decoder.rate && encoder.packing == decoder.packing
    requires decoder.bytes <= encoder.bytes
    ensures decoder.codes <= encoder.codes
    ensures |decoder.codes|
         == if decoder.packing == Unpacked then |decoder.bytes| else 8 * |decoder.bytes| / decoder.Width()
    ensures decoder.Adaptive() == encoder.StateAt(|decoder.codes|)
  {
    hide Codes, StateAfter, TablesOf, BytesBits, CodesBits, Field, Holds, Pow2;
    var rate := encoder.rate;
    if decoder.packing == Unpacked {
      MaskedPrefix(rate, decoder.bytes, encoder.codes);
    } else {
      WidthBounds(rate);
      CodesFitAll(rate, encoder.codes);
      CodesFitAll(rate, decoder.codes);
      ReadIsPrefix(encoder.Lsb(), encoder.Width(), encoder.codes, encoder.Pending(), encoder.bytes,
                   decoder.codes, decoder.Pending(), decoder.bytes);
    }
    assert decoder.codes == encoder.codes[..|decoder.codes|];
  }

  lemma MaskedPrefix(rate: Rate, bytes: seq<byte>, codes: seq<nat>)
    requires AreCodes(rate, codes) && bytes <= codes
    ensures Masked(rate, bytes) == bytes
  {
    hide Codes, Masked;
    var m := Masked(rate, bytes);
    forall i | 0 <= i < |bytes|
      ensures m[i] == bytes[i]
    {
      assert bytes[i] == codes[i];
      SmallModulus(bytes[i], Codes(rate));
    }
  }

  lemma SmallModulus(x: nat, n: nat)
    requires x < n
    ensures x % n == x
  {
  }

  lemma CodesFitAll(rate: Rate, codes: seq<nat>)
    requires AreCodes(rate, codes)
    ensures forall i :: 0 <= i < |codes| ==> codes[i] < Pow2(TablesOf(rate).bits)
  {
    forall i | 0 <= i < |codes|
      ensures codes[i] < Pow2(TablesOf(rate).bits)
    {
      CodesFit(rate, codes[i]);
    }
  }

  /** In every reachable state the poles of the predictor, whose coefficients are scaled by 2^14, are stable. */
  lemma PolesStable(s: State, x: real, y: real)
    requires s.Valid()
    requires Stability.Root(s.a[0] as real / 16384.0, s.a[1] as real / 16384.0, x, y)
    ensures x * x + y * y < 1.0
  {
    var a1, a2 := s.a[0], s.a[1];
    hide *;
    Stability.ScaledRootsInside(a1, a2, x, y);
  }
}
