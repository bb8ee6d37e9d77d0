/** g726_encode and g726_decode of src/g726.c, end to end. */
module G726Link {
  import opened Arith
  import opened Bits
  import opened BitstreamPacking
  import opened CodePacking
  import opened G726
  import opened G726Adapt
  import opened G726Accuracy
  import opened G726Codec

  /** The codes that a coder which has sent these makes of further samples. */
  function CodesAfter(rate: Rate, sent: seq<nat>, amp: seq<int>): (codes: seq<nat>)
    requires AreCodes(rate, sent) && AreSamples(amp)
    ensures |codes| == |amp| && AreCodes(rate, codes)
  {
    CodesFor(rate, StateAfter(rate, sent), amp)
  }

  function NextCode(rate: Rate, sent: seq<nat>, amp: int): (code: nat)
    requires AreCodes(rate, sent) && IsInt16(amp)
    ensures code < Codes(rate)
  {
    CodeOf(rate, StateAfter(rate, sent), amp / 4)
  }

  lemma FirstCode(rate: Rate, sent: seq<nat>, amp: seq<int>)
    requires AreCodes(rate, sent) && AreSamples(amp) && amp != []
    ensures AreSamples(amp[1..]) && AreCodes(rate, sent + [NextCode(rate, sent, amp[0])])
    ensures var code := NextCode(rate, sent, amp[0]);
      CodesAfter(rate, sent, amp) == [code] + CodesAfter(rate, sent + [code], amp[1..])
  {
    hide CodeOf, Adapted, Codes, StateAfter;
    StateAfterSnoc(rate, sent, NextCode(rate, sent, amp[0]));
  }

  /** Each code is that of its sample in the state that the codes before it lead to. */
  lemma {:induction false} CodesFrom(rate: Rate, sent: seq<nat>, amp: seq<int>, j: nat)
    requires AreCodes(rate, sent) && AreSamples(amp) && j < |amp|
    ensures var codes := CodesAfter(rate, sent, amp);
      AreCodes(rate, sent + codes[..j]) && codes[j] == NextCode(rate, sent + codes[..j], amp[j])
    decreases j
  {
    hide CodesAfter, NextCode, Codes;
    var codes := CodesAfter(rate, sent, amp);
    FirstCode(rate, sent, amp);
    if j == 0 {
      assert sent + codes[..0] == sent;
    } else {
      CodesFrom(rate, sent + [codes[0]], amp[1..], j - 1);
      assert sent + [codes[0]] + codes[1..][..j - 1] == sent + codes[..j];
    }
  }

  /** Sample out is four times a signal near the 14-bit value of amp, as int16_t. */
  predicate SampleNear(rate: Rate, sent: seq<nat>, amp: int, out: int)
    requires AreCodes(rate, sent) && IsInt16(amp)
  {
    var s := StateAfter(rate, sent);
    var sr := Signal(rate, s, NextCode(rate, sent, amp));
    Near(rate, s, amp / 4, sr) && out == Int16(4 * sr)
  }

  /** Each sample of a stream is rebuilt within the decision interval it was quantized in. */
  lemma OutputNear(rate: Rate, amp: seq<int>, j: nat)
    requires AreSamples(amp) && j < |amp|
    ensures var codes := CodesAfter(rate, [], amp);
      AreCodes(rate, codes[..j]) && SampleNear(rate, codes[..j], amp[j], SampleAt(rate, codes, j))
  {
    hide *;
    NoCodes(rate);
    var codes := CodesAfter(rate, [], amp);
    CodesFrom(rate, [], amp, j);
    assert [] + codes[..j] == codes[..j];
    SampleFits(amp, j);
    OneNear(rate, codes[..j], amp[j]);
    SampleIs(rate, codes, j);
  }

  lemma NoCodes(rate: Rate)
    ensures AreCodes(rate, [])
  {
  }

  lemma SampleFits(amp: seq<int>, j: nat)
    requires AreSamples(amp) && j < |amp|
    ensures IsInt16(amp[j])
  {
  }

  lemma SampleIs(rate: Rate, codes: seq<nat>, j: nat)
    requires AreCodes(rate, codes) && j < |codes|
    ensures AreCodes(rate, codes[..j])
    ensures SampleAt(rate, codes, j) == Decoded(rate, codes[..j], codes[j])
  {
    hide Signal, StateAfter, Codes;
  }

  function Decoded(rate: Rate, sent: seq<nat>, code: nat): int
    requires AreCodes(rate, sent) && code < Codes(rate)
  {
    Int16(Signal(rate, StateAfter(rate, sent), code) * 4)
  }

  lemma OneNear(rate: Rate, sent: seq<nat>, amp: int)
    requires AreCodes(rate, sent) && IsInt16(amp)
    ensures SampleNear(rate, sent, amp, Decoded(rate, sent, NextCode(rate, sent, amp)))
  {
    hide Signal, StateAfter, Near, Codes, CodeOf;
    SignalNear(rate, StateAfter(rate, sent), amp / 4);
  }

  /** Every sample out is near the one that was encoded. */
  predicate AllNear(rate: Rate, amp: seq<int>, out: seq<int>)
    requires AreSamples(amp)
  {
    |out| <= |amp| && forall j :: 0 <= j < |out| ==> IsNear(rate, amp, out, j)
  }

  predicate IsNear(rate: Rate, amp: seq<int>, out: seq<int>, j: nat)
    requires AreSamples(amp) && j < |out| <= |amp|
  {
    NoCodes(rate);
    var codes := CodesAfter(rate, [], amp);
    SampleNear(rate, codes[..j], amp[j], out[j])
  }

  method EncodeAll(rate: Rate, packing: Packing, amp: seq<int>) returns (encoder: Codec, data: seq<byte>)
    requires AreSamples(amp)
    ensures AreCodes(rate, [])
    ensures encoder.rate == rate && encoder.packing == packing && encoder.Encoding()
    ensures encoder.codes == CodesAfter(rate, [], amp) && encoder.bytes == data
  {
    NoCodes(rate);
    StartsInitial(rate);
    encoder := new Codec(rate, packing);
    hide CodesFor, Codec.Encoding, Codec.Decoding, StateAfter, Initial;
    var buffer := new byte[|amp|](_ => 0);
    var n := encoder.Encode(buffer, amp);
    data := buffer[..n];
    assert [] + data == data && [] + CodesAfter(rate, [], amp) == CodesAfter(rate, [], amp);
  }

  lemma StartsInitial(rate: Rate)
    ensures AreCodes(rate, []) && StateAfter(rate, []) == Initial()
  {
    hide Initial;
  }

  method DecodeAll(rate: Rate, packing: Packing, data: seq<byte>, room: nat)
    returns (decoder: Codec, out: seq<int>)
    requires if packing == Unpacked then |data| <= room else 8 * |data| < TablesOf(rate).bits * (room + 1)
    ensures decoder.rate == rate && decoder.packing == packing && decoder.Decoding() && decoder.bytes == data
    ensures |out| == |decoder.codes| && AreCodes(rate, decoder.codes)
    ensures forall k :: 0 <= k < |out| ==> out[k] == SampleAt(rate, decoder.codes, k)
  {
    decoder := new Codec(rate, packing);
    hide SampleAt, StateAfter, Initial, Codec.Encoding, TablesOf, Codes;
    var amp := new int[room];
    var samples := decoder.Decode(amp, data);
    out := amp[..samples];
    assert [] + data == data;
  }

  /**
   * Samples encoded and decoded again, at any rate and packing: each comes out within the decision interval it was in,
   * and all of them whose codes are wholly in the n bytes.
   */
  method Transmit(rate: Rate, packing: Packing, amp: seq<int>) returns (n: nat, out: seq<int>)
    requires AreSamples(amp)
    ensures AllNear(rate, amp, out)
    ensures var bits := TablesOf(rate).bits;
      if packing == Unpacked then n == |out| == |amp|
      else bits * |amp| - 7 <= 8 * n <= bits * |amp| && bits > 0 && |out| == 8 * n / bits
  {
    hide Codec.Encoding, Codec.Decoding, CodesAfter, SampleAt, TablesOf, AllNear, Codes;
    var encoder, data := EncodeAll(rate, packing, amp);
    Sizes(encoder);
    n := |data|;
    var decoder;
    decoder, out := DecodeAll(rate, packing, data, |amp|);
    Lockstep(encoder, decoder);
    Received(rate, amp, decoder.codes, out);
  }

  lemma Sizes(encoder: Codec)
    requires encoder.Encoding()
    ensures var bits := TablesOf(encoder.rate).bits;
      && 2 <= bits <= 5 && bits * |encoder.codes| < bits * (|encoder.codes| + 1)
      && (if encoder.packing == Unpacked then |encoder.bytes| == |encoder.codes|
          else bits * |encoder.codes| - 7 <= 8 * |encoder.bytes| <= bits * |encoder.codes|)
  {
    WidthBounds(encoder.rate);
    hide StateAfter, TablesOf, Codes, BytesBits, CodesBits, Field, Holds, Pow2;
    if encoder.packing != Unpacked {
      assert |BytesBits(encoder.Lsb(), encoder.bytes) + encoder.Pending()|
          == |CodesBits(encoder.Lsb(), encoder.Width(), encoder.codes)|;
    }
  }

  lemma Received(rate: Rate, amp: seq<int>, codes: seq<nat>, out: seq<int>)
    requires AreSamples(amp) && AreCodes(rate, codes) && AreCodes(rate, []) && codes <= CodesAfter(rate, [], amp)
    requires |out| == |codes| && forall k :: 0 <= k < |out| ==> out[k] == SampleAt(rate, codes, k)
    ensures AllNear(rate, amp, out)
  {
    hide CodesAfter, SampleAt, SampleNear, Codes;
    SamplesStand(rate, codes, CodesAfter(rate, [], amp));
    forall j | 0 <= j < |out| ensures IsNear(rate, amp, out, j) {
      OutputNear(rate, amp, j);
    }
  }
}
