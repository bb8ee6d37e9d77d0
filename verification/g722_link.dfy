/** g722_encode and g722_decode of src/g722.c, end to end. */
module G722Link {
  import opened Arith
  import opened Bits
  import opened BitstreamPacking
  import opened CodePacking
  import opened G722Band
  import opened G722
  import opened G722Accuracy
  import opened G722Codec

  /** The codes that a new encoder makes of these samples. */
  function Sent(eightK: bool, xs: seq<(int, int)>): (codes: seq<byte>)
    ensures |codes| == |xs|
  {
    CodesAfter(eightK, [], xs)
  }

  /** Every output is near the sample it was encoded from. */
  predicate AllNear(eightK: bool, b: Width, xs: seq<(int, int)>, out: seq<(int, int)>) {
    |out| <= |xs| && forall j :: 0 <= j < |out| ==> OneNear(eightK, b, xs, out, j)
  }

  predicate OneNear(eightK: bool, b: Width, xs: seq<(int, int)>, out: seq<(int, int)>, j: nat)
    requires j < |out| <= |xs|
  {
    var past := Sent(eightK, xs)[..j];
    Near(eightK, b, LowAfter(8, past), HighAfter(eightK, 8, past), xs[j], out[j])
  }

  method EncodeAll(b: Width, eightK: bool, packed: bool, xs: seq<(int, int)>)
    returns (encoder: Encoder, data: seq<byte>)
    ensures encoder.Valid() && encoder.codes == Sent(eightK, xs) && encoder.bytes == data
    ensures encoder.b == b && encoder.eightK == eightK && encoder.packed == (packed && b != 8)
  {
    SentIs(eightK, xs);
    hide FullCodes, LowAfter, HighAfter, Sent, InitialBand;
    encoder := new Encoder(b, eightK, packed);
    var buffer := new byte[|xs|](_ => 0);
    var n := encoder.Encode(buffer, xs);
    data := buffer[..n];
    assert [] + Sent(eightK, xs) == Sent(eightK, xs) && [] + data == data;
  }

  method DecodeAll(b: Width, eightK: bool, packed: bool, data: seq<byte>)
    returns (decoder: Decoder, out: seq<(int, int)>)
    ensures decoder.Valid() && decoder.bytes == data && |out| == |decoder.codes|
    ensures decoder.b == b && decoder.eightK == eightK && decoder.packed == (packed && b != 8)
    ensures forall k :: 0 <= k < |out| ==> out[k] == OutputAt(eightK, b, decoder.codes, k)
  {
    hide OutputAt, LowAfter, HighAfter;
    decoder := new Decoder(b, eightK, packed);
    out := decoder.Decode(data);
    assert [] + data == data;
  }

  /**
   * Samples encoded and decoded again, at any rate, packed or not: each comes out within the quantizer interval it was
   * in, and all of them but those whose codes are not wholly in the n bytes, or held back.
   */
  method Transmit(b: Width, eightK: bool, packed: bool, xs: seq<(int, int)>) returns (n: nat, out: seq<(int, int)>)
    requires InRange(xs)
    ensures AllNear(eightK, b, xs, out)
    ensures if packed && b != 8 then |out| == LazyCount(b, n) && b * |xs| - 7 <= 8 * n <= b * |xs|
            else n == |out| == |xs|
  {
    hide Encoder.Valid, Decoder.Valid, Sent, InRange, AllNear, OutputAt, LazyCount;
    var encoder, data := EncodeAll(b, eightK, packed, xs);
    var decoder;
    decoder, out := DecodeAll(b, eightK, packed, data);
    n := |data|;
    Lockstep(encoder, decoder);
    Sizes(encoder);
    Received(eightK, b, xs, decoder.codes, out);
  }

  lemma Sizes(encoder: Encoder)
    requires encoder.Valid()
    ensures if encoder.packed then encoder.b * |encoder.codes| - 7 <= 8 * |encoder.bytes| <= encoder.b * |encoder.codes|
            else |encoder.bytes| == |encoder.codes|
  {
    hide LowAfter, HighAfter, BytesBits, CodesBits, Field, Holds, Pow2;
    if encoder.packed {
      var sent := CutAll(encoder.b, encoder.codes);
      assert |BytesBits(true, encoder.bytes) + encoder.Pending()| == |CodesBits(true, encoder.b, sent)|;
    }
  }

  lemma Received(eightK: bool, b: Width, xs: seq<(int, int)>, codes: seq<nat>, out: seq<(int, int)>)
    requires InRange(xs) && |out| == |codes| <= |xs| && codes == CutAll(b, Sent(eightK, xs)[..|codes|])
    requires forall k :: 0 <= k < |out| ==> out[k] == OutputAt(eightK, b, codes, k)
    ensures AllNear(eightK, b, xs, out)
  {
    var sent := CutAll(b, Sent(eightK, xs));
    hide OutputAt, LowAfter, HighAfter, InRange, CodesAfter, Near;
    assert codes <= sent by {
      CutAllPrefix(b, Sent(eightK, xs), |codes|);
    }
    OutputsStand(eightK, b, codes, sent);
    forall j | 0 <= j < |out| ensures OneNear(eightK, b, xs, out, j) {
      OutputNear(eightK, b, xs, j);
    }
  }

  lemma SentIs(eightK: bool, xs: seq<(int, int)>)
    ensures Sent(eightK, xs) == FullCodes(eightK, InitialBand(LowBand), InitialBand(HighBand), xs)
  {
    hide FullCodes;
  }
}
