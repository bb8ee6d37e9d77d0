/** Streams of fixed width codes, and what a reader of whole codes can recover from a prefix of the bytes. */
module CodePacking {
  import opened Arith
  import opened Bits

  function CodesBits(lsbFirst: bool, width: nat, codes: seq<nat>): (s: seq<bool>)
    ensures |s| == width * |codes|
  {
    if codes == [] then [] else Field(lsbFirst, codes[0], width) + CodesBits(lsbFirst, width, codes[1..])
  }

  lemma {:induction false} CodesBitsSnoc(lsbFirst: bool, width: nat, codes: seq<nat>, code: nat)
    ensures CodesBits(lsbFirst, width, codes + [code])
         == CodesBits(lsbFirst, width, codes) + Field(lsbFirst, code, width)
  {
    if codes == [] {
      assert CodesBits(lsbFirst, width, []) == [];
      assert (codes + [code])[1..] == [];
    } else {
      assert (codes + [code])[1..] == codes[1..] + [code];
      CodesBitsSnoc(lsbFirst, width, codes[1..], code);
    }
  }

  /** Codes whose bits start a stream are the codes the stream starts with. */
  lemma {:induction false} CodesPrefix(lsbFirst: bool, width: nat, read: seq<nat>, rest: seq<bool>, sent: seq<nat>)
    requires width > 0
    requires forall i :: 0 <= i < |read| ==> read[i] < Pow2(width)
    requires forall i :: 0 <= i < |sent| ==> sent[i] < Pow2(width)
    requires CodesBits(lsbFirst, width, read) + rest == CodesBits(lsbFirst, width, sent)
    ensures read <= sent
  {
    hide Field, Pow2;
    if read == [] {
    } else {
      assert sent != [] by {
        assert |CodesBits(lsbFirst, width, read)| >= width;
      }
      var text := CodesBits(lsbFirst, width, sent);
      assert text[..width] == Field(lsbFirst, sent[0], width) == Field(lsbFirst, read[0], width);
      FieldInjective(lsbFirst, read[0], sent[0], width);
      assert text[width..] == CodesBits(lsbFirst, width, sent[1..]);
      assert text[width..] == CodesBits(lsbFirst, width, read[1..]) + rest;
      CodesPrefix(lsbFirst, width, read[1..], rest, sent[1..]);
    }
  }

  /** The number of whole codes in a number of bits. */
  lemma WholeCodes(width: nat, codes: nat, left: nat, bits: nat)
    requires left < width && width * codes + left == bits
    ensures codes == bits / width && left == bits % width
  {
    var k: int := codes - bits / width;
    assert width * k == bits % width - left;
    Multiples(width, k);
  }

  /**
   * A reader whose bytes are the first of those written, and who is left with fewer bits than a code,
   * has exactly the first codes that the bytes wholly contain.
   */
  lemma ReadIsPrefix(lsbFirst: bool, width: nat, sent: seq<nat>, pending: seq<bool>, written: seq<byte>,
                     read: seq<nat>, left: seq<bool>, taken: seq<byte>)
    requires width > 0 && taken <= written
    requires forall i :: 0 <= i < |read| ==> read[i] < Pow2(width)
    requires forall i :: 0 <= i < |sent| ==> sent[i] < Pow2(width)
    requires CodesBits(lsbFirst, width, sent) == BytesBits(lsbFirst, written) + pending
    requires CodesBits(lsbFirst, width, read) + left == BytesBits(lsbFirst, taken)
    ensures read <= sent
    ensures |left| < width ==> |read| == 8 * |taken| / width
  {
    hide *;
    var more := written[|taken|..];
    assert written == taken + more;
    BytesBitsAppend(lsbFirst, taken, more);
    var a, b := CodesBits(lsbFirst, width, read), BytesBits(lsbFirst, more);
    AssociateFour(a, left, b, pending);
    CodesPrefix(lsbFirst, width, read, left + (b + pending), sent);
    if |left| < width {
      Lengths(lsbFirst, width, read, left, taken);
      WholeCodes(width, |read|, |left|, 8 * |taken|);
    }
  }

  lemma Lengths(lsbFirst: bool, width: nat, read: seq<nat>, left: seq<bool>, taken: seq<byte>)
    requires CodesBits(lsbFirst, width, read) + left == BytesBits(lsbFirst, taken)
    ensures width * |read| + |left| == 8 * |taken|
  {
    hide CodesBits, BytesBits;
    assert |CodesBits(lsbFirst, width, read) + left| == |BytesBits(lsbFirst, taken)|;
  }

  lemma AssociateFour(a: seq<bool>, b: seq<bool>, c: seq<bool>, d: seq<bool>)
    ensures ((a + b) + c) + d == a + (b + (c + d))
  {
  }

  /** A code joins the pending bits, and bytes leave them. */
  lemma RegroupPacked(bytes: seq<bool>, pending: seq<bool>, field: seq<bool>, more: seq<bool>, left: seq<bool>)
    requires more + left == pending + field
    ensures (bytes + more) + left == (bytes + pending) + field
  {
    assert (bytes + more) + left == bytes + (more + left);
    assert (bytes + pending) + field == bytes + (pending + field);
  }

  /** Bytes join the pending bits, and a code leaves them. */
  lemma RegroupTaken(codes: seq<bool>, pending: seq<bool>, field: seq<bool>, left: seq<bool>,
                     bytes: seq<bool>, more: seq<bool>)
    requires codes + pending == bytes && field + left == pending + more
    ensures codes + field + left == bytes + more
  {
    assert codes + field + left == codes + (field + left);
    assert bytes + more == codes + (pending + more);
  }
}
