/** Bit packing into bytes (src/bitstream.c): fields of up to 25 bits, in either bit order. */
module BitstreamPacking {
  import opened Arith
  import opened Bits

  /** The 32-bit register after a field of b bits joins the r bits it holds. */
  function Joined(lsbFirst: bool, x: nat, r: nat, v: nat, b: nat): nat {
    if lsbFirst then Or(x, v * Pow2(r)) else Low(Or(v, x * Pow2(b)), 32)
  }

  /** The first b of the b + r bits that the register holds. */
  function Front(lsbFirst: bool, x: nat, b: nat, r: nat): (f: nat)
    ensures f < Pow2(b)
  {
    if lsbFirst then Low(x, b) else Low(ShrNat(x, r), b)
  }

  /** The register once its first b bits are taken. */
  function Rest(lsbFirst: bool, x: nat, b: nat): nat {
    if lsbFirst then ShrNat(x, b) else x
  }

  /** The register x holds r bits: it fits uint32_t, and has no bits above them if LSB first. */
  predicate Holds(lsbFirst: bool, x: nat, r: nat) {
    x < Pow2(32) && (lsbFirst ==> x < Pow2(r))
  }

  lemma JoinedBits(lsbFirst: bool, x: nat, r: nat, v: nat, b: nat)
    requires Holds(lsbFirst, x, r) && v < Pow2(b) && r + b <= 32
    ensures Holds(lsbFirst, Joined(lsbFirst, x, r, v, b), r + b)
    ensures Field(lsbFirst, Joined(lsbFirst, x, r, v, b), r + b) == Field(lsbFirst, x, r) + Field(lsbFirst, v, b)
  {
    if lsbFirst {
      OrDisjoint(x, v, r);
      LsbAppend(x, r, v, b);
      Pow2Fit(x, r, v, b);
      Pow2Monotone(r + b, 32);
    } else {
      OrDisjoint(v, x, b);
      MsbLow(v + x * Pow2(b), r + b, 32);
      MsbAppend(x, r, v, b);
    }
  }

  lemma FrontRestBits(lsbFirst: bool, x: nat, b: nat, r: nat)
    requires Holds(lsbFirst, x, b + r) && b + r <= 32
    ensures Holds(lsbFirst, Rest(lsbFirst, x, b), r)
    ensures Field(lsbFirst, x, b + r)
         == Field(lsbFirst, Front(lsbFirst, x, b, r), b) + Field(lsbFirst, Rest(lsbFirst, x, b), r)
  {
    if lsbFirst {
      LsbSplit(x, b, r);
      LsbLow(x, b);
      ShrRange(x, b, r);
      Pow2Monotone(r, 32);
    } else {
      MsbSplit(x, b, r);
      MsbLow(ShrNat(x, r), b, b);
    }
  }

  lemma {:induction false} ZeroField(w: nat)
    ensures Lsb(0, w) == Zeros(w) && Msb(0, w) == Zeros(w)
  {
    if w == 0 {
    } else {
      ZeroField(w - 1);
    }
  }

  /** The byte that bitstream_emit writes for r > 0 leftover bits. */
  function Padded(lsbFirst: bool, x: nat, r: nat): nat
    requires r <= 8
  {
    if lsbFirst then Low(x, r) else Low(x, r) * Pow2(8 - r)
  }

  lemma PaddedBits(lsbFirst: bool, x: nat, r: nat)
    requires r <= 8
    ensures Padded(lsbFirst, x, r) < 256
    ensures Field(lsbFirst, Padded(lsbFirst, x, r), OCTET) == Field(lsbFirst, x, r) + Zeros(8 - r)
  {
    assert Pow2(8) == 256;
    FieldLow(lsbFirst, x, r);
    ZeroField(8 - r);
    if lsbFirst {
      Pow2Monotone(r, 8);
      LsbAppend(Low(x, r), r, 0, 8 - r);
    } else {
      Pow2Fit(0, 8 - r, Low(x, r), r);
      MsbAppend(Low(x, r), r, 0, 8 - r);
    }
  }

  /** Moving one byte out of the register leaves the text unchanged. */
  lemma ByteOut(lsbFirst: bool, out: seq<byte>, x: nat, r: nat)
    requires Holds(lsbFirst, x, OCTET + r) && OCTET + r <= 32
    ensures Front(lsbFirst, x, OCTET, r) < 256
    ensures Holds(lsbFirst, Rest(lsbFirst, x, OCTET), r)
    ensures BytesBits(lsbFirst, out + [Front(lsbFirst, x, OCTET, r)]) + Field(lsbFirst, Rest(lsbFirst, x, OCTET), r)
         == BytesBits(lsbFirst, out) + Field(lsbFirst, x, OCTET + r)
  {
    assert Pow2(8) == 256;
    FrontRestBits(lsbFirst, x, OCTET, r);
    BytesBitsSnoc(lsbFirst, out, Front(lsbFirst, x, OCTET, r));
  }

  /** Moving one byte into the register leaves the text unchanged. */
  lemma ByteIn(lsbFirst: bool, x: nat, r: nat, tail: seq<byte>)
    requires Holds(lsbFirst, x, r) && r + OCTET <= 32 && tail != []
    ensures Holds(lsbFirst, Joined(lsbFirst, x, r, tail[0], OCTET), r + OCTET)
    ensures Field(lsbFirst, Joined(lsbFirst, x, r, tail[0], OCTET), r + OCTET) + BytesBits(lsbFirst, tail[1..])
         == Field(lsbFirst, x, r) + BytesBits(lsbFirst, tail)
  {
    JoinByte(lsbFirst, x, r, tail[0]);
    Associate(Field(lsbFirst, x, r), Field(lsbFirst, tail[0], OCTET), BytesBits(lsbFirst, tail[1..]));
  }

  lemma JoinByte(lsbFirst: bool, x: nat, r: nat, v: byte)
    requires Holds(lsbFirst, x, r) && r + OCTET <= 32
    ensures Holds(lsbFirst, Joined(lsbFirst, x, r, v, OCTET), r + OCTET)
    ensures Field(lsbFirst, Joined(lsbFirst, x, r, v, OCTET), r + OCTET)
         == Field(lsbFirst, x, r) + Field(lsbFirst, v, OCTET)
  {
    assert Pow2(8) == 256;
    JoinedBits(lsbFirst, x, r, v, OCTET);
  }

  /** A bitstream_state_t. The byte pointers of the source are positions in a buffer. */
  class Bitstream {
    var bitstream: nat
    var residue: nat
    const lsbFirst: bool

    predicate Valid()
      reads this
    {
      residue <= 7 && Holds(lsbFirst, bitstream, residue)
    }

    /** The bits accepted but not yet in a whole byte (writer), or read but not yet taken (reader). */
    function Pending(): (s: seq<bool>)
      reads this
      ensures |s| == residue
    {
      Field(lsbFirst, bitstream, residue)
    }

    constructor (lsbFirst: bool)
      ensures Valid() && Pending() == [] && this.lsbFirst == lsbFirst
    {
      bitstream, residue, this.lsbFirst := 0, 0, lsbFirst;
    }

    /** bitstream_put. A field that would overfill the 32-bit register is dropped. */
    method Put(buf: array<byte>, pos: nat, value: nat, bits: nat) returns (end: nat)
      requires Valid() && bits <= 30
      requires pos + (residue + bits) / 8 <= buf.Length
      modifies this, buf
      ensures Valid()
      ensures pos <= end <= buf.Length && buf[..pos] == old(buf[..pos])
      ensures BytesBits(lsbFirst, buf[pos..end]) + Pending()
           == old(Pending()) + if old(residue) + bits <= 32 then Field(lsbFirst, value, bits) else []
    {
      hide *;
      Join(value, bits);
      end := Drain(buf, pos);
    }

    /** The field joins the pending bits, if there is room for it. */
    method Join(value: nat, bits: nat)
      requires Valid()
      modifies this
      ensures Holds(lsbFirst, bitstream, residue) && residue <= 32
      ensures residue == old(residue) + if old(residue) + bits <= 32 then bits else 0
      ensures Pending() == old(Pending()) + if old(residue) + bits <= 32 then Field(lsbFirst, value, bits) else []
    {
      hide Field, Joined, Low;
      if residue + bits <= 32 {
        FieldLow(lsbFirst, value, bits);
        JoinedBits(lsbFirst, bitstream, residue, Low(value, bits), bits);
        bitstream := Joined(lsbFirst, bitstream, residue, Low(value, bits), bits);
        residue := residue + bits;
      } else {
        assert Pending() + [] == Pending();
      }
    }

    /** The while loops of bitstream_put: writes out every whole byte. */
    method Drain(buf: array<byte>, pos: nat) returns (end: nat)
      requires Holds(lsbFirst, bitstream, residue) && residue <= 32
      requires pos + residue / 8 <= buf.Length
      modifies this, buf
      ensures Valid()
      ensures pos <= end <= buf.Length && buf[..pos] == old(buf[..pos])
      ensures BytesBits(lsbFirst, buf[pos..end]) + Pending() == old(Pending())
    {
      end := pos;
      ghost var text := Pending();
      while residue >= 8
        invariant pos <= end && end + residue / 8 <= buf.Length
        invariant Holds(lsbFirst, bitstream, residue) && residue <= 32
        invariant buf[..pos] == old(buf[..pos])
        invariant BytesBits(lsbFirst, buf[pos..end]) + Pending() == text
      {
        PutOctet(buf, pos, end);
        end := end + 1;
      }
    }

    /** Moves the first eight pending bits to buf[end]; start marks where the caller's bytes begin. */
    method PutOctet(buf: array<byte>, ghost start: nat, end: nat)
      requires Holds(lsbFirst, bitstream, residue) && OCTET <= residue <= 32
      requires start <= end < buf.Length
      modifies this, buf
      ensures residue == old(residue) - OCTET && Holds(lsbFirst, bitstream, residue)
      ensures buf[..end] == old(buf[..end])
      ensures BytesBits(lsbFirst, buf[start..end + 1]) + Pending()
           == BytesBits(lsbFirst, old(buf[start..end])) + old(Pending())
    {
      hide Field, Front, Rest, BytesBits, Holds;
      residue := residue - OCTET;
      ghost var before := buf[start..end];
      ByteOut(lsbFirst, before, bitstream, residue);
      buf[end] := Front(lsbFirst, bitstream, OCTET, residue);
      bitstream := Rest(lsbFirst, bitstream, OCTET);
      assert buf[start..end + 1] == before + [buf[end]];
    }

    /** bitstream_emit: writes the partial byte, zero padded, without committing to it. */
    method Emit(buf: array<byte>, pos: nat)
      requires Valid()
      requires residue > 0 ==> pos < buf.Length
      modifies buf
      ensures pos <= buf.Length ==> buf[..pos] == old(buf[..pos])
      ensures residue > 0 ==> Field(lsbFirst, buf[pos], OCTET) == Pending() + Zeros(8 - residue)
    {
      if residue > 0 {
        PaddedBits(lsbFirst, bitstream, residue);
        buf[pos] := Padded(lsbFirst, bitstream, residue);
      }
    }

    /** bitstream_flush: commits to the partial byte and empties the register. */
    method Flush(buf: array<byte>, pos: nat) returns (end: nat)
      requires Valid()
      requires pos + (if residue > 0 then 1 else 0) <= buf.Length
      modifies this, buf
      ensures Valid() && Pending() == []
      ensures pos <= end <= buf.Length && buf[..pos] == old(buf[..pos])
      ensures BytesBits(lsbFirst, buf[pos..end])
           == old(Pending()) + Zeros(if old(residue) > 0 then 8 - old(residue) else 0)
    {
      end := pos;
      if residue > 0 {
        Emit(buf, pos);
        end := pos + 1;
        assert buf[pos..end] == [] + [buf[pos]];
        BytesBitsSnoc(lsbFirst, [], buf[pos]);
        residue := 0;
      }
      bitstream := 0;
    }

    /** bitstream_get. */
    method Get(buf: array<byte>, pos: nat, bits: nat, ghost limit: nat) returns (x: nat, end: nat)
      requires Valid() && bits <= 25
      requires pos <= limit <= buf.Length && bits <= residue + 8 * (limit - pos)
      modifies this
      ensures Valid() && x < Pow2(bits) && pos <= end <= limit
      ensures Field(lsbFirst, x, bits) + Pending() + BytesBits(lsbFirst, buf[end..limit])
           == old(Pending()) + BytesBits(lsbFirst, buf[pos..limit])
    {
      end := Fill(buf, pos, bits, limit);
      residue := residue - bits;
      FrontRestBits(lsbFirst, bitstream, bits, residue);
      x := Front(lsbFirst, bitstream, bits, residue);
      bitstream := Rest(lsbFirst, bitstream, bits);
    }

    /** One more byte joins the pending bits; tail holds the bytes from it on. */
    method GetOctet(octet: byte, ghost tail: seq<byte>)
      requires Holds(lsbFirst, bitstream, residue) && residue + OCTET <= 32 && tail != [] && tail[0] == octet
      modifies this
      ensures Holds(lsbFirst, bitstream, residue) && residue == old(residue) + 8
      ensures Pending() + BytesBits(lsbFirst, tail[1..]) == old(Pending()) + BytesBits(lsbFirst, tail)
    {
      hide Field, Joined, BytesBits, Holds;
      ByteIn(lsbFirst, bitstream, residue, tail);
      bitstream := Joined(lsbFirst, bitstream, residue, octet, OCTET);
      residue := residue + OCTET;
    }

    /** The while loops of bitstream_get: reads bytes until there are enough bits. */
    method Fill(buf: array<byte>, pos: nat, bits: nat, ghost limit: nat) returns (end: nat)
      requires Valid() && bits <= 25
      requires pos <= limit <= buf.Length && bits <= residue + 8 * (limit - pos)
      modifies this
      ensures Holds(lsbFirst, bitstream, residue) && bits <= residue < bits + 8
      ensures pos <= end <= limit
      ensures Pending() + BytesBits(lsbFirst, buf[end..limit])
           == old(Pending()) + BytesBits(lsbFirst, buf[pos..limit])
    {
      hide BytesBits, Holds, Field;
      end := pos;
      while residue < bits
        invariant pos <= end <= limit && bits <= residue + 8 * (limit - end)
        invariant residue < bits + 8
        invariant Holds(lsbFirst, bitstream, residue)
        invariant Pending() + BytesBits(lsbFirst, buf[end..limit])
               == old(Pending()) + BytesBits(lsbFirst, buf[pos..limit])
      {
        GetOctet(buf[end], buf[end..limit]);
        assert buf[end..limit][1..] == buf[end + 1..limit];
        end := end + 1;
      }
    }
  }

  // ----- whole streams

  /** One field of a stream, of a width that always fits beside up to 7 leftover bits. */
  datatype Entry = Entry(value: nat, width: nat) {
    predicate Valid() {
      1 <= width <= 25
    }
  }

  function EntriesBits(lsbFirst: bool, entries: seq<Entry>): seq<bool> {
    if entries == [] then []
    else Field(lsbFirst, entries[0].value, entries[0].width) + EntriesBits(lsbFirst, entries[1..])
  }

  lemma Regroup(done: seq<bool>, pending: seq<bool>, field: seq<bool>, tail: seq<bool>,
                bytes: seq<bool>, left: seq<bool>)
    requires bytes + left == pending + field
    ensures (done + bytes) + left + tail == done + pending + (field + tail)
  {
    assert (done + bytes) + left + tail == done + (bytes + left) + tail;
    assert done + pending + (field + tail) == done + (pending + field) + tail;
  }

  /** A field read from the front of a text is the entry the text starts with. */
  lemma HeadField(lsbFirst: bool, entries: seq<Entry>, x: nat, rest: seq<bool>, text: seq<bool>)
    requires entries != [] && x < Pow2(entries[0].width)
    requires EntriesBits(lsbFirst, entries) <= text
    requires text == Field(lsbFirst, x, entries[0].width) + rest
    ensures x == Low(entries[0].value, entries[0].width) && EntriesBits(lsbFirst, entries[1..]) <= rest
  {
    var w, v := entries[0].width, entries[0].value;
    hide Field, Low;
    SameHead(Field(lsbFirst, x, w), rest, Field(lsbFirst, v, w), EntriesBits(lsbFirst, entries[1..]), text);
    FieldLow(lsbFirst, v, w);
    FieldInjective(lsbFirst, x, Low(v, w), w);
  }

  lemma SameHead(a: seq<bool>, rest: seq<bool>, b: seq<bool>, tail: seq<bool>, text: seq<bool>)
    requires |a| == |b| && text == a + rest && b + tail <= text
    ensures a == b && tail <= rest
  {
    assert text[..|a|] == a && text[..|b|] == b;
    assert text[|a|..] == rest && text[|b|..][..|tail|] == tail;
  }

  /** Puts the first entry, after a bitstream_emit if emit is set. */
  method PutHead(s: Bitstream, buf: array<byte>, pos: nat, entries: seq<Entry>, emit: bool) returns (end: nat)
    requires s.Valid() && entries != [] && entries[0].Valid()
    requires 8 * pos + s.residue + |EntriesBits(s.lsbFirst, entries)| <= 8 * buf.Length
    modifies s, buf
    ensures s.Valid() && end <= buf.Length
    ensures BytesBits(s.lsbFirst, buf[..end]) + s.Pending() + EntriesBits(s.lsbFirst, entries[1..])
         == old(BytesBits(s.lsbFirst, buf[..pos]) + s.Pending()) + EntriesBits(s.lsbFirst, entries)
  {
    if emit {
      s.Emit(buf, pos);
    }
    ghost var done := buf[..pos];
    ghost var pending := s.Pending();
    end := s.Put(buf, pos, entries[0].value, entries[0].width);
    assert buf[..end] == done + buf[pos..end];
    BytesBitsAppend(s.lsbFirst, done, buf[pos..end]);
    Regroup(BytesBits(s.lsbFirst, done), pending, Field(s.lsbFirst, entries[0].value, entries[0].width),
            EntriesBits(s.lsbFirst, entries[1..]), BytesBits(s.lsbFirst, buf[pos..end]), s.Pending());
  }

  /**
   * Puts every entry, with a bitstream_emit before those that emits selects, and flushes: the bytes are the fields and
   * zeros, whatever was emitted.
   */
  method PutAll(s: Bitstream, buf: array<byte>, entries: seq<Entry>, emits: seq<bool>) returns (end: nat)
    requires s.Valid() && s.Pending() == []
    requires |emits| == |entries| && forall i :: 0 <= i < |entries| ==> entries[i].Valid()
    requires |EntriesBits(s.lsbFirst, entries)| <= 8 * buf.Length
    modifies s, buf
    ensures end <= buf.Length && end == (|EntriesBits(s.lsbFirst, entries)| + 7) / 8
    ensures BytesBits(s.lsbFirst, buf[..end])
         == EntriesBits(s.lsbFirst, entries) + Zeros(8 * end - |EntriesBits(s.lsbFirst, entries)|)
  {
    ghost var all := EntriesBits(s.lsbFirst, entries);
    var pos: nat := 0;
    var i := 0;
    while i < |entries|
      invariant 0 <= i <= |entries| && pos <= buf.Length && s.Valid()
      invariant BytesBits(s.lsbFirst, buf[..pos]) + s.Pending() + EntriesBits(s.lsbFirst, entries[i..]) == all
    {
      assert entries[i..][1..] == entries[i + 1..];
      pos := PutHead(s, buf, pos, entries[i..], emits[i]);
      i := i + 1;
    }
    assert entries[i..] == [];
    end := FlushAll(s, buf, pos);
  }

  method FlushAll(s: Bitstream, buf: array<byte>, pos: nat) returns (end: nat)
    requires s.Valid() && 8 * pos + s.residue <= 8 * buf.Length
    modifies s, buf
    ensures end <= buf.Length && end == (8 * pos + old(s.residue) + 7) / 8
    ensures BytesBits(s.lsbFirst, buf[..end])
         == old(BytesBits(s.lsbFirst, buf[..pos]) + s.Pending()) + Zeros(8 * end - (8 * pos + old(s.residue)))
  {
    ghost var done, pending := buf[..pos], s.Pending();
    end := s.Flush(buf, pos);
    assert buf[..end] == done + buf[pos..end];
    BytesBitsAppend(s.lsbFirst, done, buf[pos..end]);
    Associate(BytesBits(s.lsbFirst, done), pending, Zeros(8 * end - (8 * pos + |pending|)));
  }

  /** Reads a field of the width of the first entry. */
  method GetHead(s: Bitstream, buf: array<byte>, pos: nat, entries: seq<Entry>, limit: nat) returns (x: nat, end: nat)
    requires s.Valid() && entries != [] && entries[0].Valid() && pos <= limit <= buf.Length
    requires EntriesBits(s.lsbFirst, entries) <= s.Pending() + BytesBits(s.lsbFirst, buf[pos..limit])
    modifies s
    ensures s.Valid() && pos <= end <= limit
    ensures x == Low(entries[0].value, entries[0].width)
    ensures EntriesBits(s.lsbFirst, entries[1..]) <= s.Pending() + BytesBits(s.lsbFirst, buf[end..limit])
  {
    ghost var text := s.Pending() + BytesBits(s.lsbFirst, buf[pos..limit]);
    x, end := s.Get(buf, pos, entries[0].width, limit);
    Associate(Field(s.lsbFirst, x, entries[0].width), s.Pending(), BytesBits(s.lsbFirst, buf[end..limit]));
    HeadField(s.lsbFirst, entries, x, s.Pending() + BytesBits(s.lsbFirst, buf[end..limit]), text);
  }

  /** Reads fields of the widths of entries from the bytes below limit. */
  method GetAll(s: Bitstream, buf: array<byte>, entries: seq<Entry>, limit: nat) returns (values: seq<nat>)
    requires s.Valid() && s.Pending() == [] && limit <= buf.Length
    requires forall i :: 0 <= i < |entries| ==> entries[i].Valid()
    requires EntriesBits(s.lsbFirst, entries) <= BytesBits(s.lsbFirst, buf[..limit])
    modifies s
    ensures |values| == |entries|
    ensures forall i :: 0 <= i < |entries| ==> values[i] == Low(entries[i].value, entries[i].width)
  {
    values := [];
    var pos: nat := 0;
    var i := 0;
    assert buf[0..limit] == buf[..limit];
    while i < |entries|
      invariant 0 <= i <= |entries| && pos <= limit && s.Valid()
      invariant EntriesBits(s.lsbFirst, entries[i..]) <= s.Pending() + BytesBits(s.lsbFirst, buf[pos..limit])
      invariant |values| == i
      invariant forall k :: 0 <= k < i ==> values[k] == Low(entries[k].value, entries[k].width)
    {
      assert entries[i..][1..] == entries[i + 1..];
      var x;
      x, pos := GetHead(s, buf, pos, entries[i..], limit);
      values := values + [x];
      i := i + 1;
    }
  }

  /** Put, flush and read back: every value returns modulo 2^width, and the bytes are the fields and zeros. */
  method RoundTrip(lsbFirst: bool, buf: array<byte>, entries: seq<Entry>, emits: seq<bool>)
    returns (end: nat, values: seq<nat>)
    requires |emits| == |entries| && forall i :: 0 <= i < |entries| ==> entries[i].Valid()
    requires |EntriesBits(lsbFirst, entries)| <= 8 * buf.Length
    modifies buf
    ensures end <= buf.Length && end == (|EntriesBits(lsbFirst, entries)| + 7) / 8
    ensures BytesBits(lsbFirst, buf[..end])
         == EntriesBits(lsbFirst, entries) + Zeros(8 * end - |EntriesBits(lsbFirst, entries)|)
    ensures |values| == |entries|
    ensures forall i :: 0 <= i < |entries| ==> values[i] == Low(entries[i].value, entries[i].width)
  {
    var writer := new Bitstream(lsbFirst);
    end := PutAll(writer, buf, entries, emits);
    var reader := new Bitstream(lsbFirst);
    values := GetAll(reader, buf, entries, end);
  }
}
