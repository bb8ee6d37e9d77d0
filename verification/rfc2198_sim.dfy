/** Packet redundancy over a lossy FIFO path (spandsp-sim/rfc2198_sim.c). */
module Rfc2198Sim {
  import opened Bits
  import opened Options

  const SLOTS: nat := 32
  const SLOT_SIZE: nat := 1024
  const BUNDLE_SIZE: nat := 8192

  type Payload = p: seq<byte> | |p| <= SLOT_SIZE

  datatype Delivery = Delivery(seqNo: nat, payload: Payload)

  // ----- the packet layout

  /** A uint16_t in memory; both ends share one byte order. */
  function U16(v: nat): seq<byte>
    requires v < 0x10000
  {
    [v % 256, v / 256]
  }

  function ReadU16(bytes: seq<byte>, p: nat): nat
    requires p + 2 <= |bytes|
  {
    bytes[p] as nat + 256 * (bytes[p + 1] as nat)
  }

  /** The i-th last payload of a history; slots never written are empty. */
  function Past(sent: seq<Payload>, i: nat): Payload {
    if i < |sent| then sent[|sent| - 1 - i] else []
  }

  /** Entries i, i + 1, ..., depth - 1 of a bundle, newest first. */
  function Entries(sent: seq<Payload>, i: nat, depth: nat): seq<byte>
    requires i <= depth
    decreases depth - i
  {
    if i == depth then []
    else U16(|Past(sent, i)|) + Past(sent, i) + Entries(sent, i + 1, depth)
  }

  /** The bundle that carries the last payload of sent, with depth - 1 older ones. */
  function Bundle(sent: seq<Payload>, depth: nat): seq<byte>
    requires depth < 0x10000
  {
    U16(depth) + Entries(sent, 0, depth)
  }

  lemma BundleIs(sent: seq<Payload>, depth: nat)
    requires depth < 0x10000
    ensures Bundle(sent, depth) == U16(depth) + Entries(sent, 0, depth) && Entries(sent, depth, depth) == []
  {
  }

  lemma EntryAppend(wire: seq<byte>, sent: seq<Payload>, i: nat, depth: nat)
    requires i < depth
    ensures wire + Entries(sent, i, depth)
         == wire + U16(|Past(sent, i)|) + Past(sent, i) + Entries(sent, i + 1, depth)
  {
  }

  /** Reading an entry from the front of the rest of a bundle. */
  lemma EntryHead(bytes: seq<byte>, p: nat, sent: seq<Payload>, i: nat, depth: nat)
    requires p <= |bytes| && i < depth
    requires bytes[p..] == Entries(sent, i, depth)
    ensures p + 2 <= |bytes| && ReadU16(bytes, p) == |Past(sent, i)|
    ensures p + 2 + |Past(sent, i)| <= |bytes|
    ensures bytes[p + 2..p + 2 + |Past(sent, i)|] == Past(sent, i)
    ensures bytes[p + 2 + |Past(sent, i)|..] == Entries(sent, i + 1, depth)
  {
    var x := Past(sent, i);
    var rest := bytes[p..];
    assert rest == U16(|x|) + (x + Entries(sent, i + 1, depth));
    assert rest[0] == U16(|x|)[0] && rest[1] == U16(|x|)[1];
    assert rest[2..] == x + Entries(sent, i + 1, depth);
    assert bytes[p + 2..] == rest[2..];
    assert bytes[p + 2..p + 2 + |x|] == rest[2..][..|x|];
    assert bytes[p + 2 + |x|..] == rest[2..][|x|..];
  }

  lemma BundleHead(bytes: seq<byte>, sent: seq<Payload>, depth: nat)
    requires depth < 0x10000 && bytes == Bundle(sent, depth)
    ensures 2 <= |bytes| && ReadU16(bytes, 0) == depth && bytes[2..] == Entries(sent, 0, depth)
  {
  }

  /** Reads a length and that many bytes, and steps past them. */
  method ReadEntry(bytes: seq<byte>, p: nat, ghost sent: seq<Payload>, ghost i: nat, ghost depth: nat)
    returns (payload: Payload, end: nat)
    requires p <= |bytes| && i < depth && bytes[p..] == Entries(sent, i, depth)
    ensures payload == Past(sent, i)
    ensures end <= |bytes| && bytes[end..] == Entries(sent, i + 1, depth)
  {
    EntryHead(bytes, p, sent, i, depth);
    var len := ReadU16(bytes, p);
    payload := bytes[p + 2..p + 2 + len];
    end := p + 2 + len;
  }

  // ----- the two ends

  /** The sending half of rfc2198_sim_state_t. */
  class Sender {
    const depth: nat
    const txPkt: array<Payload>
    var nextPkt: nat
    ghost var sent: seq<Payload>

    ghost predicate Valid()
      reads this, txPkt
    {
      && 1 <= depth <= SLOTS
      && txPkt.Length == SLOTS
      && nextPkt == |sent| % SLOTS
      && forall i :: 0 <= i < SLOTS ==> txPkt[Slot(nextPkt, i)] == Past(sent, i)
    }

    constructor (depth: nat)
      requires 1 <= depth <= SLOTS
      ensures Valid() && sent == [] && this.depth == depth && fresh(txPkt)
    {
      this.depth, nextPkt, sent := depth, 0, [];
      txPkt := new Payload[SLOTS](_ => []);
    }

    /** rfc2198_sim_put: bundles the packet with the previous depth - 1. */
    method Put(buf: Payload) returns (wire: seq<byte>)
      requires Valid()
      requires |Bundle(sent + [buf], depth)| <= BUNDLE_SIZE
      modifies this`nextPkt, this`sent, txPkt
      ensures Valid() && sent == old(sent) + [buf]
      ensures wire == Bundle(sent, depth)
    {
      Store(buf);
      wire := Construct();
    }

    /** The loop that copies the newest depth packets into the redundant packet. */
    method Construct() returns (wire: seq<byte>)
      requires Valid()
      ensures wire == Bundle(sent, depth)
    {
      hide Entries, Bundle, U16, Slot, Past;
      BundleIs(sent, depth);
      wire := U16(depth);
      var slot := Slot(nextPkt, 0);
      var i := 0;
      while i < depth
        invariant 0 <= i <= depth && slot == Slot(nextPkt, i)
        invariant wire + Entries(sent, i, depth) == Bundle(sent, depth)
      {
        assert txPkt[Slot(nextPkt, i)] == Past(sent, i);
        SlotStep(nextPkt, i);
        EntryAppend(wire, sent, i, depth);
        wire := wire + U16(|txPkt[slot]|) + txPkt[slot];
        slot := (slot + SLOTS - 1) % SLOTS;
        i := i + 1;
      }
    }

    /** Saves the packet in the history ring. The source advances next_pkt last, from a copy in slot. */
    method Store(buf: Payload)
      requires Valid()
      modifies this`nextPkt, this`sent, txPkt
      ensures Valid() && sent == old(sent) + [buf]
    {
      ghost var before := sent;
      txPkt[nextPkt] := buf;
      nextPkt := (nextPkt + 1) % SLOTS;
      sent := sent + [buf];
      forall i | 0 <= i < SLOTS ensures txPkt[Slot(nextPkt, i)] == Past(sent, i) {
        Rotation(old(nextPkt), i);
        if i > 0 {
          assert txPkt[Slot(old(nextPkt), i - 1)] == Past(before, i - 1);
        }
      }
    }
  }

  /** The slot that holds the packet i before the newest, when next is the one to write. */
  function Slot(next: nat, i: nat): (slot: nat)
    requires i <= SLOTS
    ensures slot < SLOTS
  {
    (next + 2 * SLOTS - 1 - i) % SLOTS
  }

  lemma SlotStep(next: nat, i: nat)
    requires i < SLOTS
    ensures Slot(next, i + 1) == (Slot(next, i) + SLOTS - 1) % SLOTS
  {
  }

  lemma Rotation(next: nat, i: nat)
    requires next < SLOTS && i < SLOTS
    ensures i == 0 ==> Slot((next + 1) % SLOTS, 0) == next
    ensures i > 0 ==> Slot((next + 1) % SLOTS, i) == Slot(next, i - 1) != next
  {
  }

  /** The receiving half of rfc2198_sim_state_t. */
  class Receiver {
    const rxPkt: array<Delivery> // rx_pkt, rx_pkt_len and rx_pkt_seq_no, slot by slot
    var rxQueuedPkts: nat
    var nextSeqNo: nat

    predicate Valid()
      reads this
    {
      rxPkt.Length == SLOTS && rxQueuedPkts <= SLOTS
    }

    /** The recovered packets still to be handed out, in the order they will be. */
    function Queue(): (q: seq<Delivery>)
      requires Valid()
      reads this, rxPkt
    {
      seq(rxQueuedPkts, k requires 0 <= k < rxQueuedPkts reads this, rxPkt requires Valid() =>
        rxPkt[rxQueuedPkts - 1 - k])
    }

    constructor ()
      ensures Valid() && Queue() == [] && nextSeqNo == 0 && fresh(rxPkt)
    {
      rxPkt := new Delivery[SLOTS](_ => Delivery(0, []));
      rxQueuedPkts, nextSeqNo := 0, 0;
    }

    /** rfc2198_sim_get: a queued packet if there is one, else what the path offers, if anything. */
    method Get(offer: Option<Arrival>, ghost sent: seq<Payload>, ghost depth: nat)
      returns (d: Option<Delivery>, consumed: bool)
      requires Valid() && (offer.Some? ==> offer.value.Carries(sent, depth))
      modifies this`rxQueuedPkts, this`nextSeqNo, rxPkt
      ensures Valid()
      ensures consumed == (old(Queue()) == [] && offer.Some?)
      ensures d.Some? == (old(Queue()) != [] || offer.Some?)
      ensures nextSeqNo == if consumed then |sent| else old(nextSeqNo)
      ensures !consumed ==> (if d.Some? then [d.value] else []) + Queue() == old(Queue())
      ensures consumed ==> [d.value] + Queue() == Released(sent, FirstReleased(old(nextSeqNo), |sent| - 1, depth))
    {
      if rxQueuedPkts > 0 {
        var queued := Dequeue();
        return Some(queued), false;
      }
      if offer.None? {
        return None, false;
      }
      var first := Unbundle(offer.value.bytes, offer.value.seqNo, sent, depth);
      QueueIs(first, sent, FirstReleased(old(nextSeqNo), |sent| - 1, depth));
      return Some(first), true;
    }

    method Dequeue() returns (d: Delivery)
      requires Valid() && rxQueuedPkts > 0
      modifies this`rxQueuedPkts
      ensures Valid() && [d] + Queue() == old(Queue())
    {
      rxQueuedPkts := rxQueuedPkts - 1;
      d := rxPkt[rxQueuedPkts];
    }

    /** The first packet and the queued ones are those from first on. */
    lemma QueueIs(d: Delivery, sent: seq<Payload>, first: nat)
      requires Valid() && first < |sent| && rxQueuedPkts == |sent| - 1 - first
      requires d == Delivery(first, Past(sent, rxQueuedPkts))
      requires forall k :: 0 <= k < rxQueuedPkts ==> rxPkt[k] == Delivery(|sent| - 1 - k, Past(sent, k))
      ensures [d] + Queue() == Released(sent, first)
    {
    }

    /** The branch of rfc2198_sim_get for a bundle that has arrived. */
    method Unbundle(bufx: seq<byte>, seqNo: nat, ghost sent: seq<Payload>, ghost depth: nat) returns (d: Delivery)
      requires Valid() && Arrival(bufx, seqNo).Carries(sent, depth)
      requires rxQueuedPkts == 0
      modifies this`rxQueuedPkts, this`nextSeqNo, rxPkt
      ensures Valid() && nextSeqNo == |sent|
      ensures rxQueuedPkts == seqNo - FirstReleased(old(nextSeqNo), seqNo, depth)
      ensures d == Delivery(seqNo - rxQueuedPkts, Past(sent, rxQueuedPkts))
      ensures forall k :: 0 <= k < rxQueuedPkts ==> rxPkt[k] == Delivery(seqNo - k, Past(sent, k))
    {
      BundleHead(bufx, sent, depth);
      var redundancyDepth := ReadU16(bufx, 0);
      var p := 2;
      if seqNo > nextSeqNo {
        rxQueuedPkts := seqNo - nextSeqNo;
        if rxQueuedPkts >= redundancyDepth {
          rxQueuedPkts := redundancyDepth - 1;
        }
        p := Collect(bufx, p, seqNo, sent, depth);
      }
      var payload;
      payload, p := ReadEntry(bufx, p, sent, rxQueuedPkts, depth);
      d := Delivery(seqNo - rxQueuedPkts, payload);
      nextSeqNo := seqNo + 1;
    }

    /** The loop that copies the newest entries of a bundle into the receive queue. */
    method Collect(bufx: seq<byte>, start: nat, seqNo: nat, ghost sent: seq<Payload>, ghost depth: nat)
      returns (p: nat)
      requires Valid() && rxQueuedPkts < depth && rxQueuedPkts <= seqNo
      requires start <= |bufx| && bufx[start..] == Entries(sent, 0, depth)
      modifies rxPkt
      ensures p <= |bufx| && bufx[p..] == Entries(sent, rxQueuedPkts, depth)
      ensures forall k :: 0 <= k < rxQueuedPkts ==> rxPkt[k] == Delivery(seqNo - k, Past(sent, k))
    {
      p := start;
      var i := 0;
      while i < rxQueuedPkts
        invariant 0 <= i <= rxQueuedPkts && p <= |bufx|
        invariant bufx[p..] == Entries(sent, i, depth)
        invariant forall k :: 0 <= k < i ==> rxPkt[k] == Delivery(seqNo - k, Past(sent, k))
      {
        var payload;
        payload, p := ReadEntry(bufx, p, sent, i, depth);
        rxPkt[i] := Delivery(seqNo - i, payload);
        i := i + 1;
      }
    }
  }

  /** What the path delivers: a bundle and the sequence number it was sent under. */
  datatype Arrival = Arrival(bytes: seq<byte>, seqNo: nat) {
    /** The path may lose bundles but never alters one, and the receive buffer holds it whole. */
    predicate Carries(sent: seq<Payload>, depth: nat) {
      && 1 <= depth <= SLOTS
      && sent != [] && seqNo == |sent| - 1
      && bytes == Bundle(sent, depth)
      && |bytes| <= depth * SLOT_SIZE
    }
  }

  /** The oldest packet that the bundle of packet last releases at a receiver expecting next. */
  function FirstReleased(next: nat, last: nat, depth: nat): (first: nat)
    requires depth >= 1
    ensures first <= last
  {
    if last <= next then last else if last - next < depth then next else last - (depth - 1)
  }

  /** Packets first, first + 1, ... of sent, each under its own number. */
  function Released(sent: seq<Payload>, first: nat): (q: seq<Delivery>)
    requires first <= |sent|
  {
    seq(|sent| - first, k requires 0 <= k < |sent| - first => Delivery(first + k, sent[first + k]))
  }
}
