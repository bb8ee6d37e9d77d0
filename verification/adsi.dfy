/** Message framing of src/adsi.c (CLASS, CLIP and ACLIP): preamble, characters, sumcheck. */
module Adsi {
  import opened Arith
  import opened Bits

  /** What surrounds a message; adsi_tx_set_preamble's defaults are 300, 80, 5 and 1. */
  datatype Config = Config(preambleLen: nat, preambleOnesLen: nat, postambleOnesLen: nat, stopBits: nat) {
    /** The stop bits sent: there is always one. */
    function Stops(): nat {
      if stopBits == 0 then 1 else stopBits
    }

    /** The ones that complete a part character at the end of the preamble. */
    function Pad(): nat {
      (10 - preambleLen % 10) % 10
    }

    /**
     * The ones complete the preamble's last character, and either leave an idle line or find that nothing is left of
     * the preamble, which is dropped every 88 characters; and stop bits alone are no idle line.
     */
    predicate Clean() {
      && Pad() <= preambleOnesLen
      && (preambleOnesLen - Pad() > 10 || (preambleLen + Pad()) % 880 == 0)
      && stopBits <= 11
    }
  }

  function Default(): (c: Config)
    ensures c.Clean()
  {
    Config(300, 80, 5, 1)
  }

  /** n bits that start with 0 and alternate. */
  function Alternating(n: nat): (s: seq<bool>)
    ensures |s| == n
  {
    seq(n, i => i % 2 == 1)
  }

  function CharBits(byte: byte, stopBits: nat): seq<bool> {
    [false] + (Lsb(byte, OCTET) + Ones(stopBits))
  }

  function CharsBits(bytes: seq<byte>, stopBits: nat): seq<bool> {
    if bytes == [] then [] else CharBits(bytes[0], stopBits) + CharsBits(bytes[1..], stopBits)
  }

  /** All that is sent for a buffer of octets. */
  function MessageBits(c: Config, full: seq<byte>): seq<bool> {
    Alternating(c.preambleLen) + (Ones(c.preambleOnesLen) + (CharsBits(full, c.Stops()) + Ones(c.postambleOnesLen)))
  }

  /** The octet that brings a sum to a multiple of 256. */
  function Sumcheck(bytes: seq<byte>): byte {
    var sum: int := Total(bytes);
    (-sum) % 256
  }

  /** The message as it is sent: with its length, if it has one, forced to be right. */
  function Forced(msg: seq<byte>): (m: seq<byte>)
    requires |msg| <= 255
    ensures |m| == |msg|
  {
    if |msg| < 2 then msg else msg[1 := |msg| - 2]
  }

  /** The buffer that adsi_tx_put_message fills. */
  function Full(msg: seq<byte>): (f: seq<byte>)
    requires |msg| <= 255
    ensures |f| == |msg| + 1
  {
    Forced(msg) + [Sumcheck(Forced(msg))]
  }

  // ----- the receiver

  /** The changing part of an adsi_rx_state_t: msg holds the octets collected, delivered what put_msg was given. */
  datatype Rx = Rx(consecutiveOnes: nat, bitPos: nat, inProgress: nat, msg: seq<byte>, framingErrors: nat,
                   delivered: seq<seq<byte>>)
  {
    predicate Valid() {
      inProgress < 256 && bitPos <= 9 && (bitPos == 0 ==> inProgress == 0)
    }

    /** Between characters, with no message begun. */
    predicate Resting() {
      bitPos == 0 && inProgress == 0 && msg == []
    }
  }

  /** The octets collected are as many as the length octet says. */
  predicate Complete(msg: seq<byte>) {
    |msg| >= 3 && |msg| == msg[1] as int + 3
  }

  /** A start bit. */
  function Started(s: Rx): Rx {
    s.(bitPos := 1, consecutiveOnes := 0, msg := if s.consecutiveOnes > 10 then [] else s.msg)
  }

  /** The end of a character with a good stop bit. */
  function Accept(s: Rx, octet: byte): Rx {
    var t := s.(bitPos := 0, inProgress := 0);
    if |s.msg| >= 256 then t
    else
      var msg := s.msg + [octet];
      if !Complete(msg) then t.(msg := msg)
      else
        var body := msg[..|msg| - 1];
        if Sumcheck(body) == octet then t.(msg := [], delivered := s.delivered + [body]) else t.(msg := [])
  }

  /** adsi_rx_put_bit for a data bit. */
  function Step(s: Rx, bit: bool): (t: Rx)
    requires s.Valid()
    ensures t.Valid()
  {
    if s.bitPos == 0 then if bit then s.(consecutiveOnes := s.consecutiveOnes + 1) else Started(s)
    else if s.bitPos <= 8 then s.(inProgress := s.inProgress / 2 + (if bit then 0x80 else 0), bitPos := s.bitPos + 1)
    else if bit then Accept(s, s.inProgress)
    else s.(framingErrors := s.framingErrors + 1, bitPos := 0, inProgress := 0)
  }

  // ----- the sumcheck

  /** The octets of a message, with their sumcheck, add up to a multiple of 256, */
  lemma SumsToZero(msg: seq<byte>)
    requires |msg| <= 255
    ensures Total(Full(msg)) % 256 == 0
  {
    assert Full(msg)[..|msg|] == Forced(msg);
  }

  /** a complete message is delivered just when what was received does, */
  lemma DeliveredIffZeroSum(s: Rx, octet: byte)
    requires |s.msg| < 256 && Complete(s.msg + [octet])
    ensures var t := Accept(s, octet);
      && t.msg == [] && t.framingErrors == s.framingErrors
      && t.delivered == s.delivered + if Total(s.msg + [octet]) % 256 == 0 then [s.msg] else []
  {
    hide Total, Complete;
    assert (s.msg + [octet])[..|s.msg|] == s.msg;
    TotalSnoc(s.msg, octet);
    ZeroSumIff(Total(s.msg), octet);
  }

  lemma TotalSnoc(bytes: seq<byte>, octet: byte)
    ensures Total(bytes + [octet]) == Total(bytes) + octet
  {
    assert (bytes + [octet])[..|bytes|] == bytes;
  }

  lemma ZeroSumIff(sum: int, octet: byte)
    ensures (-sum) % 256 == octet <==> (sum + octet) % 256 == 0
  {
  }

  /** so one octet that differs is always noticed. */
  lemma OneOctetIsNoticed(full: seq<byte>, k: nat, octet: byte)
    requires k < |full| && Total(full) % 256 == 0 && octet != full[k]
    ensures Total(full[k := octet]) % 256 != 0
  {
    TotalUpdate(full, k, octet);
    hide Total;
  }

  function Run(s: Rx, bits: seq<bool>): (t: Rx)
    requires s.Valid()
    ensures t.Valid()
    decreases |bits|
  {
    if bits == [] then s else Run(Step(s, bits[0]), bits[1..])
  }

  lemma {:induction false} RunAppend(s: Rx, a: seq<bool>, b: seq<bool>)
    requires s.Valid()
    ensures Run(s, a + b) == Run(Run(s, a), b)
    decreases |a|
  {
    hide Step, Rx.Valid;
    if a == [] {
      assert a + b == b;
    } else {
      assert (a + b)[1..] == a[1..] + b;
      RunAppend(Step(s, a[0]), a[1..], b);
    }
  }

  // ----- one character

  /** p holds the first k bits of an octet, v the n still to come. */
  lemma {:induction false} DataBits(s: Rx, p: nat, k: nat, v: nat, n: nat)
    requires s.Valid() && k + n == 8 && s.bitPos == k + 1 && s.inProgress == Placed(p, 8 - k)
    ensures Run(s, Lsb(v, n)) == s.(inProgress := p + Placed(Low(v, n), k), bitPos := 9)
    decreases n
  {
    hide *;
    if n == 0 {
      NoBits(s, p, k, v);
    } else {
      var b := v % 2 == 1;
      var p1 := p + if b then Pow2(k) else 0;
      var t := s.(inProgress := Placed(p1, 7 - k), bitPos := k + 2);
      assert t.Valid() && Run(s, Lsb(v, n)) == Run(t, Lsb(v / 2, n - 1)) by {
        DataBit(s, v, n);
        Pow2Of7();
        ShiftIn(p, k, b, 8);
      }
      DataBits(t, p1, k + 1, v / 2, n - 1);
      assert p1 + Placed(Low(v / 2, n - 1), k + 1) == p + Placed(Low(v, n), k) by {
        LowStep(p, k, v, n);
      }
    }
  }

  lemma Pow2Of7()
    ensures Pow2(7) == 0x80 && Pow2(8) == 256
  {
  }

  lemma NoBits(s: Rx, p: nat, k: nat, v: nat)
    requires s.Valid()
    ensures Run(s, Lsb(v, 0)) == s && p + Placed(Low(v, 0), k) == p && Placed(p, 0) == p
  {
    PlacedPow2(0, k);
    hide Step;
  }

  lemma DataBit(s: Rx, v: nat, n: nat)
    requires s.Valid() && 1 <= s.bitPos <= 8 && n > 0
    ensures var t := s.(inProgress := s.inProgress / 2 + (if v % 2 == 1 then 0x80 else 0), bitPos := s.bitPos + 1);
      t.Valid() && Run(s, Lsb(v, n)) == Run(t, Lsb(v / 2, n - 1))
  {
    assert Lsb(v, n)[1..] == Lsb(v / 2, n - 1);
  }

  lemma {:induction false} OnesRun(s: Rx, n: nat)
    requires s.Valid() && s.bitPos == 0
    ensures Run(s, Ones(n)) == s.(consecutiveOnes := s.consecutiveOnes + n)
    decreases n
  {
    if n > 0 {
      assert Ones(n)[1..] == Ones(n - 1);
      OnesRun(Step(s, true), n - 1);
    }
  }

  /** A whole character is accepted, and its further stop bits count towards an idle line. */
  lemma CharRun(s: Rx, octet: byte, stopBits: nat)
    requires s.Valid() && s.bitPos == 0 && stopBits >= 1
    ensures Run(s, CharBits(octet, stopBits)) == Accept(Started(s), octet).(consecutiveOnes := stopBits - 1)
  {
    hide *;
    var field, stop := Lsb(octet, OCTET), Ones(stopBits);
    var t := Started(s);
    FirstBit(s, field + stop);
    DataRun(t, octet);
    RunAppend(t, field, stop);
    StopRun(t.(inProgress := octet, bitPos := 9), octet, stopBits);
    AcceptInProgress(t, octet);
  }

  lemma FirstBit(s: Rx, rest: seq<bool>)
    requires s.Valid() && s.bitPos == 0
    ensures Started(s).Valid() && Run(s, [false] + rest) == Run(Started(s), rest)
    ensures Started(s).bitPos == 1 && Started(s).inProgress == 0 && Started(s).consecutiveOnes == 0
    ensures forall o: byte, n: nat :: CharBits(o, n) == [false] + (Lsb(o, OCTET) + Ones(n))
  {
    assert ([false] + rest)[1..] == rest;
  }

  lemma DataRun(t: Rx, octet: byte)
    requires t.Valid() && t.bitPos == 1 && t.inProgress == 0
    ensures Run(t, Lsb(octet, OCTET)) == t.(inProgress := octet, bitPos := 9)
  {
    assert Placed(0, 8) == 0 && OCTET == 8 && Placed(Low(octet, 8), 0) == Low(octet, 8) by {
      PlacedPow2(0, 8);
    }
    hide *;
    DataBits(t, 0, 0, octet, 8);
    Pow2Of7();
    LowIdentity(octet, 8);
  }

  lemma StopRun(t: Rx, octet: byte, stopBits: nat)
    requires t.Valid() && t.bitPos == 9 && t.inProgress == octet && t.consecutiveOnes == 0 && stopBits >= 1
    ensures Run(t, Ones(stopBits)) == Accept(t, octet).(consecutiveOnes := stopBits - 1)
  {
    assert Ones(stopBits)[1..] == Ones(stopBits - 1);
    OnesRun(Accept(t, octet), stopBits - 1);
    hide Complete, Sumcheck;
  }

  lemma AcceptInProgress(t: Rx, octet: byte)
    ensures Accept(t.(inProgress := octet, bitPos := 9), octet) == Accept(t, octet)
  {
    hide Complete, Sumcheck;
  }

  // ----- runs of characters

  lemma {:induction false} CharsAppend(a: seq<byte>, x: byte, stopBits: nat)
    ensures CharsBits(a + [x], stopBits) == CharsBits(a, stopBits) + CharBits(x, stopBits)
    decreases |a|
  {
    hide CharBits;
    if a == [] {
      assert ([] + [x])[1..] == [];
      assert CharsBits([], stopBits) == [];
    } else {
      assert (a + [x])[1..] == a[1..] + [x];
      CharsAppend(a[1..], x, stopBits);
    }
  }

  /** No prefix of the octets completes a message that begins with those collected. */
  predicate Incomplete(msg: seq<byte>, bytes: seq<byte>) {
    forall k :: 0 < k <= |bytes| ==> !Complete(msg + bytes[..k])
  }

  /** Characters that complete no message are collected. */
  lemma {:induction false} Collect(s: Rx, bytes: seq<byte>, stopBits: nat)
    requires s.Valid() && s.bitPos == 0 && 1 <= stopBits <= 11
    requires s.consecutiveOnes <= 10 || s.msg == []
    requires |s.msg| + |bytes| <= 256 && Incomplete(s.msg, bytes)
    ensures Run(s, CharsBits(bytes, stopBits))
         == s.(msg := s.msg + bytes, consecutiveOnes := if bytes == [] then s.consecutiveOnes else stopBits - 1)
    decreases |bytes|
  {
    hide Step, Complete, CharBits, Accept, Started;
    if bytes == [] {
      assert s.msg + [] == s.msg;
    } else {
      var t := s.(msg := s.msg + [bytes[0]], consecutiveOnes := stopBits - 1);
      CharRun(s, bytes[0], stopBits);
      assert bytes[..1] == [bytes[0]];
      Collects(s, bytes[0]);
      RunAppend(s, CharBits(bytes[0], stopBits), CharsBits(bytes[1..], stopBits));
      IncompleteRest(s.msg, bytes);
      Collect(t, bytes[1..], stopBits);
      assert t.msg + bytes[1..] == s.msg + bytes;
    }
  }

  lemma Collects(s: Rx, octet: byte)
    requires s.Valid() && s.bitPos == 0 && |s.msg| < 256 && !Complete(s.msg + [octet])
    requires s.consecutiveOnes <= 10 || s.msg == []
    ensures Accept(Started(s), octet) == s.(msg := s.msg + [octet], consecutiveOnes := 0)
  {
    hide Complete;
  }

  lemma IncompleteRest(msg: seq<byte>, bytes: seq<byte>)
    requires bytes != [] && Incomplete(msg, bytes)
    ensures Incomplete(msg + [bytes[0]], bytes[1..])
  {
    hide Complete;
    forall k | 0 < k <= |bytes[1..]|
      ensures !Complete(msg + [bytes[0]] + bytes[1..][..k])
    {
      assert msg + [bytes[0]] + bytes[1..][..k] == msg + bytes[..k + 1];
    }
  }

  // ----- the preamble

  function Repeated(octet: byte, n: nat): (s: seq<byte>)
    ensures |s| == n && forall i :: 0 <= i < n ==> s[i] == octet
  {
    if n == 0 then [] else [octet] + Repeated(octet, n - 1)
  }

  /** i times 1 and 0, least significant first, then ones: a character of which the preamble sends only a part. */
  function Part(i: nat, w: nat): (p: nat)
    requires 2 * i <= w
    ensures p < Pow2(w)
  {
    if i == 0 then Pow2(w) - 1 else 4 * Part(i - 1, w - 2) + 1
  }

  function Pairs(i: nat): (s: seq<bool>)
    ensures |s| == 2 * i
  {
    seq(2 * i, j => j % 2 == 0)
  }

  lemma {:induction false} PartBits(i: nat, w: nat)
    requires 2 * i <= w
    ensures Lsb(Part(i, w), w) == Pairs(i) + Ones(w - 2 * i)
  {
    hide Lsb, Pairs, Ones, Pow2;
    if i == 0 {
      AllOnes(w, w);
      NoPairs(w);
    } else {
      PartBits(i - 1, w - 2);
      OneZero(Part(i - 1, w - 2), w - 2);
      PairsStep(i, w - 2 * i);
    }
  }

  lemma NoPairs(n: nat)
    ensures Pairs(0) + Ones(n) == Ones(n)
  {
  }

  lemma PairsStep(i: nat, n: nat)
    requires i > 0
    ensures Pairs(i) + Ones(n) == [true, false] + (Pairs(i - 1) + Ones(n))
  {
  }

  lemma OneZero(v: nat, w: nat)
    ensures Lsb(4 * v + 1, w + 2) == [true, false] + Lsb(v, w)
  {
    hide Lsb;
    LsbDouble(v, 0, w + 1);
    LsbDouble(2 * v, 1, w + 2);
  }

  /** The octet that r bits of the preamble and then ones read as: 0xFF, 0xFD, 0xF5, 0xD5, and 0x55 at the end. */
  function PartOctet(r: nat): byte
    requires 1 <= r <= 10
  {
    assert Pow2(8) == 256;
    Part((r - 1) / 2, 8)
  }

  lemma PartOctetIs(r: nat)
    requires 1 <= r <= 10
    ensures PartOctet(r)
         == if r <= 2 then 0xFF else if r <= 4 then 0xFD else if r <= 6 then 0xF5 else if r <= 8 then 0xD5 else 0x55
  {
    assert Part(0, 8) == 255 && Part(0, 6) == 63 && Part(0, 4) == 15 && Part(0, 2) == 3 && Part(0, 0) == 0;
    assert Part(1, 8) == 253 && Part(1, 6) == 61 && Part(1, 4) == 13 && Part(1, 2) == 1;
    assert Part(2, 8) == 245 && Part(2, 6) == 53 && Part(2, 4) == 5;
    assert Part(3, 8) == 213 && Part(3, 6) == 21;
  }

  /** A part of the preamble, and ones, are one character. */
  lemma PreamblePart(r: nat)
    requires 1 <= r <= 10
    ensures Alternating(r) + Ones(10 - r) == CharBits(PartOctet(r), 1)
  {
    var i := (r - 1) / 2;
    PartBits(i, 8);
    assert PartOctet(r) == Part(i, 8);
    hide Lsb, Part, PartOctet, Alternating, Ones, Pairs;
    PartAlternates(i, r);
  }

  lemma PartAlternates(i: nat, r: nat)
    requires 2 * i + 1 <= r <= 2 * i + 2 <= 10
    ensures Alternating(r) + Ones(10 - r) == [false] + ((Pairs(i) + Ones(8 - 2 * i)) + Ones(1))
  {
  }

  /** Alternating bits read as characters 0x55. */
  lemma {:induction false} PreambleChars(k: nat)
    ensures Alternating(10 * k) == CharsBits(Repeated(0x55, k), 1)
  {
    if k == 0 {
      assert Alternating(0) == [];
    } else {
      PreambleChars(k - 1);
      PreamblePart(10);
      PartOctetIs(10);
      hide CharBits, PartOctet;
      assert Alternating(10) + Ones(0) == Alternating(10);
      assert Repeated(0x55, k)[1..] == Repeated(0x55, k - 1);
      AlternatingSplit(10, 10 * (k - 1));
    }
  }

  lemma AlternatingSplit(a: nat, b: nat)
    requires a % 2 == 0
    ensures Alternating(a + b) == Alternating(a) + Alternating(b)
  {
  }

  lemma TensSplit(k: nat, r: nat)
    ensures Alternating(10 * k + r) == Alternating(10 * k) + Alternating(r)
  {
    EvenTens(k);
    AlternatingSplit(10 * k, r);
    hide Alternating;
  }

  lemma EvenTens(k: nat)
    ensures (10 * k) % 2 == 0
  {
    hide *;
    var q, r := 10 * k / 2, 10 * k % 2;
    assert r == 2 * (5 * k - q);
  }

  lemma {:induction false} TotalRepeated(octet: byte, n: nat)
    ensures Total(Repeated(octet, n)) == octet * n
  {
    if n > 0 {
      TotalRepeated(octet, n - 1);
      assert Repeated(octet, n)[..n - 1] == Repeated(octet, n - 1);
    }
  }

  /** One character after j characters 0x55: 88 octets look like a message, and fail its sumcheck. */
  lemma PreambleOctet(s: Rx, j: nat, octet: byte)
    requires s.Valid() && s.bitPos == 0 && s.msg == Repeated(0x55, j) && j < 88
    requires (j == 0 || s.consecutiveOnes <= 10) && octet != 0x1D
    ensures Accept(Started(s), octet)
         == s.(msg := if j == 87 then [] else Repeated(0x55, j) + [octet], consecutiveOnes := 0)
  {
    assert s.inProgress == 0;
    if j == 87 {
      TotalRepeated(0x55, 87);
      assert (s.msg + [octet])[..87] == Repeated(0x55, 87);
    }
    hide Total;
  }

  /** Any number of preamble characters leaves what is left after the last 88, and delivers nothing. */
  lemma {:induction false} PreambleCollects(s: Rx, k: nat)
    requires s.Valid() && s.Resting()
    ensures Run(s, CharsBits(Repeated(0x55, k), 1))
         == s.(msg := Repeated(0x55, k % 88), consecutiveOnes := if k == 0 then s.consecutiveOnes else 0)
  {
    if k == 0 {
    } else {
      hide Step, CharBits, CharsBits, Accept, Started;
      var j, before := (k - 1) % 88, CharsBits(Repeated(0x55, k - 1), 1);
      PreambleCollects(s, k - 1);
      RepeatedSnoc(0x55, k - 1);
      CharsAppend(Repeated(0x55, k - 1), 0x55, 1);
      RunAppend(s, before, CharBits(0x55, 1));
      CharRun(Run(s, before), 0x55, 1);
      PreambleOctet(Run(s, before), j, 0x55);
      RepeatedSnoc(0x55, j);
      NextIn88(k);
    }
  }

  lemma NextIn88(k: nat)
    requires k > 0
    ensures k % 88 == if (k - 1) % 88 == 87 then 0 else (k - 1) % 88 + 1
  {
  }

  lemma {:induction false} RepeatedSnoc(octet: byte, n: nat)
    ensures Repeated(octet, n + 1) == Repeated(octet, n) + [octet]
  {
  }

  /** What k characters of the preamble and r further bits leave in the receiver. */
  function Leftover(k: nat, r: nat): seq<byte>
    requires r <= 9
  {
    if r == 0 then Repeated(0x55, k % 88) else if k % 88 == 87 then [] else Repeated(0x55, k % 88) + [PartOctet(r)]
  }

  lemma WholePreamble(s: Rx, k: nat, n: nat)
    requires s.Valid() && s.Resting()
    ensures Run(s, Alternating(10 * k) + Ones(n))
         == s.(msg := Repeated(0x55, k % 88), consecutiveOnes := if k == 0 then s.consecutiveOnes + n else n)
  {
    hide Run, CharsBits, Repeated;
    PreambleCollects(s, k);
    PreambleChars(k);
    OnesRun(Run(s, Alternating(10 * k)), n);
    RunAppend(s, Alternating(10 * k), Ones(n));
  }

  lemma PartPreamble(s: Rx, k: nat, r: nat, n: nat)
    requires s.Valid() && s.Resting() && 1 <= r <= 9
    ensures Run(s, Alternating(10 * k + r) + Ones(10 - r + n)) == s.(msg := Leftover(k, r), consecutiveOnes := n)
  {
    hide Run, CharsBits, Repeated, Alternating, Ones, PartOctet;
    PreambleCollects(s, k);
    PreambleChars(k);
    var t, part := Run(s, Alternating(10 * k)), Alternating(r) + Ones(10 - r);
    PartRun(t, k % 88, r);
    OnesRun(Run(t, part), n);
    SplitPreamble(k, r, n);
    RunAppend(t, part, Ones(n));
    RunAppend(s, Alternating(10 * k), part + Ones(n));
  }

  /** The preamble delivers nothing. */
  lemma PreambleRun(c: Config, s: Rx)
    requires s.Valid() && s.Resting() && c.Pad() <= c.preambleOnesLen
    ensures Run(s, Alternating(c.preambleLen) + Ones(c.preambleOnesLen))
         == s.(msg := Leftover(c.preambleLen / 10, c.preambleLen % 10),
               consecutiveOnes := if c.preambleLen == 0 then s.consecutiveOnes + c.preambleOnesLen
                                  else c.preambleOnesLen - c.Pad())
  {
    PreambleSplit(c);
    hide Run, Repeated, Alternating, Ones, PartOctet, Rx.Valid, Rx.Resting, Config.Pad;
    if c.preambleLen % 10 == 0 {
      WholePreamble(s, c.preambleLen / 10, c.preambleOnesLen);
    } else {
      PartPreamble(s, c.preambleLen / 10, c.preambleLen % 10, c.preambleOnesLen - c.Pad());
    }
  }

  lemma PreambleSplit(c: Config)
    ensures c.preambleLen == 10 * (c.preambleLen / 10) + c.preambleLen % 10
    ensures c.Pad() == if c.preambleLen % 10 == 0 then 0 else 10 - c.preambleLen % 10
  {
  }

  lemma PartRun(t: Rx, j: nat, r: nat)
    requires t.Valid() && t.bitPos == 0 && t.msg == Repeated(0x55, j) && j < 88 && 1 <= r <= 9
    requires j == 0 || t.consecutiveOnes <= 10
    ensures Run(t, Alternating(r) + Ones(10 - r))
         == t.(msg := if j == 87 then [] else Repeated(0x55, j) + [PartOctet(r)], consecutiveOnes := 0)
  {
    PartOctetIs(r);
    hide PartOctet, Run, Accept, Started, CharBits;
    PreamblePart(r);
    CharRun(t, PartOctet(r), 1);
    PreambleOctet(t, j, PartOctet(r));
  }

  lemma SplitPreamble(k: nat, r: nat, n: nat)
    requires 1 <= r <= 9
    ensures Alternating(10 * k + r) + Ones(10 - r + n)
         == Alternating(10 * k) + ((Alternating(r) + Ones(10 - r)) + Ones(n))
  {
    hide Alternating, Ones;
    TensSplit(k, r);
    OnesSplit(10 - r, n);
    FourParts(Alternating(10 * k + r), Ones(10 - r + n), Alternating(10 * k), Alternating(r), Ones(10 - r), Ones(n));
  }

  lemma FourParts(x: seq<bool>, y: seq<bool>, a: seq<bool>, b: seq<bool>, c: seq<bool>, d: seq<bool>)
    requires x == a + b && y == c + d
    ensures x + y == a + ((b + c) + d)
  {
    Associate(a, b, c + d);
    Associate(b, c, d);
  }

  lemma LeftoverIs(c: Config)
    ensures Leftover(c.preambleLen / 10, c.preambleLen % 10) == [] <==> (c.preambleLen + c.Pad()) % 880 == 0
  {
    var k, r := c.preambleLen / 10, c.preambleLen % 10;
    hide Repeated, PartOctet, Config.Pad;
    PreambleSplit(c);
    if r == 0 {
      TimesTen(k);
    } else {
      TimesTen(k + 1);
      NextIn88(k + 1);
      assert c.preambleLen + c.Pad() == 10 * (k + 1);
    }
  }

  lemma TimesTen(k: nat)
    ensures (10 * k) % 880 == 10 * (k % 88)
  {
    var q := k / 88;
    assert 10 * k == 880 * q + 10 * (k % 88);
  }

  // ----- a message

  /** After an idle line the first start bit drops whatever was collected. */
  lemma Restart(s: Rx, bytes: seq<byte>, stopBits: nat)
    requires s.Valid() && s.bitPos == 0 && bytes != [] && (s.consecutiveOnes > 10 || s.msg == [])
    ensures s.(msg := []).Valid()
    ensures Run(s, CharsBits(bytes, stopBits)) == Run(s.(msg := []), CharsBits(bytes, stopBits))
  {
    var u := s.(msg := []);
    assert Started(s) == Started(u);
    var rest := Lsb(bytes[0], OCTET) + Ones(stopBits) + CharsBits(bytes[1..], stopBits);
    assert CharsBits(bytes, stopBits) == [false] + rest;
    FirstBit(s, rest);
    FirstBit(u, rest);
    hide Step, Started, CharsBits;
  }

  lemma BodyIncomplete(msg: seq<byte>)
    requires 2 <= |msg| <= 255
    ensures Incomplete([], Forced(msg))
  {
    var m := Forced(msg);
    forall k | 0 < k <= |m|
      ensures !Complete([] + m[..k])
    {
      assert [] + m[..k] == m[..k];
    }
  }

  /** The characters of a message deliver it once, with its length put right. */
  lemma MessageRun(s: Rx, msg: seq<byte>, stopBits: nat)
    requires s.Valid() && s.bitPos == 0 && 1 <= stopBits <= 11 && 2 <= |msg| <= 255
    requires s.consecutiveOnes > 10 || s.msg == []
    ensures Run(s, CharsBits(Full(msg), stopBits))
         == s.(msg := [], consecutiveOnes := stopBits - 1, delivered := s.delivered + [Forced(msg)])
  {
    assert s.inProgress == 0;
    hide *;
    var m, check, u := Forced(msg), Sumcheck(Forced(msg)), s.(msg := []);
    FullIs(msg);
    Restart(s, Full(msg), stopBits);
    CharsAppend(m, check, stopBits);
    BodyIncomplete(msg);
    Collect(u, m, stopBits);
    RunAppend(u, CharsBits(m, stopBits), CharBits(check, stopBits));
    assert [] + m == m;
    var v := u.(msg := m, consecutiveOnes := stopBits - 1);
    CharRun(v, check, stopBits);
    Delivers(v, msg);
  }

  lemma FullIs(msg: seq<byte>)
    requires |msg| <= 255
    ensures Full(msg) == Forced(msg) + [Sumcheck(Forced(msg))]
  {
    hide Sumcheck;
  }

  lemma Delivers(v: Rx, msg: seq<byte>)
    requires 2 <= |msg| <= 255 && v.bitPos == 0 && v.inProgress == 0 && v.msg == Forced(msg) && v.consecutiveOnes <= 10
    ensures Accept(Started(v), Sumcheck(Forced(msg)))
         == v.(msg := [], consecutiveOnes := 0, delivered := v.delivered + [Forced(msg)])
  {
    hide Sumcheck;
    var m := Forced(msg);
    assert (m + [Sumcheck(m)])[..|m|] == m;
    assert (m + [Sumcheck(m)])[1] == |msg| - 2;
  }

  /**
   * From rest, everything sent for one message produces exactly one delivery, of the message with its length put
   * right, and leaves the receiver at rest. The preamble delivers nothing.
   */
  lemma MessageArrives(c: Config, s: Rx, msg: seq<byte>)
    requires c.Clean() && s.Valid() && s.Resting() && 2 <= |msg| <= 255
    ensures var t := Run(s, MessageBits(c, Full(msg)));
      t.Resting() && t.delivered == s.delivered + [Forced(msg)] && t.framingErrors == s.framingErrors
  {
    var a, b := Alternating(c.preambleLen), Ones(c.preambleOnesLen);
    var d, e := CharsBits(Full(msg), c.Stops()), Ones(c.postambleOnesLen);
    Grouped(c, Full(msg));
    AfterPreamble(c, s);
    hide Run, Step, Forced, Full, Alternating, Ones, CharsBits, Config.Clean, Config.Stops, Leftover;
    RunAppend(s, a + b, d + e);
    var u := Run(s, a + b);
    MessageRun(u, msg, c.Stops());
    RunAppend(u, d, e);
    OnesRun(Run(u, d), c.postambleOnesLen);
  }

  lemma Grouped(c: Config, full: seq<byte>)
    ensures MessageBits(c, full)
         == (Alternating(c.preambleLen) + Ones(c.preambleOnesLen))
            + (CharsBits(full, c.Stops()) + Ones(c.postambleOnesLen))
  {
    hide Alternating, Ones, CharsBits;
    Associate(Alternating(c.preambleLen), Ones(c.preambleOnesLen),
              CharsBits(full, c.Stops()) + Ones(c.postambleOnesLen));
  }

  /** After a clean preamble the line is idle, or nothing of it is left. */
  lemma AfterPreamble(c: Config, s: Rx)
    requires c.Clean() && s.Valid() && s.Resting()
    ensures var u := Run(s, Alternating(c.preambleLen) + Ones(c.preambleOnesLen));
      && u == s.(msg := u.msg, consecutiveOnes := u.consecutiveOnes) && (u.consecutiveOnes > 10 || u.msg == [])
    ensures 1 <= c.Stops() <= 11
  {
    hide Run, Leftover, Alternating, Ones, Config.Pad;
    PreambleRun(c, s);
    LeftoverIs(c);
  }

  /** All that is sent for a sequence of messages. */
  function StreamBits(c: Config, msgs: seq<seq<byte>>): seq<bool>
    requires forall i :: 0 <= i < |msgs| ==> 2 <= |msgs[i]| <= 255
  {
    if msgs == [] then [] else MessageBits(c, Full(msgs[0])) + StreamBits(c, msgs[1..])
  }

  function AllForced(msgs: seq<seq<byte>>): (r: seq<seq<byte>>)
    requires forall i :: 0 <= i < |msgs| ==> 2 <= |msgs[i]| <= 255
    ensures |r| == |msgs|
    ensures forall i :: 0 <= i < |msgs| ==> r[i] == Forced(msgs[i])
  {
    if msgs == [] then [] else [Forced(msgs[0])] + AllForced(msgs[1..])
  }

  lemma EmptyStream(c: Config)
    ensures StreamBits(c, []) == [] && AllForced([]) == []
  {
  }

  lemma StreamStep(c: Config, msgs: seq<seq<byte>>)
    requires msgs != [] && forall i :: 0 <= i < |msgs| ==> 2 <= |msgs[i]| <= 255
    ensures StreamBits(c, msgs) == MessageBits(c, Full(msgs[0])) + StreamBits(c, msgs[1..])
    ensures AllForced(msgs) == [Forced(msgs[0])] + AllForced(msgs[1..])
  {
    hide MessageBits, Forced, Full;
  }

  /** One delivery for each message, in order, and no others. */
  lemma {:induction false} StreamArrives(c: Config, s: Rx, msgs: seq<seq<byte>>)
    requires c.Clean() && s.Valid() && s.Resting() && forall i :: 0 <= i < |msgs| ==> 2 <= |msgs[i]| <= 255
    ensures var t := Run(s, StreamBits(c, msgs));
      t.Resting() && t.delivered == s.delivered + AllForced(msgs) && t.framingErrors == s.framingErrors
    decreases |msgs|
  {
    hide Step, Forced, Full, MessageBits, Config.Clean, StreamBits, AllForced;
    if msgs == [] {
      EmptyStream(c);
      assert s.delivered + [] == s.delivered;
    } else {
      StreamStep(c, msgs);
      var first := MessageBits(c, Full(msgs[0]));
      MessageArrives(c, s, msgs[0]);
      RunAppend(s, first, StreamBits(c, msgs[1..]));
      StreamArrives(c, Run(s, first), msgs[1..]);
    }
  }

  // ----- what is lost

  /** A message without a length octet is sent, but never delivered. */
  lemma ShortMessageIsLost(c: Config, s: Rx, msg: seq<byte>)
    requires c.Clean() && s.Valid() && s.Resting() && |msg| < 2
    ensures var t := Run(s, MessageBits(c, Full(msg)));
      t.bitPos == 0 && t.msg == Full(msg) && t.delivered == s.delivered && t.framingErrors == s.framingErrors
  {
    var a, b := Alternating(c.preambleLen), Ones(c.preambleOnesLen);
    var d, e := CharsBits(Full(msg), c.Stops()), Ones(c.postambleOnesLen);
    Grouped(c, Full(msg));
    AfterPreamble(c, s);
    ShortIncomplete(Full(msg));
    hide Run, Step, Forced, Full, Alternating, Ones, CharsBits, Config.Clean, Config.Stops, Leftover, Incomplete;
    RunAppend(s, a + b, d + e);
    var u := Run(s, a + b);
    Restart(u, Full(msg), c.Stops());
    Collect(u.(msg := []), Full(msg), c.Stops());
    assert [] + Full(msg) == Full(msg);
    RunAppend(u, d, e);
    OnesRun(Run(u, d), c.postambleOnesLen);
  }

  lemma ShortIncomplete(bytes: seq<byte>)
    requires |bytes| <= 2
    ensures Incomplete([], bytes)
  {
  }

  /** A message that is lost whenever any is. */
  const LOST: seq<byte> := [255, 0]

  const REST := Rx(0, 0, 0, [], 0, [])

  /** Nothing shorter than 87 octets has been delivered first, or will be in left more characters. */
  predicate Spoilt(t: Rx, stopBits: nat, left: nat) {
    && t.bitPos == 0 && t.inProgress == 0 && left <= 3
    && (t.delivered == [] || |t.delivered[0]| >= 87)
    && (if t.consecutiveOnes > 10 then stopBits > 11 else |t.msg| + left <= 2 || (|t.msg| >= 2 && t.msg[1] >= 0x55))
  }

  lemma StaysSpoilt(t: Rx, octet: byte, stopBits: nat, left: nat)
    requires left > 0 && Spoilt(t, stopBits, left) && 1 <= stopBits
    ensures Spoilt(Accept(Started(t), octet).(consecutiveOnes := stopBits - 1), stopBits, left - 1)
  {
    hide Sumcheck;
  }

  lemma SpoiltRun(t: Rx, bytes: seq<byte>, stopBits: nat)
    requires Spoilt(t, stopBits, |bytes|) && 1 <= stopBits && t.Valid()
    ensures Spoilt(Run(t, CharsBits(bytes, stopBits)), stopBits, 0)
    decreases |bytes|
  {
    if bytes != [] {
      var u := Accept(Started(t), bytes[0]).(consecutiveOnes := stopBits - 1);
      StaysSpoilt(t, bytes[0], stopBits, |bytes|);
      hide Accept, Started, CharBits, Step, Spoilt;
      CharRun(t, bytes[0], stopBits);
      RunAppend(t, CharBits(bytes[0], stopBits), CharsBits(bytes[1..], stopBits));
      SpoiltRun(u, bytes[1..], stopBits);
    }
  }

  /** The preamble spoils the message unless the configuration is clean. */
  lemma UncleanIsSpoilt(c: Config)
    requires c.Pad() <= c.preambleOnesLen && !c.Clean()
    ensures var u := Run(REST, Alternating(c.preambleLen) + Ones(c.preambleOnesLen));
      u.Valid() && Spoilt(Run(u, CharsBits(Full(LOST), c.Stops())), c.Stops(), 0)
  {
    var u := Run(REST, Alternating(c.preambleLen) + Ones(c.preambleOnesLen));
    hide Run, CharsBits, Alternating, Ones, Full, Leftover, Config.Pad;
    PreambleRun(c, REST);
    LeftoverIs(c);
    LeftoverLength(c.preambleLen / 10, c.preambleLen % 10);
    LostIs();
    if u.consecutiveOnes > 10 || |u.msg| >= 2 {
      SpoiltRun(u, Full(LOST), c.Stops());
    } else {
      OneOctetSpoils(u, c.Stops());
    }
  }

  /** After one octet of the preamble, the first of the message is taken for the length. */
  lemma OneOctetSpoils(u: Rx, stopBits: nat)
    requires u.Valid() && u.bitPos == 0 && u.delivered == [] && u.consecutiveOnes <= 10 && stopBits >= 1
    requires |u.msg| == 1 || (u.msg == [] && stopBits > 11)
    ensures Spoilt(Run(u, CharsBits(Full(LOST), stopBits)), stopBits, 0)
  {
    LostIs();
    hide Run, CharsBits, Full, CharBits;
    CharRun(u, 255, stopBits);
    CharsFirst(Full(LOST), stopBits);
    RunAppend(u, CharBits(255, stopBits), CharsBits(Full(LOST)[1..], stopBits));
    SpoiltRun(Accept(Started(u), 255).(consecutiveOnes := stopBits - 1), Full(LOST)[1..], stopBits);
  }

  lemma CharsFirst(bytes: seq<byte>, stopBits: nat)
    requires bytes != []
    ensures CharsBits(bytes, stopBits) == CharBits(bytes[0], stopBits) + CharsBits(bytes[1..], stopBits)
  {
  }

  lemma LostIs()
    ensures Forced(LOST) == LOST && Full(LOST) == [255, 0, 1]
  {
    assert LOST[..1] == [255] && [255][..0] == [];
    assert Total(LOST) == 255;
  }

  /** The second octet left of a preamble is 0x55 or more. */
  lemma LeftoverLength(k: nat, r: nat)
    requires r <= 9
    ensures |Leftover(k, r)| >= 2 ==> Leftover(k, r)[1] >= 0x55
  {
    if r > 0 {
      PartOctetIs(r);
    }
    hide PartOctet;
  }

  // ----- a message that starts within a character

  /** The octets collected do not begin with 255, and what was delivered first is not LOST. */
  predicate Unread(t: Rx) {
    (t.msg == [] || t.msg[0] != 255) && (t.delivered == [] || t.delivered[0] != LOST)
  }

  /** The same, between characters. */
  predicate Misread(t: Rx) {
    Unread(t) && t.bitPos == 0 && t.inProgress == 0
  }

  lemma StaysMisread(t: Rx, octet: byte, ones: nat)
    requires Misread(t) && octet != 255
    ensures Misread(Accept(Started(t), octet).(consecutiveOnes := ones))
  {
    hide Sumcheck, Complete;
  }

  lemma MisreadRun(t: Rx, bytes: seq<byte>, stopBits: nat)
    requires t.Valid() && Misread(t) && 1 <= stopBits && 255 !in bytes
    ensures Misread(Run(t, CharsBits(bytes, stopBits)))
    decreases |bytes|
  {
    if bytes != [] {
      StaysMisread(t, bytes[0], stopBits - 1);
      hide Accept, Started, CharBits, Step, Misread;
      CharRun(t, bytes[0], stopBits);
      RunAppend(t, CharBits(bytes[0], stopBits), CharsBits(bytes[1..], stopBits));
      MisreadRun(Accept(Started(t), bytes[0]).(consecutiveOnes := stopBits - 1), bytes[1..], stopBits);
    }
  }

  /** Within a character, bits are shifted in. */
  lemma {:induction false} Shifts(t: Rx, bits: seq<bool>)
    requires t.Valid() && 1 <= t.bitPos && t.bitPos + |bits| <= 9
    ensures Run(t, bits) == t.(inProgress := Run(t, bits).inProgress, bitPos := t.bitPos + |bits|)
    decreases |bits|
  {
    if bits != [] {
      Shifts(Step(t, bits[0]), bits[1..]);
    }
  }

  /** A zero bit is still in the register after up to seven ones. */
  lemma {:induction false} ZeroStays(t: Rx, n: nat, k: nat)
    requires t.Valid() && 1 <= t.bitPos && t.bitPos + k <= 9 && n + k <= 7 && t.inProgress <= 255 - Pow2(7 - n)
    ensures Run(t, Ones(k)).inProgress <= 255 - Pow2(7 - n - k)
    decreases k
  {
    if k > 0 {
      assert Ones(k)[1..] == Ones(k - 1);
      ZeroStays(Step(t, true), n + 1, k - 1);
    }
  }

  lemma Char255(stopBits: nat)
    ensures CharBits(255, stopBits) == [false] + Ones(8 + stopBits)
  {
    assert Lsb(255, 8) == Ones(8) by {
      AllOnes(8, 8);
      Pow2Of7();
      hide Lsb;
    }
    OnesSplit(8, stopBits);
    hide Lsb, Ones;
  }

  lemma FirstStep(u: Rx, stopBits: nat)
    requires u.Valid()
    ensures Run(u, CharBits(255, stopBits)) == Run(Step(u, false), Ones(8 + stopBits))
  {
    Char255(stopBits);
    hide CharBits, Step;
    assert ([false] + Ones(8 + stopBits))[1..] == Ones(8 + stopBits);
  }

  /** The character 255, begun while another is received: it is lost, and nothing is read as 255. */
  lemma FirstMisread(u: Rx, stopBits: nat)
    requires u.Valid() && 1 <= u.bitPos && stopBits >= 1 && Unread(u)
    ensures Misread(Run(u, CharBits(255, stopBits)))
  {
    hide *;
    var v, b := Step(u, false), u.bitPos;
    WithinChar(u);
    FirstStep(u, stopBits);
    ZeroWithin(u);
    if b == 9 {
      StartAsStop(v, 8 + stopBits);
    } else {
      OnesSplit(8 - b, b + stopBits);
      StartAsData(v, b, b + stopBits);
    }
  }

  lemma WithinChar(u: Rx)
    requires u.Valid()
    ensures u.bitPos <= 9
  {
  }

  /** A zero bit within a character is data, or a bad stop bit. */
  lemma ZeroWithin(u: Rx)
    requires u.Valid() && 1 <= u.bitPos
    ensures var v := Step(u, false);
      && (Unread(u) ==> Unread(v))
      && (if u.bitPos == 9 then v.bitPos == 0 && v.inProgress == 0
          else v.bitPos == u.bitPos + 1 && v.inProgress <= 127)
  {
  }

  lemma OnesSplit(a: nat, b: nat)
    ensures Ones(a) + Ones(b) == Ones(a + b)
  {
  }

  /** The start bit was taken for a bad stop bit. */
  lemma StartAsStop(v: Rx, n: nat)
    requires v.Valid() && v.bitPos == 0 && Unread(v)
    ensures Misread(Run(v, Ones(n)))
  {
    OnesRun(v, n);
  }

  /** The start bit was taken for a data bit. */
  lemma StartAsData(v: Rx, b: nat, n: nat)
    requires v.Valid() && 1 <= b <= 8 && v.bitPos == b + 1 && v.inProgress <= 127 && n > 0 && Unread(v)
    ensures Misread(Run(v, Ones(8 - b) + Ones(n)))
  {
    hide Run, Ones, Step;
    RunAppend(v, Ones(8 - b), Ones(n));
    Shifts(v, Ones(8 - b));
    Pow2Of7();
    ZeroStays(v, 0, 8 - b);
    AcceptsMisread(Run(v, Ones(8 - b)), n);
  }

  lemma AcceptsMisread(w: Rx, n: nat)
    requires w.Valid() && w.bitPos == 9 && w.inProgress != 255 && n > 0 && Unread(w)
    ensures Misread(Run(w, Ones(n)))
  {
    hide Sumcheck, Complete;
    assert Ones(n)[1..] == Ones(n - 1);
    OnesRun(Step(w, true), n - 1);
  }

  /** Where the ones do not complete the preamble's last character, LOST is lost. */
  lemma MisalignedIsLost(c: Config)
    requires c.preambleOnesLen < c.Pad()
    ensures Run(REST, MessageBits(c, Full(LOST))).delivered != [Forced(LOST)]
  {
    var k, r := c.preambleLen / 10, c.preambleLen % 10;
    var a, d, e := Alternating(c.preambleLen) + Ones(c.preambleOnesLen), CharsBits(Full(LOST), c.Stops()),
                   Ones(c.postambleOnesLen);
    LostIs();
    Grouped(c, Full(LOST));
    BrokenOff(c);
    hide Run, MessageBits, Full, Alternating, Ones, Config.Pad, Config.Stops, Misread, CharBits, CharsBits, Forced;
    var u := Run(REST, a);
    FirstMisread(u, c.Stops());
    CharsFirst(Full(LOST), c.Stops());
    RunAppend(u, CharBits(255, c.Stops()), CharsBits(Full(LOST)[1..], c.Stops()));
    MisreadRun(Run(u, CharBits(255, c.Stops())), Full(LOST)[1..], c.Stops());
    RunAppend(REST, a, d + e);
    RunAppend(u, d, e);
    EndsMisread(Run(u, d), c.postambleOnesLen);
  }

  lemma EndsMisread(t: Rx, n: nat)
    requires t.Valid() && Misread(t)
    ensures Run(t, Ones(n)).delivered != [LOST]
  {
    OnesRun(t, n);
  }

  /** The receiver is left within a character, after octets 0x55. */
  lemma BrokenOff(c: Config)
    requires c.preambleOnesLen < c.Pad()
    ensures var u := Run(REST, Alternating(c.preambleLen) + Ones(c.preambleOnesLen)); 1 <= u.bitPos && Unread(u)
    ensures c.Stops() >= 1
  {
    PreambleSplit(c);
    hide Config.Pad, Run, Alternating, Ones, Unread;
    BrokenAt(c.preambleLen / 10, c.preambleLen % 10, c.preambleOnesLen);
  }

  lemma BrokenAt(k: nat, r: nat, n: nat)
    requires r >= 1 && r + n <= 9
    ensures var u := Run(REST, Alternating(10 * k + r) + Ones(n)); 1 <= u.bitPos && Unread(u)
  {
    hide Run, Repeated, Step, Ones, Alternating, CharsBits;
    PreambleCollects(REST, k);
    PreambleChars(k);
    var t, part := Run(REST, Alternating(10 * k)), Alternating(r) + Ones(n);
    BrokenSplit(k, r, n);
    RunAppend(REST, Alternating(10 * k), part);
    FirstBit(t, part[1..]);
    Shifts(Started(t), part[1..]);
  }

  lemma BrokenSplit(k: nat, r: nat, n: nat)
    requires r >= 1
    ensures Alternating(10 * k + r) + Ones(n) == Alternating(10 * k) + (Alternating(r) + Ones(n))
    ensures var part := Alternating(r) + Ones(n); part == [false] + part[1..] && |part[1..]| == r + n - 1
  {
    assert !Alternating(r)[0];
    hide Alternating, Ones;
    TensSplit(k, r);
    Associate(Alternating(10 * k), Alternating(r), Ones(n));
    FirstOf(Alternating(r) + Ones(n));
  }

  lemma FirstOf(bits: seq<bool>)
    requires bits != []
    ensures bits == [bits[0]] + bits[1..]
  {
  }

  /** Every message arrives if and only if the configuration is clean. */
  lemma ArrivesIff(c: Config)
    ensures c.Clean() <==>
      forall msg: seq<byte> :: 2 <= |msg| <= 255 ==>
        Run(REST, MessageBits(c, Full(msg))).delivered == [Forced(msg)]
  {
    hide Run, MessageBits, Full, Forced, Config.Pad;
    if c.Clean() {
      forall msg: seq<byte> | 2 <= |msg| <= 255
        ensures Run(REST, MessageBits(c, Full(msg))).delivered == [Forced(msg)]
      {
        MessageArrives(c, REST, msg);
      }
    } else {
      if c.Pad() <= c.preambleOnesLen {
        LostMessage(c);
      } else {
        MisalignedIsLost(c);
      }
      assert 2 <= |LOST| <= 255;
    }
  }

  lemma LostMessage(c: Config)
    requires c.Pad() <= c.preambleOnesLen && !c.Clean()
    ensures Run(REST, MessageBits(c, Full(LOST))).delivered != [Forced(LOST)]
  {
    var a, d, e := Alternating(c.preambleLen) + Ones(c.preambleOnesLen), CharsBits(Full(LOST), c.Stops()),
                   Ones(c.postambleOnesLen);
    UncleanIsSpoilt(c);
    Grouped(c, Full(LOST));
    hide Run, MessageBits, Full, Alternating, Ones, CharsBits, Config.Clean, Config.Pad, Config.Stops;
    RunAppend(REST, a, d + e);
    RunAppend(Run(REST, a), d, e);
    OnesRun(Run(Run(REST, a), d), c.postambleOnesLen);
  }
}
