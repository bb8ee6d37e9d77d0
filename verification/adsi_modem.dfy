/** The bit-level state machines of src/adsi.c: adsi_tx_get_bit, adsi_tx_put_message and adsi_rx_put_bit. */
module AdsiModem {
  import opened Arith
  import opened Bits
  import opened Adsi

  const CARRIER_UP: int := -2
  const END_OF_DATA: int := -7

  /** An adsi_rx_state_t; its put_msg callback appends to delivered. */
  class Receiver {
    var consecutiveOnes: nat
    var bitPos: nat
    var inProgress: nat
    const msg: array<byte>
    var msgLen: nat
    var framingErrors: nat
    var delivered: seq<seq<byte>>

    function State(): Rx
      requires msgLen <= msg.Length
      reads this, msg
    {
      Rx(consecutiveOnes, bitPos, inProgress, msg[..msgLen], framingErrors, delivered)
    }

    predicate Valid()
      reads this, msg
    {
      msg.Length == 256 && msgLen <= 256 && State().Valid()
    }

    /** adsi_rx_init. */
    constructor ()
      ensures Valid() && fresh(msg) && State() == Rx(0, 0, 0, [], 0, [])
    {
      msg := new byte[256](_ => 0);
      consecutiveOnes, bitPos, inProgress, msgLen, framingErrors, delivered := 0, 0, 0, 0, 0, [];
    }

    /** The sumcheck loop: the sum of the first n octets. */
    method SumOf(n: nat) returns (sum: nat)
      requires n <= msg.Length
      ensures sum == Total(msg[..n])
    {
      sum := 0;
      var i := 0;
      while i < n
        invariant 0 <= i <= n && sum == Total(msg[..i])
      {
        assert msg[..i + 1][..i] == msg[..i];
        sum := sum + msg[i];
        i := i + 1;
      }
    }

    /** A character with a good stop bit. */
    method Accepted()
      requires Valid() && bitPos == 9
      modifies `msgLen, `delivered, msg
      ensures msgLen <= 256
      ensures Accept(old(State()), old(inProgress)) == State().(bitPos := 0, inProgress := 0)
    {
      hide Total;
      if msgLen < 256 {
        ghost var was := msg[..msgLen];
        msg[msgLen] := inProgress;
        msgLen := msgLen + 1;
        ghost var now := msg[..msgLen];
        assert now == was + [inProgress];
        if msgLen >= 3 && msgLen == msg[1] as int + 3 {
          var sum: int := SumOf(msgLen - 1);
          assert msg[..msgLen - 1] == now[..|now| - 1];
          if (-sum) % 256 == msg[msgLen - 1] {
            delivered := delivered + [msg[..msgLen - 1]];
          }
          msgLen := 0;
        }
      }
    }

    /** adsi_rx_put_bit. */
    method PutBit(bit: int)
      requires Valid()
      modifies this, msg
      ensures Valid()
      ensures bit >= 0 ==> State() == Step(old(State()), bit % 2 == 1)
      ensures bit == CARRIER_UP ==>
        State() == old(State()).(consecutiveOnes := 0, bitPos := 0, inProgress := 0, msg := [])
      ensures bit < 0 && bit != CARRIER_UP ==> State() == old(State())
    {
      hide Accept;
      if bit < 0 {
        if bit == CARRIER_UP {
          consecutiveOnes, bitPos, inProgress, msgLen := 0, 0, 0, 0;
        }
      } else if bitPos == 0 {
        if bit % 2 == 0 {
          bitPos := bitPos + 1;
          if consecutiveOnes > 10 {
            msgLen := 0;
          }
          consecutiveOnes := 0;
        } else {
          consecutiveOnes := consecutiveOnes + 1;
        }
      } else if bitPos <= 8 {
        inProgress := inProgress / 2;
        if bit % 2 == 1 {
          inProgress := inProgress + 0x80;
        }
        bitPos := bitPos + 1;
      } else {
        if bit % 2 == 1 {
          Accepted();
        } else {
          framingErrors := framingErrors + 1;
        }
        bitPos, inProgress := 0, 0;
      }
    }

    method PutBits(bits: seq<bool>)
      requires Valid()
      modifies this, msg
      ensures Valid() && State() == Run(old(State()), bits)
    {
      hide Step, Rx.Valid;
      var i := 0;
      assert bits[0..] == bits;
      while i < |bits|
        invariant 0 <= i <= |bits| && Valid()
        invariant Run(State(), bits[i..]) == Run(old(State()), bits)
      {
        assert bits[i..][1..] == bits[i + 1..];
        PutBit(if bits[i] then 1 else 0);
        i := i + 1;
      }
    }
  }

  /** An adsi_tx_state_t. */
  class Transmitter {
    const c: Config
    var bitNo: nat
    var bitPos: nat
    var byteNo: nat
    const msg: array<byte>
    var msgLen: nat
    var txSignalOn: bool

    predicate Valid()
      reads this, msg
    {
      && msg.Length == 256 && msgLen <= 256 && bitPos <= 8 + c.Stops()
      && (bitNo != c.preambleLen + c.preambleOnesLen ==> bitPos == 0)
      && (msgLen > 0 && bitNo <= c.preambleLen + c.preambleOnesLen ==> byteNo < msgLen)
    }

    /** The bits of a character from bitPos on. */
    static function CharLeft(octet: byte, bitPos: nat, stopBits: nat): seq<bool>
      requires bitPos <= 8 + stopBits
    {
      if bitPos == 0 then CharBits(octet, stopBits)
      else if bitPos <= 8 then Lsb(ShrNat(octet, bitPos - 1), 9 - bitPos) + Ones(stopBits)
      else Ones(stopBits - (bitPos - 9))
    }

    /** The bits still to be sent for the message in the buffer. */
    function Left(): seq<bool>
      requires Valid() && msgLen > 0
      reads this, msg
    {
      var idle := c.preambleLen + c.preambleOnesLen;
      if bitNo < c.preambleLen then
        Alternating(c.preambleLen)[bitNo..] + (Ones(c.preambleOnesLen) + CharsLeft())
      else if bitNo < idle then Ones(idle - bitNo) + CharsLeft()
      else if bitNo == idle then CharsLeft()
      else if bitNo <= idle + c.postambleOnesLen then Ones(idle + c.postambleOnesLen + 1 - bitNo)
      else []
    }

    function CharsLeft(): seq<bool>
      requires byteNo < msgLen <= msg.Length && bitPos <= 8 + c.Stops()
      reads `byteNo, `bitPos, `msgLen, msg
    {
      CharLeft(msg[byteNo], bitPos, c.Stops())
      + (CharsBits(msg[byteNo + 1..msgLen], c.Stops()) + Ones(c.postambleOnesLen))
    }

    /** adsi_tx_init, with the bit timing that adsi_tx_set_preamble leaves. */
    constructor (c: Config)
      ensures Valid() && fresh(msg) && msgLen == 0 && this.c == c
    {
      this.c := c;
      msg := new byte[256](_ => 0);
      bitNo, bitPos, byteNo, msgLen, txSignalOn := 0, 0, 0, 0, false;
    }

    /** adsi_tx_get_bit while there is a message: its next bit, or the end of it. */
    method GetBit() returns (bit: int)
      requires Valid() && msgLen > 0
      modifies this
      ensures Valid()
      ensures old(Left()) != [] ==>
        bit >= 0 && msgLen == old(msgLen) && txSignalOn == old(txSignalOn) && [bit == 1] + Left() == old(Left())
      ensures old(Left()) == [] ==>
        bit == END_OF_DATA && !txSignalOn && msgLen == if old(txSignalOn) then 0 else old(msgLen)
    {
      NotEmpty();
      hide CharsLeft;
      if bitNo < c.preambleLen {
        bit := PreambleBit();
      } else if bitNo < c.preambleLen + c.preambleOnesLen {
        bit := 1;
        Head(c.preambleLen + c.preambleOnesLen - bitNo, CharsLeft());
        bitNo := bitNo + 1;
      } else if bitNo <= c.preambleLen + c.preambleOnesLen {
        bit := CharBit();
      } else if bitNo <= c.preambleLen + c.preambleOnesLen + c.postambleOnesLen {
        bit := 1;
        Head(c.preambleLen + c.preambleOnesLen + c.postambleOnesLen + 1 - bitNo, []);
        bitNo := bitNo + 1;
      } else {
        bit := END_OF_DATA;
        if txSignalOn {
          txSignalOn, msgLen := false, 0;
        }
      }
    }

    lemma NotEmpty()
      requires Valid() && msgLen > 0
      ensures Left() == [] <==> bitNo > c.preambleLen + c.preambleOnesLen + c.postambleOnesLen
    {
    }

    method PreambleBit() returns (bit: int)
      requires Valid() && msgLen > 0 && bitNo < c.preambleLen
      modifies `bitNo
      ensures Valid() && 0 <= bit <= 1 && [bit == 1] + Left() == old(Left())
    {
      hide CharsLeft;
      bit := bitNo % 2;
      PreambleStep(c, bitNo, CharsLeft());
      bitNo := bitNo + 1;
    }

    /** A start, data or stop bit of the current character. */
    method CharBit() returns (bit: int)
      requires Valid() && msgLen > 0 && bitNo == c.preambleLen + c.preambleOnesLen
      modifies `bitPos, `byteNo, `bitNo
      ensures Valid() && 0 <= bit <= 1 && [bit == 1] + Left() == old(Left())
    {
      hide CharLeft, Lsb, CharsBits, Ones, Alternating, ShrNat, CharBits;
      CharStep(msg[byteNo], bitPos, c.Stops());
      ghost var tail := CharsBits(msg[byteNo + 1..msgLen], c.Stops()) + Ones(c.postambleOnesLen);
      assert Left() == CharLeft(msg[byteNo], bitPos, c.Stops()) + tail;
      if bitPos == 0 {
        bit := 0;
      } else if bitPos < 1 + 8 {
        bit := ShrNat(msg[byteNo], bitPos - 1) % 2;
      } else {
        bit := 1;
      }
      if bitPos < 1 + 8 || bitPos < 1 + 8 + c.stopBits - 1 {
        bitPos := bitPos + 1;
        assert Left() == CharLeft(msg[byteNo], bitPos, c.Stops()) + tail;
        Associate([bit == 1], CharLeft(msg[byteNo], bitPos, c.Stops()), tail);
      } else {
        NextChar(tail);
      }
    }

    /** Moves on to the next character, or past the last one. */
    method NextChar(ghost tail: seq<bool>)
      requires Valid() && msgLen > 0 && bitNo == c.preambleLen + c.preambleOnesLen
      requires tail == CharsBits(msg[byteNo + 1..msgLen], c.Stops()) + Ones(c.postambleOnesLen)
      modifies `bitPos, `byteNo, `bitNo
      ensures Valid() && Left() == tail
    {
      hide CharBits;
      bitPos := 0;
      byteNo := byteNo + 1;
      if byteNo >= msgLen {
        bitNo := bitNo + 1;
        assert msg[byteNo..msgLen] == [];
        assert tail == Ones(c.postambleOnesLen);
      } else {
        assert msg[byteNo..msgLen][1..] == msg[byteNo + 1..msgLen];
        Associate(CharBits(msg[byteNo], c.Stops()), CharsBits(msg[byteNo + 1..msgLen], c.Stops()),
                  Ones(c.postambleOnesLen));
      }
    }

    /** adsi_tx_put_message for CLASS, CLIP and ACLIP: 0 while busy, -1 if too long, else the length. */
    method PutMessage(m: seq<byte>) returns (result: int)
      requires Valid()
      modifies this, msg
      ensures Valid()
      ensures old(msgLen) > 0 ==> result == 0 && msgLen == old(msgLen) && msg[..] == old(msg[..])
      ensures old(msgLen) == 0 && |m| > 255 ==> result == -1 && msgLen == 0
      ensures old(msgLen) == 0 && |m| <= 255 ==>
        result == |m| && msgLen == |m| + 1 && txSignalOn
        && msg[..msgLen] == Full(m) && Left() == MessageBits(c, Full(m))
    {
      hide Full, CharBits, CharsBits, Alternating, Ones, MessageBits;
      if msgLen > 0 {
        return 0;
      }
      txSignalOn := true;
      if |m| > 255 {
        return -1;
      }
      Fill(m);
      msgLen := |m| + 1;
      byteNo, bitPos, bitNo := 0, 0, 0;
      result := |m|;
      LeftAtStart(c, msg[..msgLen]);
      assert msg[..msgLen][1..] == msg[1..msgLen];
    }

    /** Copies a message, forces its length to be right, and adds the sumcheck. */
    method Fill(m: seq<byte>)
      requires msg.Length == 256 && |m| <= 255
      modifies msg
      ensures msg[..|m| + 1] == Full(m)
    {
      var i := 0;
      while i < |m|
        invariant 0 <= i <= |m| && msg[..i] == m[..i]
      {
        msg[i] := m[i];
        i := i + 1;
      }
      msg[1] := (|m| - 2) % 256;
      var sum: int := 0;
      i := 0;
      assert msg[..|m|] == Forced(m) && msg[..0] == [];
      while i < |m|
        invariant 0 <= i <= |m| && sum == Total(msg[..i]) && msg[..|m|] == Forced(m)
      {
        SumSnoc(msg[..i], msg[i]);
        assert msg[..i + 1] == msg[..i] + [msg[i]];
        sum := sum + msg[i];
        i := i + 1;
      }
      msg[|m|] := (-sum) % 256;
    }

    /** Every bit up to the end of the message. */
    method SendMessage() returns (bits: seq<bool>)
      requires Valid() && msgLen > 0 && txSignalOn
      modifies this
      ensures Valid() && msgLen == 0 && bits == old(Left())
    {
      bits := [];
      ghost var all := Left();
      while msgLen > 0
        invariant Valid() && (msgLen > 0 ==> txSignalOn)
        invariant bits + (if msgLen > 0 then Left() else []) == all
        decreases msgLen > 0, if msgLen > 0 then |Left()| else 0
      {
        hide Left;
        var bit := GetBit();
        if bit >= 0 {
          Associate(bits, [bit == 1], Left());
          bits := bits + [bit == 1];
        }
      }
    }
  }

  lemma Head(n: nat, rest: seq<bool>)
    requires n > 0
    ensures [true] + (Ones(n - 1) + rest) == Ones(n) + rest && [true] + Ones(n - 1) == Ones(n)
    ensures Ones(0) + rest == rest
  {
  }

  lemma PreambleStep(c: Config, n: nat, rest: seq<bool>)
    requires n < c.preambleLen
    ensures var a, ones := Alternating(c.preambleLen), Ones(c.preambleOnesLen) + rest;
      && [n % 2 == 1] + (a[n + 1..] + ones) == a[n..] + ones
      && a[c.preambleLen..] + ones == ones
      && Ones(0) + rest == rest
  {
    var a := Alternating(c.preambleLen);
    assert a[n..] == [a[n]] + a[n + 1..];
  }

  /** The bits of a character, one at a time. */
  lemma CharStep(octet: byte, bitPos: nat, stopBits: nat)
    requires bitPos <= 8 + stopBits && stopBits >= 1
    ensures var left := Transmitter.CharLeft(octet, bitPos, stopBits);
      if bitPos == 0 then left == [false] + Transmitter.CharLeft(octet, 1, stopBits)
      else if bitPos <= 8 then
        left == [ShrNat(octet, bitPos - 1) % 2 == 1] + Transmitter.CharLeft(octet, bitPos + 1, stopBits)
      else if bitPos < 8 + stopBits then left == [true] + Transmitter.CharLeft(octet, bitPos + 1, stopBits)
      else left == [true]
  {
    if 1 <= bitPos <= 8 {
      ShrOnce(octet, bitPos - 1);
      assert Lsb(ShrNat(octet, bitPos - 1), 9 - bitPos)
          == [ShrNat(octet, bitPos - 1) % 2 == 1] + Lsb(ShrNat(octet, bitPos), 8 - bitPos);
      hide ShrNat;
    }
  }

  lemma {:induction false} ShrOnce(x: nat, n: nat)
    ensures ShrNat(x, n + 1) == ShrNat(x, n) / 2
    decreases n
  {
    if n > 0 {
      ShrOnce(x / 2, n - 1);
    }
  }

  lemma SumSnoc(bytes: seq<byte>, x: byte)
    ensures Total(bytes + [x]) == Total(bytes) + x
  {
    assert (bytes + [x])[..|bytes|] == bytes;
  }

  lemma LeftAtStart(c: Config, full: seq<byte>)
    requires full != []
    ensures MessageBits(c, full)
         == Alternating(c.preambleLen)[0..]
            + (Ones(c.preambleOnesLen)
               + (CharBits(full[0], c.Stops()) + (CharsBits(full[1..], c.Stops()) + Ones(c.postambleOnesLen))))
    ensures Ones(0) + (CharBits(full[0], c.Stops()) + (CharsBits(full[1..], c.Stops()) + Ones(c.postambleOnesLen)))
         == CharBits(full[0], c.Stops()) + (CharsBits(full[1..], c.Stops()) + Ones(c.postambleOnesLen))
  {
    hide CharBits, Ones;
    var first, rest, post := CharBits(full[0], c.Stops()), CharsBits(full[1..], c.Stops()), Ones(c.postambleOnesLen);
    assert CharsBits(full, c.Stops()) == first + rest;
    Associate(first, rest, post);
  }

  /** One message, put, sent and received. */
  method ExchangeOne(t: Transmitter, r: Receiver, msg: seq<byte>)
    requires t.Valid() && t.msgLen == 0 && t.c.Clean() && 2 <= |msg| <= 255
    requires r.Valid() && r.State().Resting() && t.msg != r.msg
    modifies t, t.msg, r, r.msg
    ensures t.Valid() && t.msgLen == 0 && r.Valid() && r.State().Resting()
    ensures r.delivered == old(r.delivered) + [Forced(msg)] && r.framingErrors == old(r.framingErrors)
  {
    hide Run, Forced, Full, MessageBits, Config.Clean;
    var _ := t.PutMessage(msg);
    var bits := t.SendMessage();
    MessageArrives(t.c, r.State(), msg);
    r.PutBits(bits);
  }

  /** Messages sent one after another to a receiver: each arrives once, with its length put right. */
  method Exchange(c: Config, msgs: seq<seq<byte>>) returns (delivered: seq<seq<byte>>, framingErrors: nat)
    requires c.Clean() && forall i :: 0 <= i < |msgs| ==> 2 <= |msgs[i]| <= 255
    ensures delivered == AllForced(msgs) && framingErrors == 0
  {
    hide Forced, Config.Clean, AllForced;
    var t := new Transmitter(c);
    var r := new Receiver();
    var i := 0;
    while i < |msgs|
      invariant 0 <= i <= |msgs| && fresh(t) && fresh(t.msg) && fresh(r) && fresh(r.msg) && t.msg != r.msg
      invariant t.Valid() && t.msgLen == 0 && t.c == c && r.Valid() && r.State().Resting()
      invariant r.delivered == AllForced(msgs)[..i] && r.framingErrors == 0
    {
      ExchangeOne(t, r, msgs[i]);
      assert AllForced(msgs)[..i + 1] == AllForced(msgs)[..i] + [Forced(msgs[i])];
      i := i + 1;
    }
    delivered, framingErrors := r.delivered, r.framingErrors;
    assert AllForced(msgs)[..i] == AllForced(msgs);
  }
}
