/** Start-stop characters of src/async.c: printer, parser, and ITU-T V.14 deletion of stop bits. */
module AsyncSerial {
  import opened Arith
  import opened Bits

  datatype Parity = NoParity | Even | Odd | Mark | Space

  /** What both ends are configured with. */
  datatype Config = Config(dataBits: nat, parity: Parity, stopBits: nat, useV14: bool) {
    /** Data bits, with any parity bit. */
    function Total(): nat {
      dataBits + if parity.NoParity? then 0 else 1
    }

    predicate Valid() {
      5 <= dataBits <= 8 && 1 <= stopBits && Total() + stopBits <= 16
    }
  }

  const CARRIER_DOWN: int := -1
  const CARRIER_UP: int := -2
  const TRAINING_IN_PROGRESS: int := -3
  const TRAINING_SUCCEEDED: int := -4
  const TRAINING_FAILED: int := -5
  const END_OF_DATA: int := -7
  const LINK_IDLE: int := -17

  /** parity8: whether an odd number of the n low bits is set. */
  function OddBits(x: nat, n: nat): bool {
    if n == 0 then false else (x % 2 == 1) != OddBits(x / 2, n - 1)
  }

  /** The parity bit of a character. */
  function ParityBit(parity: Parity, data: nat): nat {
    match parity
    case Even => if OddBits(data, 8) then 1 else 0
    case Odd => if OddBits(data, 8) then 0 else 1
    case Mark => 1
    case _ => 0
  }

  /** The bits of a character that travel between its start and stop bits, as a number. */
  function Packed(c: Config, byte: nat): (f: nat)
    requires c.Valid()
    ensures f < Pow2(c.Total())
  {
    var data := Low(byte, c.dataBits);
    if c.parity.NoParity? then data
    else
      Pow2Fit(data, c.dataBits, ParityBit(c.parity, data), 1);
      data + ParityBit(c.parity, data) * Pow2(c.dataBits)
  }

  /** The characters that a list of answers of the transmitter's get_byte callback asks to be sent. */
  function Characters(c: Config, answers: seq<int>): seq<nat> {
    if answers == [] then []
    else if answers[0] < 0 then Characters(c, answers[1..])
    else [Low(answers[0], c.dataBits)] + Characters(c, answers[1..])
  }

  // ----- the line

  /** The answers are characters, or say that the line idles. */
  predicate Answers(answers: seq<int>) {
    forall i :: 0 <= i < |answers| ==> answers[i] >= 0 || answers[i] == LINK_IDLE
  }

  /** The line after the start bit of its first character; drops selects the stop bits that are deleted. */
  function Tail(c: Config, answers: seq<int>, drops: seq<bool>): seq<bool>
    requires c.Valid() && |drops| == |answers| && answers != [] && answers[0] >= 0
    decreases |answers|, 0
  {
    Lsb(Packed(c, answers[0]), c.Total())
    + ((if drops[0] then [] else Ones(c.stopBits)) + Line(c, answers[1..], drops[1..]))
  }

  /** The line: a bit of idling, or a character, for each answer. */
  function Line(c: Config, answers: seq<int>, drops: seq<bool>): seq<bool>
    requires c.Valid() && |drops| == |answers|
    decreases |answers|, 1
  {
    if answers == [] then []
    else if answers[0] < 0 then [true] + Line(c, answers[1..], drops[1..])
    else [false] + Tail(c, answers, drops)
  }

  /** V.14 deletes only the one stop bit of a character, and only if another start bit follows directly. */
  predicate MayDrop(c: Config, answers: seq<int>, drops: seq<bool>)
    requires |drops| == |answers|
  {
    forall i :: 0 <= i < |drops| && drops[i] ==>
      c.useV14 && c.stopBits == 1 && answers[i] >= 0 && i + 1 < |answers| && answers[i + 1] >= 0
  }

  // ----- the receiver

  /** The changing part of an async_rx_state_t, and what it has delivered. */
  datatype Rx = Rx(frame: nat, bitpos: nat, out: seq<int>, parityErrors: nat, framingErrors: nat) {
    predicate Valid() {
      frame < 0x10000
    }
  }

  /** The character in the register, and whether its parity is right. */
  function Unpacked(c: Config, frame: nat): (nat, bool)
    requires c.Valid()
  {
    if c.parity.NoParity? then (ShrNat(frame, 16 - c.Total()), true)
    else
      var data := ShrNat(frame % 0x8000, 16 - c.Total());
      (data, (frame / 0x8000) % 2 == ParityBit(c.parity, data))
  }

  /** async_rx_put_bit for a data bit. */
  function Step(c: Config, s: Rx, bit: bool): Rx
    requires c.Valid()
  {
    if s.bitpos == 0 then s.(bitpos := if bit then 0 else 1, frame := 0)
    else if s.bitpos <= c.Total() then s.(frame := s.frame / 2 + (if bit then 0x8000 else 0), bitpos := s.bitpos + 1)
    else if !bit && !c.useV14 then s.(framingErrors := s.framingErrors + 1, bitpos := 0)
    else
      var (data, good) := Unpacked(c, s.frame);
      var t := if good then s.(out := s.out + [data]) else s.(parityErrors := s.parityErrors + 1);
      if bit then t.(bitpos := 0, frame := data) else t.(bitpos := 1, frame := 0)
  }

  function Run(c: Config, s: Rx, bits: seq<bool>): Rx
    requires c.Valid()
    decreases |bits|
  {
    if bits == [] then s else Run(c, Step(c, s, bits[0]), bits[1..])
  }

  lemma {:induction false} RunAppend(c: Config, s: Rx, a: seq<bool>, b: seq<bool>)
    requires c.Valid()
    ensures Run(c, s, a + b) == Run(c, Run(c, s, a), b)
    decreases |a|
  {
    hide Step;
    if a == [] {
      assert a + b == b;
    } else {
      assert (a + b)[1..] == a[1..] + b;
      RunAppend(c, Step(c, s, a[0]), a[1..], b);
    }
  }

  /** The character so far is at the top of the register: p from its first k bits, v the n bits still to come. */
  lemma {:induction false} DataBits(c: Config, s: Rx, p: nat, k: nat, v: nat, n: nat)
    requires c.Valid() && k + n == c.Total() && s.bitpos == k + 1 && s.frame == Placed(p, 16 - k)
    ensures Run(c, s, Lsb(v, n))
         == s.(frame := Placed(p + Placed(Low(v, n), k), 16 - c.Total()), bitpos := c.Total() + 1)
    decreases n
  {
    assert c.Total() < 16;
    hide *;
    if n == 0 {
      NoBits(c, s, p, k, v);
    } else {
      var p1 := p + if v % 2 == 1 then Pow2(k) else 0;
      NextDataBit(c, s, p, k, v, n);
      DataBits(c, s.(frame := Placed(p1, 15 - k), bitpos := k + 2), p1, k + 1, v / 2, n - 1);
      LowStep(p, k, v, n);
    }
  }

  lemma NextDataBit(c: Config, s: Rx, p: nat, k: nat, v: nat, n: nat)
    requires c.Valid() && k + n == c.Total() < 16 && n > 0 && s.bitpos == k + 1 && s.frame == Placed(p, 16 - k)
    ensures Run(c, s, Lsb(v, n))
         == Run(c, s.(frame := Placed(p + if v % 2 == 1 then Pow2(k) else 0, 15 - k), bitpos := k + 2),
                Lsb(v / 2, n - 1))
  {
    hide *;
    DataBit(c, s, v, n);
    Pow2Of15();
    ShiftIn(p, k, v % 2 == 1, 16);
  }

  lemma NoBits(c: Config, s: Rx, p: nat, k: nat, v: nat)
    requires c.Valid()
    ensures Run(c, s, Lsb(v, 0)) == s && p + Placed(Low(v, 0), k) == p
  {
    PlacedPow2(0, k);
    hide Step, Placed;
  }

  lemma DataBit(c: Config, s: Rx, v: nat, n: nat)
    requires c.Valid() && 1 <= s.bitpos <= c.Total() && n > 0
    ensures Run(c, s, Lsb(v, n))
         == Run(c, s.(frame := s.frame / 2 + (if v % 2 == 1 then 0x8000 else 0), bitpos := s.bitpos + 1),
                Lsb(v / 2, n - 1))
  {
    hide Unpacked;
    assert Lsb(v, n)[1..] == Lsb(v / 2, n - 1);
  }

  lemma Pow2Of15()
    ensures Pow2(15) == 0x8000
  {
    assert Pow2(5) == 32;
    assert Pow2(10) == 1024;
    assert Pow2(15) == 32768;
  }

  /** What the receiver takes out of the register is what the transmitter put in. */
  lemma Unpacks(c: Config, byte: nat)
    requires c.Valid()
    ensures Unpacked(c, Placed(Packed(c, byte), 16 - c.Total())) == (Low(byte, c.dataBits), true)
  {
    if c.parity.NoParity? {
      PlacedShr(Low(byte, c.dataBits), 16 - c.Total());
      hide Low, Pow2, Placed;
    } else {
      UnpacksWithParity(c, byte);
    }
  }

  lemma UnpacksWithParity(c: Config, byte: nat)
    requires c.Valid() && !c.parity.NoParity?
    ensures Unpacked(c, Placed(Packed(c, byte), 16 - c.Total())) == (Low(byte, c.dataBits), true)
  {
    var n, data := c.dataBits, Low(byte, c.dataBits);
    var parity := ParityBit(c.parity, data);
    assert n <= 8 && c.Total() == n + 1;
    hide *;
    PackedParity(c, byte);
    PlacedParity(data, parity, n, Packed(c, byte));
    PlacedShr(data, 15 - n);
    UnpacksParity(c, Placed(data, 15 - n), parity);
  }

  lemma PlacedParity(data: nat, parity: nat, n: nat, packed: nat)
    requires n <= 15 && data < Pow2(n) && parity < 2 && packed == data + if parity == 1 then Pow2(n) else 0
    ensures Placed(data, 15 - n) < 0x8000 && Placed(packed, 15 - n) == Placed(data, 15 - n) + parity * 0x8000
  {
    hide *;
    Pow2Of15();
    PlacedSum(data, if parity == 1 then Pow2(n) else 0, 15 - n);
    PlacedPow2(n, 15 - n);
    PlacedBound(data, n, 15 - n);
  }

  lemma PackedParity(c: Config, byte: nat)
    requires c.Valid() && !c.parity.NoParity?
    ensures var data := Low(byte, c.dataBits); var parity := ParityBit(c.parity, data);
      parity < 2 && Packed(c, byte) == data + (if parity == 1 then Pow2(c.dataBits) else 0)
  {
    hide Low, Pow2, OddBits;
  }

  /** The register d + parity * 0x8000 holds a parity bit above the data. */
  lemma UnpacksParity(c: Config, d: nat, parity: nat)
    requires c.Valid() && !c.parity.NoParity? && d < 0x8000 && parity < 2
    ensures var data := ShrNat(d, 15 - c.dataBits);
      Unpacked(c, d + parity * 0x8000) == (data, parity == ParityBit(c.parity, data))
  {
    TopBit(d, parity);
    hide ShrNat, ParityBit;
  }

  lemma TopBit(d: nat, parity: nat)
    requires d < 0x8000 && parity < 2
    ensures (d + parity * 0x8000) % 0x8000 == d && ((d + parity * 0x8000) / 0x8000) % 2 == parity
  {
    if parity == 0 {
    } else {
      assert d + parity * 0x8000 == d + 0x8000;
    }
  }

  /** The bit after the data bits delivers the character: a stop bit, or with V.14 the next start bit. */
  lemma Delivers(c: Config, s: Rx, byte: nat, bit: bool)
    requires c.Valid() && s.bitpos == c.Total() + 1 && s.frame == Placed(Packed(c, byte), 16 - c.Total())
    requires bit || c.useV14
    ensures var t := Step(c, s, bit);
      && t.out == s.out + [Low(byte, c.dataBits)]
      && t.parityErrors == s.parityErrors && t.framingErrors == s.framingErrors
      && t.bitpos == (if bit then 0 else 1) && (!bit ==> t.frame == 0)
  {
    Unpacks(c, byte);
    hide Unpacked, Packed, Pow2;
  }

  // ----- parity

  /** What a parity promises of the data bits and the parity bit after them. */
  predicate InParity(parity: Parity, bits: seq<bool>)
    requires bits != []
  {
    match parity
    case NoParity => true
    case Even => Weight(bits) % 2 == 0
    case Odd => Weight(bits) % 2 == 1
    case Mark => bits[|bits| - 1]
    case Space => !bits[|bits| - 1]
  }

  lemma {:induction false} OddBitsIs(x: nat, n: nat)
    ensures OddBits(x, n) <==> Weight(Lsb(x, n)) % 2 == 1
  {
    if n > 0 {
      OddBitsIs(x / 2, n - 1);
      WeightOf([x % 2 == 1], Lsb(x / 2, n - 1));
      OneBit(x % 2 == 1);
    }
  }

  lemma OneBit(bit: bool)
    ensures Weight([bit]) == if bit then 1 else 0
  {
    WeightSnoc([], bit);
    assert [] + [bit] == [bit];
  }

  lemma {:induction false} NoWeight(n: nat)
    ensures Weight(Lsb(0, n)) == 0
  {
    if n > 0 {
      NoWeight(n - 1);
      WeightOf([false], Lsb(0, n - 1));
      OneBit(false);
    }
  }

  /** A parity bit is right just when it puts the character in parity. */
  lemma RightParity(parity: Parity, data: nat, n: nat, q: nat)
    requires !parity.NoParity? && n <= 8 && data < Pow2(n) && q < 2
    ensures q == ParityBit(parity, data) <==> InParity(parity, Lsb(data, n) + [q == 1])
  {
    hide Lsb, Pow2, OddBits, Weight;
    WeightSnoc(Lsb(data, n), q == 1);
    OddBitsIs(data, 8);
    assert Weight(Lsb(data, 8)) == Weight(Lsb(data, n)) by {
      assert data + 0 * Pow2(n) == data;
      LsbAppend(data, n, 0, 8 - n);
      WeightOf(Lsb(data, n), Lsb(0, 8 - n));
      NoWeight(8 - n);
    }
  }

  lemma ChecksParity(c: Config, f: nat)
    requires c.Valid() && f < Pow2(c.Total())
    ensures Unpacked(c, Placed(f, 16 - c.Total())) == (Low(f, c.dataBits), InParity(c.parity, Lsb(f, c.Total())))
  {
    hide Lsb, Pow2, Low, Placed, ShrNat, InParity, Unpacked;
    var n := c.dataBits;
    if c.parity.NoParity? {
      PlacedShr(f, 16 - n);
      LowIdentity(f, n);
      Unchecked(c, f);
    } else {
      var data, q := Low(f, n), Shr(f, n);
      SplitParity(f, n);
      LsbAppend(data, n, q, 1);
      OneLsb(q);
      PlacedParity(data, q, n, f);
      PlacedShr(data, 15 - n);
      UnpacksParity(c, Placed(data, 15 - n), q);
      RightParity(c.parity, data, n, q);
    }
  }

  lemma Unchecked(c: Config, f: nat)
    requires c.Valid() && c.parity.NoParity? && ShrNat(Placed(f, 16 - c.dataBits), 16 - c.dataBits) == f
    ensures Unpacked(c, Placed(f, 16 - c.Total())) == (f, InParity(c.parity, Lsb(f, c.Total())))
  {
    hide ShrNat, Placed, Lsb;
  }

  lemma OneLsb(q: nat)
    requires q < 2
    ensures Lsb(q, 1) == [q == 1]
  {
  }

  lemma SplitParity(f: nat, n: nat)
    requires f < Pow2(n + 1)
    ensures 0 <= Shr(f, n) < 2 && Low(f, n) < Pow2(n) && f == Low(f, n) + Shr(f, n) * Pow2(n)
    ensures Shr(f, n) == 0 || Shr(f, n) == 1
    ensures f == Low(f, n) + if Shr(f, n) == 1 then Pow2(n) else 0
  {
    hide Shr, Low;
    ShrLow(f, n);
    ShrRange(f, n, 1);
  }

  /**
   * Whatever bits follow a start bit: with a stop bit behind them, the character is delivered if they are in parity,
   * and is counted as a parity error if they are not.
   */
  lemma DeliversInParity(c: Config, s: Rx, f: nat)
    requires c.Valid() && s.bitpos == 1 && s.frame == 0 && f < Pow2(c.Total())
    ensures var t := Run(c, s, Lsb(f, c.Total()) + [true]);
      && t.bitpos == 0 && t.framingErrors == s.framingErrors
      && if InParity(c.parity, Lsb(f, c.Total()))
         then t.out == s.out + [Low(f, c.dataBits)] && t.parityErrors == s.parityErrors
         else t.out == s.out && t.parityErrors == s.parityErrors + 1
  {
    hide Pow2, Lsb, Low, Placed, Unpacked, InParity, Run;
    var n := c.Total();
    var u := s.(frame := Placed(f, 16 - n), bitpos := n + 1);
    OneTimes(f);
    DataBits(c, s, 0, 0, f, n);
    LowIdentity(f, n);
    RunAppend(c, s, Lsb(f, n), [true]);
    StepRun(c, u, true);
    ChecksParity(c, f);
  }

  lemma StepRun(c: Config, s: Rx, bit: bool)
    requires c.Valid()
    ensures Run(c, s, [bit]) == Step(c, s, bit)
  {
    hide Step;
    assert [bit][1..] == [];
  }

  /** The transmitter's characters are in parity, */
  lemma SentInParity(c: Config, byte: nat)
    requires c.Valid()
    ensures InParity(c.parity, Lsb(Packed(c, byte), c.Total()))
  {
    hide Pow2, Lsb, Low, Placed, Unpacked, InParity, Packed;
    ChecksParity(c, Packed(c, byte));
    Unpacks(c, byte);
  }

  /** and with even or odd parity a character with one bit inverted is not. */
  lemma OneErrorIsNoticed(parity: Parity, bits: seq<bool>, k: nat)
    requires k < |bits| && (parity.Even? || parity.Odd?)
    ensures InParity(parity, bits[k := !bits[k]]) != InParity(parity, bits)
  {
    hide Weight;
    var a, b := bits[..k], bits[k + 1..];
    assert bits == (a + [bits[k]]) + b && bits[k := !bits[k]] == (a + [!bits[k]]) + b;
    WeightOf(a + [bits[k]], b);
    WeightOf(a + [!bits[k]], b);
    WeightSnoc(a, bits[k]);
    WeightSnoc(a, !bits[k]);
  }

  lemma {:induction false} Idles(c: Config, s: Rx, n: nat)
    requires c.Valid() && s.bitpos == 0
    ensures var t := Run(c, s, Ones(n)); t == s.(frame := t.frame)
    decreases n
  {
    if n > 0 {
      assert Ones(n)[1..] == Ones(n - 1);
      Idles(c, Step(c, s, true), n - 1);
    }
  }

  /** The receiver has delivered the characters, without errors. */
  predicate Delivered(c: Config, s: Rx, t: Rx, answers: seq<int>) {
    && t.out == s.out + Characters(c, answers)
    && t.parityErrors == s.parityErrors && t.framingErrors == s.framingErrors
    && t.bitpos == 0
  }

  /** The data bits bring the receiver to the bit that delivers the character. */
  lemma FieldRun(c: Config, s: Rx, byte: nat, rest: seq<bool>)
    requires c.Valid() && s.bitpos == 1 && s.frame == 0
    ensures Run(c, s, Lsb(Packed(c, byte), c.Total()) + rest)
         == Run(c, s.(frame := Placed(Packed(c, byte), 16 - c.Total()), bitpos := c.Total() + 1), rest)
  {
    hide Step, Packed, Pow2, Lsb, Low, Placed, Run;
    var f := Packed(c, byte);
    OneTimes(f);
    DataBits(c, s, 0, 0, f, c.Total());
    LowIdentity(f, c.Total());
    RunAppend(c, s, Lsb(f, c.Total()), rest);
  }

  lemma RestOfLine(c: Config, answers: seq<int>, drops: seq<bool>)
    requires Answers(answers) && |drops| == |answers| && MayDrop(c, answers, drops) && answers != []
    ensures Answers(answers[1..]) && MayDrop(c, answers[1..], drops[1..])
    ensures drops[0] ==> c.useV14 && |answers| > 1 && answers[1] >= 0
  {
  }

  /** From just after a start bit: the character, its stop bits or the next start bit, and the rest of the line. */
  lemma {:induction false} RxTail(c: Config, s: Rx, answers: seq<int>, drops: seq<bool>)
    requires c.Valid() && Answers(answers) && |drops| == |answers| && MayDrop(c, answers, drops)
    requires answers != [] && answers[0] >= 0 && s.bitpos == 1 && s.frame == 0
    ensures Delivered(c, s, Run(c, s, Tail(c, answers, drops)), answers)
    decreases |answers|, 0
  {
    hide Step, Packed, Pow2, Lsb, Low, Placed, Run, Line, Answers, MayDrop, Characters, Delivered;
    var rest := Line(c, answers[1..], drops[1..]);
    var t := s.(frame := Placed(Packed(c, answers[0]), 16 - c.Total()), bitpos := c.Total() + 1);
    FieldRun(c, s, answers[0], (if drops[0] then [] else Ones(c.stopBits)) + rest);
    RestOfLine(c, answers, drops);
    Delivers(c, t, answers[0], !drops[0]);
    if drops[0] {
      StartBit(c, t, answers[1..], drops[1..]);
      assert [] + rest == rest;
      var u := Step(c, t, false);
      RxTail(c, u, answers[1..], drops[1..]);
      DeliveredRest(c, s, u, Run(c, t, rest), answers);
    } else {
      StopBits(c, t, c.stopBits, rest);
      var u := Run(c, Step(c, t, true), Ones(c.stopBits - 1));
      RxLine(c, u, answers[1..], drops[1..]);
      DeliveredRest(c, s, u, Run(c, u, rest), answers);
    }
  }

  /** One character, and then the others. */
  lemma DeliveredRest(c: Config, s: Rx, u: Rx, v: Rx, answers: seq<int>)
    requires answers != [] && answers[0] >= 0 && Delivered(c, u, v, answers[1..])
    requires u.out == s.out + [Low(answers[0], c.dataBits)]
    requires u.parityErrors == s.parityErrors && u.framingErrors == s.framingErrors
    ensures Delivered(c, s, v, answers)
  {
    hide Low;
  }

  lemma StartBit(c: Config, t: Rx, answers: seq<int>, drops: seq<bool>)
    requires c.Valid() && |drops| == |answers| && answers != [] && answers[0] >= 0
    ensures Run(c, t, Line(c, answers, drops)) == Run(c, Step(c, t, false), Tail(c, answers, drops))
  {
    hide Step, Tail;
    assert Line(c, answers, drops)[1..] == Tail(c, answers, drops);
  }

  lemma StopBits(c: Config, t: Rx, n: nat, rest: seq<bool>)
    requires c.Valid() && n > 0 && Step(c, t, true).bitpos == 0
    ensures var u := Step(c, t, true);
      && Run(c, u, Ones(n - 1)) == u.(frame := Run(c, u, Ones(n - 1)).frame)
      && Run(c, t, Ones(n) + rest) == Run(c, Run(c, u, Ones(n - 1)), rest)
  {
    hide Step;
    assert Ones(n)[1..] == Ones(n - 1);
    Idles(c, Step(c, t, true), n - 1);
    RunAppend(c, t, Ones(n), rest);
  }

  lemma OneTimes(f: nat)
    ensures Placed(f, 0) == f && Placed(0, 16) == 0
  {
    PlacedPow2(0, 16);
  }

  /**
   * An idle receiver delivers exactly the masked characters sent, in order and without errors, whatever the parity
   * and the idling between them, and with V.14 whichever deletable stop bits are deleted.
   */
  lemma {:induction false} RxLine(c: Config, s: Rx, answers: seq<int>, drops: seq<bool>)
    requires c.Valid() && Answers(answers) && |drops| == |answers| && MayDrop(c, answers, drops)
    requires s.bitpos == 0
    ensures Delivered(c, s, Run(c, s, Line(c, answers, drops)), answers)
    decreases |answers|, 1
  {
    hide Packed, Pow2, Lsb, Low, Unpacked;
    var line := Line(c, answers, drops);
    if answers == [] {
      assert s.out + [] == s.out;
    } else if answers[0] < 0 {
      assert line[1..] == Line(c, answers[1..], drops[1..]);
      RxLine(c, Step(c, s, true), answers[1..], drops[1..]);
    } else {
      assert line[1..] == Tail(c, answers, drops);
      RxTail(c, Step(c, s, false), answers, drops);
    }
  }

  /** An async_rx_state_t; its put_byte callback appends to delivered. */
  class Receiver {
    const c: Config
    var frame: nat
    var bitpos: nat
    var parityErrors: nat
    var framingErrors: nat
    var delivered: seq<int>

    function State(): Rx
      reads this
    {
      Rx(frame, bitpos, delivered, parityErrors, framingErrors)
    }

    /** async_rx_init. */
    constructor (c: Config)
      ensures this.c == c && State() == Rx(0, 0, [], 0, 0)
    {
      this.c := c;
      frame, bitpos, parityErrors, framingErrors, delivered := 0, 0, 0, 0, [];
    }

    /** async_rx_put_bit: a data bit, or a negative status, of which only some are passed on. */
    method PutBit(bit: int)
      requires c.Valid() && bit <= 1
      modifies this
      ensures bit >= 0 ==> State() == Step(c, old(State()), bit == 1)
      ensures bit in {CARRIER_UP, CARRIER_DOWN, TRAINING_IN_PROGRESS, TRAINING_SUCCEEDED, TRAINING_FAILED, END_OF_DATA}
        ==> State() == old(State()).(out := old(delivered) + [bit], bitpos := 0, frame := 0)
      ensures bit < 0 && bit !in {CARRIER_UP, CARRIER_DOWN,
                                  TRAINING_IN_PROGRESS, TRAINING_SUCCEEDED, TRAINING_FAILED, END_OF_DATA}
        ==> State() == old(State())
    {
      hide Config.Valid, Pow2, ParityBit;
      if bit < 0 {
        if bit in {CARRIER_UP, CARRIER_DOWN, TRAINING_IN_PROGRESS, TRAINING_SUCCEEDED, TRAINING_FAILED, END_OF_DATA} {
          delivered := delivered + [bit];
          bitpos, frame := 0, 0;
        }
      } else if bitpos == 0 {
        bitpos := bitpos + 1 - bit;
        frame := 0;
      } else if bitpos <= c.Total() {
        frame := frame / 2 + bit * 0x8000;
        bitpos := bitpos + 1;
      } else if bit == 0 && !c.useV14 {
        framingErrors := framingErrors + 1;
        bitpos := 0;
      } else {
        Character();
        if bit == 1 {
          bitpos := 0;
        } else {
          bitpos, frame := 1, 0;
        }
      }
    }

    /** Checks and removes any parity bit, and delivers the character if it is right. */
    method Character()
      requires c.Valid()
      modifies `frame, `delivered, `parityErrors
      ensures var (data, good) := Unpacked(c, old(frame));
        && frame == data
        && delivered == old(delivered) + (if good then [data] else [])
        && parityErrors == old(parityErrors) + (if good then 0 else 1)
    {
      hide Pow2, ShrNat;
      if !c.parity.NoParity? {
        var parityBitA := (frame / 0x8000) % 2;
        frame := ShrNat(frame % 0x8000, 16 - c.Total());
        var parityBitB := ParityBit(c.parity, frame);
        if parityBitA == parityBitB {
          delivered := delivered + [frame];
        } else {
          parityErrors := parityErrors + 1;
        }
      } else {
        frame := ShrNat(frame, 16 - c.Total());
        delivered := delivered + [frame];
      }
    }
  }

  // ----- the transmitter

  /** All ones above the data and parity bits: 0xFFFF << total_data_bits in 16 bits, without its low zeros. */
  function StopField(c: Config): nat
    requires c.Valid()
  {
    Pow2(16 - c.Total()) - 1
  }

  /** The register of a character: its low bits are the data, any parity bit, and the stop bits. */
  lemma FrameBits(c: Config, byte: nat)
    requires c.Valid()
    ensures Lsb(Packed(c, byte) + StopField(c) * Pow2(c.Total()), c.Total() + c.stopBits)
         == Lsb(Packed(c, byte), c.Total()) + Ones(c.stopBits)
  {
    hide Packed, Lsb, Ones, Pow2;
    LsbAppend(Packed(c, byte), c.Total(), StopField(c), c.stopBits);
    AllOnes(16 - c.Total(), c.stopBits);
  }

  /** The line that the transmitter produces: nothing is deleted. */
  function Sent(c: Config, answers: seq<int>): seq<bool>
    requires c.Valid()
  {
    if answers == [] then []
    else if answers[0] < 0 then [true] + Sent(c, answers[1..])
    else [false] + (Lsb(Packed(c, answers[0]), c.Total()) + Ones(c.stopBits)) + Sent(c, answers[1..])
  }

  lemma {:induction false} SentIsLine(c: Config, answers: seq<int>, drops: seq<bool>)
    requires c.Valid() && |drops| == |answers| && forall i :: 0 <= i < |drops| ==> !drops[i]
    ensures Sent(c, answers) == Line(c, answers, drops)
    decreases |answers|
  {
    hide Packed, Lsb;
    if answers != [] {
      SentIsLine(c, answers[1..], drops[1..]);
      if answers[0] >= 0 {
        var a, b, r := Lsb(Packed(c, answers[0]), c.Total()), Ones(c.stopBits), Sent(c, answers[1..]);
        assert [false] + (a + b) + r == [false] + (a + (b + r));
      }
    }
  }

  lemma PackedByOr(c: Config, byte: nat)
    requires c.Valid()
    ensures var data := Low(byte, c.dataBits);
      Packed(c, byte) == if c.parity.NoParity? then data else Or(data, ParityBit(c.parity, data) * Pow2(c.dataBits))
  {
    var data := Low(byte, c.dataBits);
    OrDisjoint(data, ParityBit(c.parity, data), c.dataBits);
    hide Or, Low, Pow2, ParityBit;
  }

  /** An async_tx_state_t. */
  class Transmitter {
    const c: Config
    var frame: nat
    var bitpos: nat
    var presendBits: nat

    /** async_tx_init. */
    constructor (c: Config)
      ensures this.c == c && bitpos == 0 && presendBits == 0
    {
      this.c := c;
      frame, bitpos, presendBits := 0, 0, 0;
    }

    /** The bits of the current character that are still to be sent. */
    function Left(): seq<bool>
      requires c.Valid() && bitpos <= c.Total() + c.stopBits
      reads this
    {
      if bitpos == 0 then [] else Lsb(frame, c.Total() + c.stopBits + 1 - bitpos)
    }

    /** async_tx_presend_bits. */
    method Presend(bits: nat)
      modifies `presendBits
      ensures presendBits == bits
    {
      presendBits := bits;
    }

    /** async_tx_get_bit; answer is what the get_byte callback says, if it is asked. */
    method GetBit(answer: int) returns (bit: int, asked: bool)
      requires c.Valid() && bitpos <= c.Total() + c.stopBits
      modifies this
      ensures bitpos <= c.Total() + c.stopBits
      ensures asked == (old(bitpos) == 0 && old(presendBits) == 0)
      ensures old(bitpos) != 0 ==> presendBits == old(presendBits) && bit >= 0 && [bit == 1] + Left() == old(Left())
      ensures old(bitpos) == 0 && !asked ==> bit == 1 && presendBits == old(presendBits) - 1 && Left() == []
      ensures asked && answer == LINK_IDLE ==> bit == 1 && Left() == [] && presendBits == 0
      ensures asked && answer < 0 && answer != LINK_IDLE ==> bit == answer && Left() == [] && presendBits == 0
      ensures asked && answer >= 0 ==>
        bit == 0 && bitpos != 0 && presendBits == 0 && Left() == Lsb(Packed(c, answer), c.Total()) + Ones(c.stopBits)
    {
      asked := false;
      if bitpos == 0 {
        if presendBits > 0 {
          presendBits := presendBits - 1;
          return 1, false;
        }
        asked := true;
        if answer < 0 {
          bit := if answer != LINK_IDLE then answer else 1;
          return;
        }
        Load(answer);
        bit := 0;
        bitpos := bitpos + 1;
      } else {
        hide Pow2, Packed, StopField;
        bit := frame % 2;
        frame := frame / 2;
        bitpos := bitpos + 1;
        if bitpos > c.Total() + c.stopBits {
          bitpos := 0;
        }
      }
    }

    /** Puts a character, with its parity and stop bits, into the register. */
    method Load(byte: nat)
      requires c.Valid()
      modifies `frame
      ensures Lsb(frame, c.Total() + c.stopBits) == Lsb(Packed(c, byte), c.Total()) + Ones(c.stopBits)
    {
      hide Low, Pow2, OddBits, Or, Lsb, Packed;
      frame := Low(byte, c.dataBits);
      var parity := ParityBit(c.parity, frame);
      PackedByOr(c, byte);
      match c.parity {
        case NoParity =>
        case _ => frame := Or(frame, parity * Pow2(c.dataBits));
      }
      OrDisjoint(frame, StopField(c), c.Total());
      frame := Or(frame, StopField(c) * Pow2(c.Total()));
      FrameBits(c, byte);
    }

    /** Every bit of the line for a list of answers. */
    method SendAll(answers: seq<int>) returns (bits: seq<bool>)
      requires c.Valid() && Answers(answers) && bitpos == 0 && presendBits == 0
      modifies this
      ensures bitpos == 0 && presendBits == 0 && bits == Sent(c, answers)
    {
      hide Packed, Pow2, Lsb;
      bits := [];
      var i := 0;
      while i < |answers|
        invariant 0 <= i <= |answers| && bitpos == 0 && presendBits == 0
        invariant Sent(c, answers) == bits + Sent(c, answers[i..])
      {
        assert answers[i..][1..] == answers[i + 1..];
        var more := SendOne(answers[i]);
        Associate(bits, more, Sent(c, answers[i + 1..]));
        bits := bits + more;
        i := i + 1;
      }
    }

    /** The bit of an idle line, or all the bits of a character. */
    method SendOne(answer: int) returns (bits: seq<bool>)
      requires c.Valid() && (answer >= 0 || answer == LINK_IDLE) && bitpos == 0 && presendBits == 0
      modifies this
      ensures bitpos == 0 && presendBits == 0
      ensures bits == if answer < 0 then [true] else [false] + (Lsb(Packed(c, answer), c.Total()) + Ones(c.stopBits))
    {
      hide Packed, Pow2, Lsb;
      var bit, asked := GetBit(answer);
      bits := SendLeft();
      bits := [bit == 1] + bits;
    }

    /** The rest of a character. */
    method SendLeft() returns (bits: seq<bool>)
      requires c.Valid() && bitpos <= c.Total() + c.stopBits
      modifies this
      ensures bitpos == 0 && presendBits == old(presendBits) && bits == old(Left())
    {
      hide Packed, Pow2, Lsb;
      bits := [];
      while bitpos != 0
        invariant bitpos <= c.Total() + c.stopBits && presendBits == old(presendBits)
        invariant bits + Left() == old(Left())
        decreases |Left()|
      {
        var bit, asked := GetBit(0);
        Associate(bits, [bit == 1], Left());
        bits := bits + [bit == 1];
      }
    }
  }

  /** Any line with deletions, fed to a receiver bit by bit. */
  method ReceiveAll(r: Receiver, bits: seq<bool>)
    requires r.c.Valid()
    modifies r
    ensures r.State() == Run(r.c, old(r.State()), bits)
  {
    hide Step;
    var i := 0;
    assert bits[0..] == bits;
    while i < |bits|
      invariant 0 <= i <= |bits|
      invariant Run(r.c, r.State(), bits[i..]) == Run(r.c, old(r.State()), bits)
    {
      assert bits[i..][1..] == bits[i + 1..];
      r.PutBit(if bits[i] then 1 else 0);
      i := i + 1;
    }
  }

  /** Sent without deletions and received: the masked characters arrive, with no errors. */
  method RoundTrip(c: Config, answers: seq<int>) returns (delivered: seq<int>, errors: nat)
    requires c.Valid() && Answers(answers)
    ensures delivered == Characters(c, answers) && errors == 0
  {
    var t := new Transmitter(c);
    var bits := t.SendAll(answers);
    var r := new Receiver(c);
    ghost var drops := seq(|answers|, _ => false);
    SentIsLine(c, answers, drops);
    RxLine(c, r.State(), answers, drops);
    ReceiveAll(r, bits);
    hide Line, Sent, Run, Packed;
    delivered, errors := r.delivered, r.parityErrors + r.framingErrors;
  }
}
