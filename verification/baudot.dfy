/** The TDD text coding of src/adsi.c: five-bit codes with figure and letter shifts. */
module Baudot {
  import opened Arith
  import AsyncSerial

  const FIGURE_SHIFT: nat := 0x1B
  const LETTER_SHIFT: nat := 0x1F
  const CARET: nat := 94 // '^'

  /** The table of adsi_encode_baudot, by character code; 0xFF where there is no Baudot code. */
  function Conv(ch: nat): nat {
    match ch
    case 0 => 0x00 case 10 => 0x42 case 13 => 0x48 case 32 => 0x44 case 35 => 0x94 case 36 => 0x89
    case 39 => 0x85 case 40 => 0x8F case 41 => 0x92 case 42 => 0x8B case 43 => 0x91 case 44 => 0x8C
    case 45 => 0x83 case 46 => 0x9C case 47 => 0x9D case 48 => 0x96 case 49 => 0x97 case 50 => 0x93
    case 51 => 0x81 case 52 => 0x8A case 53 => 0x90 case 54 => 0x95 case 55 => 0x87 case 56 => 0x86
    case 57 => 0x98 case 58 => 0x8E case 61 => 0x9E case 63 => 0x99 case 65 => 0x03 case 66 => 0x19
    case 67 => 0x0E case 68 => 0x09 case 69 => 0x01 case 70 => 0x0D case 71 => 0x1A case 72 => 0x14
    case 73 => 0x06 case 74 => 0x0B case 75 => 0x0F case 76 => 0x12 case 77 => 0x1C case 78 => 0x0C
    case 79 => 0x18 case 80 => 0x16 case 81 => 0x17 case 82 => 0x0A case 83 => 0x05 case 84 => 0x10
    case 85 => 0x07 case 86 => 0x1E case 87 => 0x13 case 88 => 0x1D case 89 => 0x15 case 90 => 0x11
    case 94 => 0x9B case 97 => 0x03 case 98 => 0x19 case 99 => 0x0E case 100 => 0x09 case 101 => 0x01
    case 102 => 0x0D case 103 => 0x1A case 104 => 0x14 case 105 => 0x06 case 106 => 0x0B case 107 => 0x0F
    case 108 => 0x12 case 109 => 0x1C case 110 => 0x0C case 111 => 0x18 case 112 => 0x16 case 113 => 0x17
    case 114 => 0x0A case 115 => 0x05 case 116 => 0x10 case 117 => 0x07 case 118 => 0x1E case 119 => 0x13
    case 120 => 0x1D case 121 => 0x15 case 122 => 0x11
    case _ => 0xFF
  }

  /** The tables of adsi_decode_baudot, by five-bit code. */
  function Letters(k: nat): nat {
    match k
    case 0 => 0 case 1 => 69 case 2 => 10 case 3 => 65 case 4 => 32 case 5 => 83 case 6 => 73 case 7 => 85
    case 8 => 13 case 9 => 68 case 10 => 82 case 11 => 74 case 12 => 78 case 13 => 70 case 14 => 67 case 15 => 75
    case 16 => 84 case 17 => 90 case 18 => 76 case 19 => 87 case 20 => 72 case 21 => 89 case 22 => 80 case 23 => 81
    case 24 => 79 case 25 => 66 case 26 => 71 case 27 => 94 case 28 => 77 case 29 => 88 case 30 => 86 case 31 => 94
    case _ => 0
  }

  function Figures(k: nat): nat {
    match k
    case 0 => 0 case 1 => 51 case 2 => 10 case 3 => 45 case 4 => 32 case 5 => 39 case 6 => 56 case 7 => 55
    case 8 => 13 case 9 => 36 case 10 => 52 case 11 => 42 case 12 => 44 case 13 => 42 case 14 => 58 case 15 => 40
    case 16 => 53 case 17 => 43 case 18 => 41 case 19 => 50 case 20 => 35 case 21 => 54 case 22 => 48 case 23 => 49
    case 24 => 57 case 25 => 63 case 26 => 42 case 27 => 94 case 28 => 46 case 29 => 47 case 30 => 61 case 31 => 94
    case _ => 0
  }

  /** What a character arrives as: letters in upper case; NUL, '^' and characters without a code do not. */
  function Kept(ch: nat): seq<nat> {
    if ch == 0 || ch == CARET || Conv(ch) == 0xFF then []
    else if 97 <= ch <= 122 then [ch - 32]
    else [ch]
  }

  function AllKept(s: seq<nat>): seq<nat> {
    if s == [] then [] else Kept(s[0]) + AllKept(s[1..])
  }

  /** A code that is the same in both shifts. */
  lemma CommonCodes(ch: nat)
    requires Conv(ch) != 0xFF && (Conv(ch) / 0x40) % 2 == 1
    ensures var k := Conv(ch) % 32;
      0 < k < 32 && k != LETTER_SHIFT && k != FIGURE_SHIFT
      && Letters(k) == Figures(k) == ch && Kept(ch) == [ch] && ch != 0
  {
  }

  /** A code that needs the figure shift; the one of '^' is that of the shift itself. */
  lemma FigureCodes(ch: nat)
    requires Conv(ch) != 0xFF && (Conv(ch) / 0x40) % 2 == 0 && Conv(ch) >= 0x80
    ensures var k := Conv(ch) % 32;
      0 < k < 32 && k != LETTER_SHIFT && (k == FIGURE_SHIFT <==> ch == CARET)
      && (ch != CARET ==> Figures(k) == ch && Kept(ch) == [ch]) && ch != 0
  {
    hide Figures, Kept, Conv;
    FigureRange(ch);
    if ch != CARET {
      FigureDecodes(ch);
      FigureKept(ch);
    }
  }

  lemma FigureRange(ch: nat)
    requires Conv(ch) != 0xFF && (Conv(ch) / 0x40) % 2 == 0 && Conv(ch) >= 0x80
    ensures var k := Conv(ch) % 32; 0 < k < 32 && k != LETTER_SHIFT && (k == FIGURE_SHIFT <==> ch == CARET) && ch != 0
  {
  }

  lemma FigureDecodes(ch: nat)
    requires Conv(ch) != 0xFF && (Conv(ch) / 0x40) % 2 == 0 && Conv(ch) >= 0x80 && ch != CARET
    ensures Figures(Conv(ch) % 32) == ch
  {
  }

  lemma FigureKept(ch: nat)
    requires Conv(ch) != 0xFF && (Conv(ch) / 0x40) % 2 == 0 && Conv(ch) >= 0x80 && ch != CARET
    ensures Kept(ch) == [ch]
  {
  }

  /** Small letters have the codes of the capitals. */
  lemma CaseFolds(ch: nat)
    requires 97 <= ch <= 122
    ensures Conv(ch) == Conv(ch - 32)
  {
  }

  lemma CapitalCodes(ch: nat)
    requires 65 <= ch <= 90
    ensures var k := Conv(ch); 0 < k < 31 && k != FIGURE_SHIFT && Letters(k) == ch
  {
  }

  lemma LetterRange(ch: nat)
    requires (Conv(ch) / 0x40) % 2 == 0 && Conv(ch) < 0x80
    ensures ch == 0 || 65 <= ch <= 90 || 97 <= ch <= 122
  {
  }

  lemma NulCode()
    ensures Conv(0) == 0 && Letters(0) == 0 && Figures(0) == 0
  {
  }

  /** A code that needs the letter shift; NUL has code 0, which is no character. */
  lemma LetterCodes(ch: nat)
    requires (Conv(ch) / 0x40) % 2 == 0 && Conv(ch) < 0x80
    ensures var k := Conv(ch) % 32;
      k < 32 && k != LETTER_SHIFT && k != FIGURE_SHIFT && (k == 0 <==> ch == 0)
      && (ch != 0 ==> Letters(k) != 0 && Kept(ch) == [Letters(k)])
  {
    hide Conv, Letters;
    LetterRange(ch);
    if ch == 0 {
      NulCode();
    } else if ch >= 97 {
      CaseFolds(ch);
      CapitalCodes(ch - 32);
    } else {
      CapitalCodes(ch);
    }
  }

  // ----- coding

  /** adsi_encode_baudot: a shift in bits 5 to 9 if one is needed, and a code; 0 for nothing to send. */
  function Encode(shift: nat, ch: nat): (nat, nat) {
    var c := Conv(ch);
    if c == 0xFF then (0, shift)
    else if (c / 0x40) % 2 == 1 then (c % 32, shift)
    else if c >= 0x80 then if shift == 1 then (c % 32, shift) else (FIGURE_SHIFT * 32 + c % 32, 1)
    else if shift == 0 then (c % 32, shift) else (LETTER_SHIFT * 32 + c % 32, 0)
  }

  /** The codes that adsi_add_field stores for one result of the encoder. */
  function Stored(x: nat): seq<nat> {
    if x == 0 then [] else (if (x / 32) % 32 != 0 then [(x / 32) % 32] else []) + [x % 32]
  }

  function EncodeAll(shift: nat, s: seq<nat>): (seq<nat>, nat)
    decreases |s|
  {
    if s == [] then ([], shift)
    else
      var (x, next) := Encode(shift, s[0]);
      var (codes, last) := EncodeAll(next, s[1..]);
      (Stored(x) + codes, last)
  }

  /** adsi_decode_baudot: a character, or 0 for none. */
  function Decode(shift: nat, code: nat): (nat, nat) {
    if code == FIGURE_SHIFT then (0, 1)
    else if code == LETTER_SHIFT then (0, 0)
    else (if shift == 0 then Letters(code) else Figures(code), shift)
  }

  /** The characters that a receiver keeps of codes. */
  function DecodeAll(shift: nat, codes: seq<nat>): (seq<nat>, nat)
    decreases |codes|
  {
    if codes == [] then ([], shift)
    else
      var (octet, next) := Decode(shift, codes[0]);
      var (rest, last) := DecodeAll(next, codes[1..]);
      (if octet == 0 then rest else [octet] + rest, last)
  }

  lemma {:induction false} DecodeAppend(shift: nat, a: seq<nat>, b: seq<nat>)
    ensures DecodeAll(shift, a + b)
         == (DecodeAll(shift, a).0 + DecodeAll(DecodeAll(shift, a).1, b).0, DecodeAll(DecodeAll(shift, a).1, b).1)
    decreases |a|
  {
    hide Decode;
    if a == [] {
      assert a + b == b;
      assert [] + DecodeAll(shift, b).0 == DecodeAll(shift, b).0;
    } else {
      assert (a + b)[1..] == a[1..] + b;
      var (octet, next) := Decode(shift, a[0]);
      DecodeAppend(next, a[1..], b);
      var mid, last := DecodeAll(next, a[1..]), DecodeAll(DecodeAll(next, a[1..]).1, b);
      assert [octet] + (mid.0 + last.0) == ([octet] + mid.0) + last.0;
    }
  }

  /** The ends agree on the shift, or the transmitter is about to send one whatever comes. */
  predicate Agree(tx: nat, rx: nat) {
    rx <= 1 && (tx == rx || tx == 2)
  }

  lemma DecodeOne(shift: nat, code: nat)
    ensures DecodeAll(shift, [code])
         == (if Decode(shift, code).0 == 0 then [] else [Decode(shift, code).0], Decode(shift, code).1)
  {
    hide Decode;
    assert [code][1..] == [];
    var (octet, next) := Decode(shift, code);
    assert DecodeAll(next, []) == ([], next);
    assert [octet] + [] == [octet];
  }

  /** A shift code produces no character. */
  lemma DecodeShifted(shift: nat, to: nat, code: nat)
    requires to <= 1
    ensures DecodeAll(shift, [if to == 1 then FIGURE_SHIFT else LETTER_SHIFT, code]) == DecodeAll(to, [code])
  {
    var sh := if to == 1 then FIGURE_SHIFT else LETTER_SHIFT;
    assert [sh, code] == [sh] + [code];
    DecodeAppend(shift, [sh], [code]);
    DecodeOne(shift, sh);
    assert [] + DecodeAll(to, [code]).0 == DecodeAll(to, [code]).0;
    hide Letters, Figures, DecodeAll;
  }

  lemma StoredIs(k: nat)
    requires k < 32
    ensures Stored(k) == if k == 0 then [] else [k]
    ensures Stored(FIGURE_SHIFT * 32 + k) == [FIGURE_SHIFT, k] && Stored(LETTER_SHIFT * 32 + k) == [LETTER_SHIFT, k]
  {
    ShiftStored(FIGURE_SHIFT, k);
    ShiftStored(LETTER_SHIFT, k);
  }

  lemma ShiftStored(shift: nat, k: nat)
    requires 0 < shift < 32 && k < 32
    ensures Stored(shift * 32 + k) == [shift, k]
  {
    var x := shift * 32 + k;
    assert x / 32 == shift && x % 32 == k;
  }

  /** A code under the figure shift, sent if need be. */
  lemma FigureArrives(tx: nat, rx: nat, ch: nat)
    requires Agree(tx, rx) && Conv(ch) != 0xFF && (Conv(ch) / 0x40) % 2 == 0 && Conv(ch) >= 0x80
    ensures DecodeAll(rx, Stored(Encode(tx, ch).0)) == (Kept(ch), 1) && Encode(tx, ch).1 == 1
  {
    FigureCodes(ch);
    hide Conv, Letters, Figures, Kept, DecodeAll;
    var k := Conv(ch) % 32;
    DecodeOne(1, k);
    StoredIs(k);
    if tx != 1 {
      DecodeShifted(rx, 1, k);
    }
    CaretKept();
  }

  lemma CaretKept()
    ensures Kept(CARET) == []
  {
  }

  lemma NulKept()
    ensures Kept(0) == []
  {
  }

  lemma LetterArrives(tx: nat, rx: nat, ch: nat)
    requires Agree(tx, rx) && (Conv(ch) / 0x40) % 2 == 0 && Conv(ch) < 0x80
    ensures DecodeAll(rx, Stored(Encode(tx, ch).0)) == (Kept(ch), 0) && Encode(tx, ch).1 == 0
  {
    LetterCodes(ch);
    NulCode();
    NulKept();
    hide Conv, Letters, Figures, Kept;
    var k := Conv(ch) % 32;
    DecodeOne(0, k);
    StoredIs(k);
    if tx != 0 {
      DecodeShifted(rx, 0, k);
    }
  }

  lemma CommonArrives(tx: nat, rx: nat, ch: nat)
    requires Agree(tx, rx) && Conv(ch) != 0xFF && (Conv(ch) / 0x40) % 2 == 1
    ensures DecodeAll(rx, Stored(Encode(tx, ch).0)) == (Kept(ch), rx) && Encode(tx, ch).1 == tx
  {
    CommonCodes(ch);
    StoredIs(Conv(ch) % 32);
    hide Conv, Letters, Figures, Kept, DecodeAll, Stored;
    DecodeOne(rx, Conv(ch) % 32);
  }

  /** One character: it arrives if it has a code, and the ends still agree. */
  lemma CharArrives(tx: nat, rx: nat, ch: nat)
    requires Agree(tx, rx)
    ensures DecodeAll(rx, Stored(Encode(tx, ch).0)).0 == Kept(ch)
    ensures Agree(Encode(tx, ch).1, DecodeAll(rx, Stored(Encode(tx, ch).0)).1)
  {
    var c := Conv(ch);
    hide Conv, Letters, Figures;
    if c == 0xFF {
    } else if (c / 0x40) % 2 == 1 {
      CommonArrives(tx, rx, ch);
    } else if c >= 0x80 {
      FigureArrives(tx, rx, ch);
    } else {
      LetterArrives(tx, rx, ch);
    }
  }

  /**
   * From any shift states that agree, a text arrives in upper case, without NUL, '^' and the characters that have
   * no code; and the shift states agree after it.
   */
  lemma {:induction false} TextArrives(tx: nat, rx: nat, s: seq<nat>)
    requires Agree(tx, rx)
    ensures DecodeAll(rx, EncodeAll(tx, s).0).0 == AllKept(s)
    ensures Agree(EncodeAll(tx, s).1, DecodeAll(rx, EncodeAll(tx, s).0).1)
    decreases |s|
  {
    hide Encode, Decode, Stored, Kept;
    if s == [] {
    } else {
      var (x, next) := Encode(tx, s[0]);
      CharArrives(tx, rx, s[0]);
      DecodeAppend(rx, Stored(x), EncodeAll(next, s[1..]).0);
      TextArrives(next, DecodeAll(rx, Stored(x)).1, s[1..]);
    }
  }

  // ----- over the line

  /** A TDD line: five data bits, no parity, two stop bits. */
  const TDD := AsyncSerial.Config(5, AsyncSerial.NoParity, 2, false)

  predicate FiveBits(codes: seq<nat>) {
    forall i :: 0 <= i < |codes| ==> codes[i] < 32
  }

  lemma {:induction false} EncodedFiveBits(shift: nat, s: seq<nat>)
    ensures FiveBits(EncodeAll(shift, s).0)
    decreases |s|
  {
    hide Encode;
    if s == [] {
    } else {
      EncodedFiveBits(Encode(shift, s[0]).1, s[1..]);
    }
  }

  /** Five-bit codes need no masking. */
  lemma {:induction false} CharactersOf(codes: seq<nat>)
    requires FiveBits(codes)
    ensures AsyncSerial.Answers(codes) && AsyncSerial.Characters(TDD, codes) == codes
    decreases |codes|
  {
    if codes == [] {
    } else {
      assert Pow2(5) == 32;
      LowIdentity(codes[0], 5);
      CharactersOf(codes[1..]);
      assert codes == [codes[0]] + codes[1..];
    }
  }

  /** A text over an idle line: the codes arrive without errors, and decode to the text in upper case. */
  lemma TextOverLine(tx: nat, rx: nat, s: seq<nat>, r: AsyncSerial.Rx)
    requires Agree(tx, rx) && r.bitpos == 0
    ensures var codes := EncodeAll(tx, s).0; var t := AsyncSerial.Run(TDD, r, AsyncSerial.Sent(TDD, codes));
      && t.out == r.out + codes && t.parityErrors == r.parityErrors && t.framingErrors == r.framingErrors
      && DecodeAll(rx, codes).0 == AllKept(s)
  {
    var codes := EncodeAll(tx, s).0;
    EncodedFiveBits(tx, s);
    CharactersOf(codes);
    TextArrives(tx, rx, s);
    var drops := seq(|codes|, _ => false);
    AsyncSerial.SentIsLine(TDD, codes, drops);
    AsyncSerial.RxLine(TDD, r, codes, drops);
    hide AsyncSerial.Line, AsyncSerial.Sent, AsyncSerial.Run, AsyncSerial.Characters, DecodeAll, EncodeAll, AllKept;
  }

  // ----- the two ends

  /** The coding state of an adsi_tx_state_t. */
  class Encoder {
    var baudotShift: nat

    /** start_tx: an explicit shift comes first. */
    constructor ()
      ensures baudotShift == 2
    {
      baudotShift := 2;
    }

    /** adsi_encode_baudot. */
    method EncodeChar(ch: nat) returns (x: nat)
      modifies this
      ensures (x, baudotShift) == Encode(old(baudotShift), ch)
    {
      hide Conv;
      var c := Conv(ch);
      if c == 0xFF {
        return 0;
      }
      if (c / 0x40) % 2 == 1 {
        return c % 32;
      }
      var shift;
      if c >= 0x80 {
        if baudotShift == 1 {
          return c % 32;
        }
        baudotShift := 1;
        shift := FIGURE_SHIFT;
      } else {
        if baudotShift == 0 {
          return c % 32;
        }
        baudotShift := 0;
        shift := LETTER_SHIFT;
      }
      x := shift * 32 + c % 32;
    }

    /** adsi_add_field for TDD, which ignores the field type. */
    method AddField(msg: seq<nat>, body: seq<nat>) returns (out: seq<nat>)
      modifies this
      ensures var (codes, last) := EncodeAll(old(baudotShift), body); out == msg + codes && baudotShift == last
    {
      hide Encode;
      out := msg;
      var i := 0;
      assert body[0..] == body;
      ghost var (all, last) := EncodeAll(baudotShift, body);
      while i < |body|
        invariant 0 <= i <= |body| && last == EncodeAll(baudotShift, body[i..]).1
        invariant msg + all == out + EncodeAll(baudotShift, body[i..]).0
      {
        assert body[i..][1..] == body[i + 1..];
        var x := EncodeChar(body[i]);
        out := out + Stored(x);
        i := i + 1;
      }
    }
  }

  function Flat(blocks: seq<seq<nat>>): seq<nat> {
    if blocks == [] then [] else Flat(blocks[..|blocks| - 1]) + blocks[|blocks| - 1]
  }

  lemma FlatSnoc(blocks: seq<seq<nat>>, block: seq<nat>)
    ensures Flat(blocks + [block]) == Flat(blocks) + block
  {
    assert (blocks + [block])[..|blocks|] == blocks;
  }

  /** The decoding state of an adsi_rx_state_t; its put_msg callback appends to delivered. */
  class Decoder {
    var baudotShift: nat
    var msg: seq<nat>
    var delivered: seq<seq<nat>>

    constructor ()
      ensures baudotShift == 0 && msg == [] && delivered == []
    {
      baudotShift, msg, delivered := 0, [], [];
    }

    /** Everything decoded so far, in blocks of 256 or less. */
    function Text(): seq<nat>
      reads this
    {
      Flat(delivered) + msg
    }

    /** adsi_tdd_put_async_byte for a character. */
    method PutByte(byte: nat)
      requires |msg| < 256
      modifies this
      ensures |msg| < 256
      ensures var (octet, next) := Decode(old(baudotShift), byte % 32);
        baudotShift == next && Text() == old(Text()) + if octet == 0 then [] else [octet]
    {
      hide Decode;
      var (octet, next) := Decode(baudotShift, byte % 32);
      baudotShift := next;
      ghost var flat := Flat(delivered);
      if octet != 0 {
        assert flat + (msg + [octet]) == (flat + msg) + [octet];
        msg := msg + [octet];
      } else {
        assert (flat + msg) + [] == flat + msg;
      }
      if |msg| >= 256 {
        FlatSnoc(delivered, msg);
        delivered := delivered + [msg];
        msg := [];
      }
    }

    /** The end of the carrier delivers what there is. */
    method CarrierDown()
      modifies this
      ensures msg == [] && Flat(delivered) == old(Text()) && baudotShift == old(baudotShift)
    {
      if |msg| > 0 {
        FlatSnoc(delivered, msg);
        delivered := delivered + [msg];
        msg := [];
      }
    }

    method PutAll(codes: seq<nat>)
      requires |msg| < 256 && FiveBits(codes)
      modifies this
      ensures |msg| < 256 && Text() == old(Text()) + DecodeAll(old(baudotShift), codes).0
      ensures baudotShift == DecodeAll(old(baudotShift), codes).1
    {
      hide Decode, Flat;
      var i := 0;
      assert codes[0..] == codes;
      ghost var (all, last) := DecodeAll(baudotShift, codes);
      while i < |codes|
        invariant 0 <= i <= |codes| && |msg| < 256 && last == DecodeAll(baudotShift, codes[i..]).1
        invariant old(Text()) + all == Text() + DecodeAll(baudotShift, codes[i..]).0
      {
        assert codes[i..][1..] == codes[i + 1..];
        PutByte(codes[i]);
        i := i + 1;
      }
    }
  }
}
