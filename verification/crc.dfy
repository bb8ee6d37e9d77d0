/** The two ITU CRCs of src/crc.c: table-driven calculation, append, check and burst detection. */
module ItuCrc {

  type Octet = bv8
  type Register = bv32 // a 16-bit register is its low half

  const OCTET: nat := 8

  datatype Generator = Itu16 | Itu32 {
    /** The generator without its top term, reflected. */
    function Taps(): Register {
      match this case Itu16 => 0x8408 case Itu32 => 0xEDB88320
    }

    function Width(): nat {
      match this case Itu16 => 16 case Itu32 => 32
    }

    function Ones(): Register {
      match this case Itu16 => 0xFFFF case Itu32 => 0xFFFF_FFFF
    }

    /** The octets that append adds. */
    function Octets(): nat {
      match this case Itu16 => 2 case Itu32 => 4
    }

    /** The register after a good frame. */
    function Residue(): Register {
      match this case Itu16 => 0xF0B8 case Itu32 => 0xDEBB20E3
    }
  }

  /** One shift of the register, with the generator fed back. */
  function Shift(g: Generator, c: Register): Register {
    (c >> 1) ^ Tap(g, c)
  }

  function Tap(g: Generator, c: Register): Register {
    if c & 1 == 1 then g.Taps() else 0
  }

  /** A register value, wrapped so that proofs about bit strings need no word arithmetic. */
  datatype Word = Word(v: Register)

  function Xor(a: Word, b: Word): Word {
    Word(XorValues(a.v, b.v))
  }

  function XorValues(a: Register, b: Register): Register {
    a ^ b
  }

  function Bit(b: bool): Word {
    Word(if b then 1 else 0)
  }

  /** The register after a zero bit, after any bit, and after n zero bits. */
  function Zero(g: Generator, c: Word): Word {
    Word(Shift(g, c.v))
  }

  function Step(g: Generator, c: Word, bit: bool): Word {
    Zero(g, Xor(c, Bit(bit)))
  }

  function ZeroN(g: Generator, c: Word, n: nat): Word
    decreases n
  {
    if n == 0 then c else ZeroN(g, Zero(g, c), n - 1)
  }

  /** The bit-serial CRC: the meaning of every calculation below. */
  function Feed(g: Generator, c: Word, bits: seq<bool>): Word
    decreases |bits|
  {
    if bits == [] then c else Feed(g, Step(g, c, bits[0]), bits[1..])
  }

  predicate Odd(b: Octet) {
    b & 1 == 1
  }

  function Half(b: Octet): Octet {
    b >> 1
  }

  /** The low n bits of an octet, in the order they are sent. */
  function BitsOf(b: Octet, n: nat): (s: seq<bool>)
    ensures |s| == n
    decreases n
  {
    if n == 0 then [] else [Odd(b)] + BitsOf(Half(b), n - 1)
  }

  function OctetsBits(octets: seq<Octet>): (s: seq<bool>)
    ensures |s| == OCTET * |octets|
  {
    if octets == [] then [] else BitsOf(octets[0], OCTET) + OctetsBits(octets[1..])
  }

  // ----- facts about words

  lemma XorCommutes(a: Word, b: Word)
    ensures Xor(a, b) == Xor(b, a)
  {
  }

  lemma XorAssociates(a: Word, b: Word, c: Word)
    ensures Xor(Xor(a, b), c) == Xor(a, Xor(b, c))
  {
  }

  lemma XorZero(a: Word)
    ensures Xor(a, Word(0)) == a
  {
  }

  lemma XorSelf(a: Word)
    ensures Xor(a, a) == Word(0)
  {
  }

  lemma XorLaws(a: Word, b: Word, c: Word, d: Word)
    ensures Xor(Xor(a, b), Xor(c, d)) == Xor(Xor(a, c), Xor(b, d))
    ensures Xor(Xor(a, b), c) == Xor(a, Xor(b, c)) && Xor(a, b) == Xor(b, a)
    ensures Xor(a, Word(0)) == a && Xor(a, a) == Word(0) && Xor(Xor(a, b), b) == a
  {
    hide Xor;
    XorZero(a);
    XorSelf(a);
    XorSelf(b);
    XorCommutes(a, b);
    XorAssociates(a, b, b);
    XorAssociates(a, b, c);
    XorAssociates(a, b, Xor(c, d));
    XorAssociates(a, c, Xor(b, d));
    XorAssociates(b, c, d);
    XorAssociates(c, b, d);
    XorCommutes(b, c);
  }

  lemma BitLinear(a: bool, b: bool)
    ensures Bit(a != b) == Xor(Bit(a), Bit(b))
  {
  }

  lemma TapLinear(g: Generator, a: Register, b: Register)
    ensures Tap(g, a ^ b) == Tap(g, a) ^ Tap(g, b) && (a ^ b) >> 1 == (a >> 1) ^ (b >> 1)
  {
  }

  lemma ShiftLinear(g: Generator, a: Register, b: Register)
    ensures Shift(g, XorValues(a, b)) == XorValues(Shift(g, a), Shift(g, b))
  {
    hide Tap;
    TapLinear(g, a, b);
    Regroup(a >> 1, Tap(g, a), b >> 1, Tap(g, b));
  }

  lemma Regroup(a: Register, b: Register, c: Register, d: Register)
    ensures (a ^ b) ^ (c ^ d) == (a ^ c) ^ (b ^ d)
  {
  }

  // ----- the step is linear, and loses nothing

  lemma ZeroLinear(g: Generator, a: Word, b: Word)
    ensures Zero(g, Xor(a, b)) == Xor(Zero(g, a), Zero(g, b))
  {
    hide Shift, XorValues;
    ShiftLinear(g, a.v, b.v);
  }

  predicate Under(p: Word, m: Word) {
    p.v & !m.v == 0
  }

  /** The value fits the register of the generator. */
  predicate Fits(g: Generator, c: Word) {
    Under(c, Word(g.Ones()))
  }

  lemma ZeroFits(g: Generator)
    ensures Fits(g, Word(0)) && Fits(g, Word(g.Ones()))
  {
  }

  lemma StepFits(g: Generator, c: Word, bit: bool)
    requires Fits(g, c)
    ensures Fits(g, Zero(g, c)) && Fits(g, Step(g, c, bit))
  {
  }

  lemma {:induction false} FeedFits(g: Generator, c: Word, bits: seq<bool>)
    requires Fits(g, c)
    ensures Fits(g, Feed(g, c, bits))
    decreases |bits|
  {
    hide Fits, Step;
    if bits == [] {
    } else {
      StepFits(g, c, bits[0]);
      FeedFits(g, Step(g, c, bits[0]), bits[1..]);
    }
  }

  /** The top bit of the generator tells what was shifted out. */
  lemma ZeroInjective(g: Generator, c: Word)
    requires Fits(g, c)
    ensures Zero(g, c) == Word(0) <==> c == Word(0)
  {
  }

  lemma {:induction false} ZeroNLinear(g: Generator, a: Word, b: Word, n: nat)
    ensures ZeroN(g, Xor(a, b), n) == Xor(ZeroN(g, a, n), ZeroN(g, b, n))
    decreases n
  {
    hide Zero, Xor;
    if n == 0 {
    } else {
      ZeroLinear(g, a, b);
      ZeroNLinear(g, Zero(g, a), Zero(g, b), n - 1);
    }
  }

  lemma {:induction false} ZeroNInjective(g: Generator, c: Word, n: nat)
    requires Fits(g, c)
    ensures ZeroN(g, c, n) == Word(0) <==> c == Word(0)
    decreases n
  {
    hide Zero, Fits;
    if n == 0 {
    } else {
      ZeroInjective(g, c);
      StepFits(g, c, false);
      ZeroNInjective(g, Zero(g, c), n - 1);
    }
  }

  function XorBits(a: seq<bool>, b: seq<bool>): (c: seq<bool>)
    requires |a| == |b|
    ensures |c| == |a|
  {
    seq(|a|, i requires 0 <= i < |a| => a[i] != b[i])
  }

  lemma StepLinear(g: Generator, c: Word, d: Word, a: bool, b: bool)
    ensures Step(g, Xor(c, d), a != b) == Xor(Step(g, c, a), Step(g, d, b))
  {
    hide Zero, Bit, Xor;
    BitLinear(a, b);
    XorLaws(c, d, Bit(a), Bit(b));
    ZeroLinear(g, Xor(c, Bit(a)), Xor(d, Bit(b)));
  }

  /** The CRC of a sum of bit strings is the sum of their CRCs. */
  lemma {:induction false} FeedLinear(g: Generator, c: Word, d: Word, a: seq<bool>, b: seq<bool>)
    requires |a| == |b|
    ensures Feed(g, Xor(c, d), XorBits(a, b)) == Xor(Feed(g, c, a), Feed(g, d, b))
    decreases |a|
  {
    hide Step, Xor;
    if a == [] {
    } else {
      assert XorBits(a, b)[1..] == XorBits(a[1..], b[1..]);
      StepLinear(g, c, d, a[0], b[0]);
      FeedLinear(g, Step(g, c, a[0]), Step(g, d, b[0]), a[1..], b[1..]);
    }
  }

  lemma {:induction false} FeedConcat(g: Generator, c: Word, a: seq<bool>, b: seq<bool>)
    ensures Feed(g, c, a + b) == Feed(g, Feed(g, c, a), b)
    decreases |a|
  {
    hide Step;
    if a == [] {
      assert a + b == b;
    } else {
      assert (a + b)[1..] == a[1..] + b;
      FeedConcat(g, Step(g, c, a[0]), a[1..], b);
    }
  }

  // ----- up to as many bits as the register has act like one register value

  /** The bits as a word, the first one lowest. */
  function Pack(bits: seq<bool>): Word {
    if bits == [] then Word(0) else Xor(Double(Pack(bits[1..])), Bit(bits[0]))
  }

  function Double(w: Word): Word {
    Word(w.v << 1)
  }

  /** Ones in the low n bits. */
  function Mask(n: nat): Word {
    if n == 0 then Word(0) else Xor(Double(Mask(n - 1)), Bit(true))
  }

  predicate TopClear(g: Generator, p: Word) {
    Under(p, Word(g.Ones() >> 1))
  }

  lemma UnderStep(p: Word, m: Word, bit: bool)
    requires Under(p, m)
    ensures Under(Xor(Double(p), Bit(bit)), Xor(Double(m), Bit(true)))
  {
  }

  lemma UnderZero(m: Word)
    ensures Under(Word(0), m)
  {
  }

  lemma {:induction false} PackFits(bits: seq<bool>, n: nat)
    requires |bits| <= n
    ensures Under(Pack(bits), Mask(n))
    decreases n
  {
    hide Under, Bit, Xor, Double;
    if bits == [] {
      UnderZero(Mask(n));
    } else {
      PackFits(bits[1..], n - 1);
      UnderStep(Pack(bits[1..]), Mask(n - 1), bits[0]);
    }
  }

  /** Fewer bits than the register has leave the top bit of their value clear. */
  lemma PackTop(g: Generator, bits: seq<bool>)
    requires |bits| <= g.Width()
    ensures Fits(g, Pack(bits)) && (|bits| < g.Width() ==> TopClear(g, Pack(bits)))
  {
    hide Pack;
    FullMasks();
    PackFits(bits, g.Width());
    if |bits| < g.Width() {
      PackFits(bits, g.Width() - 1);
    }
    hide Under;
  }

  lemma FullMasks()
    ensures Mask(15) == Word(0x7FFF) && Mask(16) == Word(0xFFFF)
    ensures Mask(31) == Word(0x7FFF_FFFF) && Mask(32) == Word(0xFFFF_FFFF)
  {
    assert Mask(8) == Word(0xFF);
    assert Mask(15) == Word(0x7FFF);
    assert Mask(16) == Word(0xFFFF);
    assert Mask(24) == Word(0xFF_FFFF);
    assert Mask(31) == Word(0x7FFF_FFFF);
    assert Mask(32) == Word(0xFFFF_FFFF);
  }

  lemma ShiftBack(g: Generator, p: Word, bit: bool)
    requires TopClear(g, p)
    ensures Zero(g, Double(p)) == p
    ensures Xor(Double(p), Bit(bit)) == Word(0) ==> p == Word(0) && !bit
  {
  }

  lemma PackStep(g: Generator, c: Word, bit: bool, p: Word)
    requires TopClear(g, p)
    ensures Zero(g, Xor(c, Xor(Double(p), Bit(bit)))) == Xor(Step(g, c, bit), p)
  {
    hide Zero, Bit, Xor, Double;
    ShiftBack(g, p, bit);
    XorLaws(c, Bit(bit), Double(p), Double(p));
    XorLaws(Double(p), Bit(bit), c, c);
    ZeroLinear(g, Xor(c, Bit(bit)), Double(p));
  }

  lemma {:induction false} FeedIsZeroN(g: Generator, c: Word, bits: seq<bool>)
    requires |bits| <= g.Width()
    ensures Feed(g, c, bits) == ZeroN(g, Xor(c, Pack(bits)), |bits|)
    decreases |bits|
  {
    hide Step, Zero, Bit, Xor, Double;
    if bits == [] {
      XorLaws(c, c, c, c);
    } else {
      PackTop(g, bits[1..]);
      FeedIsZeroN(g, Step(g, c, bits[0]), bits[1..]);
      PackStep(g, c, bits[0], Pack(bits[1..]));
    }
  }

  lemma {:induction false} PackZero(g: Generator, bits: seq<bool>)
    requires |bits| <= g.Width() && Pack(bits) == Word(0)
    ensures forall i :: 0 <= i < |bits| ==> !bits[i]
  {
    hide Bit, Xor, Double;
    if bits == [] {
    } else {
      PackTop(g, bits[1..]);
      ShiftBack(g, Pack(bits[1..]), bits[0]);
      PackZero(g, bits[1..]);
      assert forall i :: 0 < i < |bits| ==> bits[i] == bits[1..][i - 1];
    }
  }

  // ----- error patterns

  predicate AllClear(bits: seq<bool>) {
    forall i :: 0 <= i < |bits| ==> !bits[i]
  }

  lemma {:induction false} FeedClear(g: Generator, c: Word, bits: seq<bool>)
    requires AllClear(bits)
    ensures Feed(g, c, bits) == ZeroN(g, c, |bits|)
    decreases |bits|
  {
    hide Zero, Xor;
    if bits == [] {
    } else {
      XorLaws(c, c, c, c);
      FeedClear(g, Zero(g, c), bits[1..]);
    }
  }

  /** A nonzero pattern within the width of the register, anywhere in a string, has a nonzero CRC from zero. */
  lemma BurstLeavesTrace(g: Generator, bits: seq<bool>, p: nat, i: nat)
    requires i < |bits| && bits[i]
    requires forall k :: 0 <= k < |bits| && bits[k] ==> p <= k < p + g.Width()
    ensures Feed(g, Word(0), bits) != Word(0)
  {
    hide Feed, ZeroN, Pack, Fits;
    ZeroFits(g);
    var q := if p + g.Width() <= |bits| then p + g.Width() else |bits|;
    var before, burst, after := bits[..p], bits[p..q], bits[q..];
    assert bits == before + (burst + after);
    FeedConcat(g, Word(0), before, burst + after);
    FeedClear(g, Word(0), before);
    ZeroNInjective(g, Word(0), |before|);
    FeedConcat(g, Word(0), burst, after);
    FeedIsZeroN(g, Word(0), burst);
    assert burst[i - p];
    if Pack(burst) == Word(0) {
      PackZero(g, burst);
    }
    XorLaws(Pack(burst), Word(0), Word(0), Word(0));
    PackTop(g, burst);
    FeedFits(g, Word(0), burst);
    ZeroNInjective(g, Pack(burst), |burst|);
    FeedClear(g, Feed(g, Word(0), burst), after);
    ZeroNInjective(g, Feed(g, Word(0), burst), |after|);
  }

  // ----- the table

  /** crc_itu16_table, sixteen entries a row. */
  function Row16(r: nat): (row: seq<Register>)
    requires r < 16
    ensures |row| == 16
  {
    match r
    case 0 => [0x0000, 0x1189, 0x2312, 0x329B, 0x4624, 0x57AD, 0x6536, 0x74BF,
                0x8C48, 0x9DC1, 0xAF5A, 0xBED3, 0xCA6C, 0xDBE5, 0xE97E, 0xF8F7]
    case 1 => [0x1081, 0x0108, 0x3393, 0x221A, 0x56A5, 0x472C, 0x75B7, 0x643E,
                0x9CC9, 0x8D40, 0xBFDB, 0xAE52, 0xDAED, 0xCB64, 0xF9FF, 0xE876]
    case 2 => [0x2102, 0x308B, 0x0210, 0x1399, 0x6726, 0x76AF, 0x4434, 0x55BD,
                0xAD4A, 0xBCC3, 0x8E58, 0x9FD1, 0xEB6E, 0xFAE7, 0xC87C, 0xD9F5]
    case 3 => [0x3183, 0x200A, 0x1291, 0x0318, 0x77A7, 0x662E, 0x54B5, 0x453C,
                0xBDCB, 0xAC42, 0x9ED9, 0x8F50, 0xFBEF, 0xEA66, 0xD8FD, 0xC974]
    case 4 => [0x4204, 0x538D, 0x6116, 0x709F, 0x0420, 0x15A9, 0x2732, 0x36BB,
                0xCE4C, 0xDFC5, 0xED5E, 0xFCD7, 0x8868, 0x99E1, 0xAB7A, 0xBAF3]
    case 5 => [0x5285, 0x430C, 0x7197, 0x601E, 0x14A1, 0x0528, 0x37B3, 0x263A,
                0xDECD, 0xCF44, 0xFDDF, 0xEC56, 0x98E9, 0x8960, 0xBBFB, 0xAA72]
    case 6 => [0x6306, 0x728F, 0x4014, 0x519D, 0x2522, 0x34AB, 0x0630, 0x17B9,
                0xEF4E, 0xFEC7, 0xCC5C, 0xDDD5, 0xA96A, 0xB8E3, 0x8A78, 0x9BF1]
    case 7 => [0x7387, 0x620E, 0x5095, 0x411C, 0x35A3, 0x242A, 0x16B1, 0x0738,
                0xFFCF, 0xEE46, 0xDCDD, 0xCD54, 0xB9EB, 0xA862, 0x9AF9, 0x8B70]
    case 8 => [0x8408, 0x9581, 0xA71A, 0xB693, 0xC22C, 0xD3A5, 0xE13E, 0xF0B7,
                0x0840, 0x19C9, 0x2B52, 0x3ADB, 0x4E64, 0x5FED, 0x6D76, 0x7CFF]
    case 9 => [0x9489, 0x8500, 0xB79B, 0xA612, 0xD2AD, 0xC324, 0xF1BF, 0xE036,
                0x18C1, 0x0948, 0x3BD3, 0x2A5A, 0x5EE5, 0x4F6C, 0x7DF7, 0x6C7E]
    case 10 => [0xA50A, 0xB483, 0x8618, 0x9791, 0xE32E, 0xF2A7, 0xC03C, 0xD1B5,
                0x2942, 0x38CB, 0x0A50, 0x1BD9, 0x6F66, 0x7EEF, 0x4C74, 0x5DFD]
    case 11 => [0xB58B, 0xA402, 0x9699, 0x8710, 0xF3AF, 0xE226, 0xD0BD, 0xC134,
                0x39C3, 0x284A, 0x1AD1, 0x0B58, 0x7FE7, 0x6E6E, 0x5CF5, 0x4D7C]
    case 12 => [0xC60C, 0xD785, 0xE51E, 0xF497, 0x8028, 0x91A1, 0xA33A, 0xB2B3,
                0x4A44, 0x5BCD, 0x6956, 0x78DF, 0x0C60, 0x1DE9, 0x2F72, 0x3EFB]
    case 13 => [0xD68D, 0xC704, 0xF59F, 0xE416, 0x90A9, 0x8120, 0xB3BB, 0xA232,
                0x5AC5, 0x4B4C, 0x79D7, 0x685E, 0x1CE1, 0x0D68, 0x3FF3, 0x2E7A]
    case 14 => [0xE70E, 0xF687, 0xC41C, 0xD595, 0xA12A, 0xB0A3, 0x8238, 0x93B1,
                0x6B46, 0x7ACF, 0x4854, 0x59DD, 0x2D62, 0x3CEB, 0x0E70, 0x1FF9]
    case 15 => [0xF78F, 0xE606, 0xD49D, 0xC514, 0xB1AB, 0xA022, 0x92B9, 0x8330,
                0x7BC7, 0x6A4E, 0x58D5, 0x495C, 0x3DE3, 0x2C6A, 0x1EF1, 0x0F78]
  }

  /** crc_itu32_table, sixteen entries a row. */
  function Row32(r: nat): (row: seq<Register>)
    requires r < 16
    ensures |row| == 16
  {
    match r
    case 0 => [0x00000000, 0x77073096, 0xEE0E612C, 0x990951BA,
                0x076DC419, 0x706AF48F, 0xE963A535, 0x9E6495A3,
                0x0EDB8832, 0x79DCB8A4, 0xE0D5E91E, 0x97D2D988,
                0x09B64C2B, 0x7EB17CBD, 0xE7B82D07, 0x90BF1D91]
    case 1 => [0x1DB71064, 0x6AB020F2, 0xF3B97148, 0x84BE41DE,
                0x1ADAD47D, 0x6DDDE4EB, 0xF4D4B551, 0x83D385C7,
                0x136C9856, 0x646BA8C0, 0xFD62F97A, 0x8A65C9EC,
                0x14015C4F, 0x63066CD9, 0xFA0F3D63, 0x8D080DF5]
    case 2 => [0x3B6E20C8, 0x4C69105E, 0xD56041E4, 0xA2677172,
                0x3C03E4D1, 0x4B04D447, 0xD20D85FD, 0xA50AB56B,
                0x35B5A8FA, 0x42B2986C, 0xDBBBC9D6, 0xACBCF940,
                0x32D86CE3, 0x45DF5C75, 0xDCD60DCF, 0xABD13D59]
    case 3 => [0x26D930AC, 0x51DE003A, 0xC8D75180, 0xBFD06116,
                0x21B4F4B5, 0x56B3C423, 0xCFBA9599, 0xB8BDA50F,
                0x2802B89E, 0x5F058808, 0xC60CD9B2, 0xB10BE924,
                0x2F6F7C87, 0x58684C11, 0xC1611DAB, 0xB6662D3D]
    case 4 => [0x76DC4190, 0x01DB7106, 0x98D220BC, 0xEFD5102A,
                0x71B18589, 0x06B6B51F, 0x9FBFE4A5, 0xE8B8D433,
                0x7807C9A2, 0x0F00F934, 0x9609A88E, 0xE10E9818,
                0x7F6A0DBB, 0x086D3D2D, 0x91646C97, 0xE6635C01]
    case 5 => [0x6B6B51F4, 0x1C6C6162, 0x856530D8, 0xF262004E,
                0x6C0695ED, 0x1B01A57B, 0x8208F4C1, 0xF50FC457,
                0x65B0D9C6, 0x12B7E950, 0x8BBEB8EA, 0xFCB9887C,
                0x62DD1DDF, 0x15DA2D49, 0x8CD37CF3, 0xFBD44C65]
    case 6 => [0x4DB26158, 0x3AB551CE, 0xA3BC0074, 0xD4BB30E2,
                0x4ADFA541, 0x3DD895D7, 0xA4D1C46D, 0xD3D6F4FB,
                0x4369E96A, 0x346ED9FC, 0xAD678846, 0xDA60B8D0,
                0x44042D73, 0x33031DE5, 0xAA0A4C5F, 0xDD0D7CC9]
    case 7 => [0x5005713C, 0x270241AA, 0xBE0B1010, 0xC90C2086,
                0x5768B525, 0x206F85B3, 0xB966D409, 0xCE61E49F,
                0x5EDEF90E, 0x29D9C998, 0xB0D09822, 0xC7D7A8B4,
                0x59B33D17, 0x2EB40D81, 0xB7BD5C3B, 0xC0BA6CAD]
    case 8 => [0xEDB88320, 0x9ABFB3B6, 0x03B6E20C, 0x74B1D29A,
                0xEAD54739, 0x9DD277AF, 0x04DB2615, 0x73DC1683,
                0xE3630B12, 0x94643B84, 0x0D6D6A3E, 0x7A6A5AA8,
                0xE40ECF0B, 0x9309FF9D, 0x0A00AE27, 0x7D079EB1]
    case 9 => [0xF00F9344, 0x8708A3D2, 0x1E01F268, 0x6906C2FE,
                0xF762575D, 0x806567CB, 0x196C3671, 0x6E6B06E7,
                0xFED41B76, 0x89D32BE0, 0x10DA7A5A, 0x67DD4ACC,
                0xF9B9DF6F, 0x8EBEEFF9, 0x17B7BE43, 0x60B08ED5]
    case 10 => [0xD6D6A3E8, 0xA1D1937E, 0x38D8C2C4, 0x4FDFF252,
                0xD1BB67F1, 0xA6BC5767, 0x3FB506DD, 0x48B2364B,
                0xD80D2BDA, 0xAF0A1B4C, 0x36034AF6, 0x41047A60,
                0xDF60EFC3, 0xA867DF55, 0x316E8EEF, 0x4669BE79]
    case 11 => [0xCB61B38C, 0xBC66831A, 0x256FD2A0, 0x5268E236,
                0xCC0C7795, 0xBB0B4703, 0x220216B9, 0x5505262F,
                0xC5BA3BBE, 0xB2BD0B28, 0x2BB45A92, 0x5CB36A04,
                0xC2D7FFA7, 0xB5D0CF31, 0x2CD99E8B, 0x5BDEAE1D]
    case 12 => [0x9B64C2B0, 0xEC63F226, 0x756AA39C, 0x026D930A,
                0x9C0906A9, 0xEB0E363F, 0x72076785, 0x05005713,
                0x95BF4A82, 0xE2B87A14, 0x7BB12BAE, 0x0CB61B38,
                0x92D28E9B, 0xE5D5BE0D, 0x7CDCEFB7, 0x0BDBDF21]
    case 13 => [0x86D3D2D4, 0xF1D4E242, 0x68DDB3F8, 0x1FDA836E,
                0x81BE16CD, 0xF6B9265B, 0x6FB077E1, 0x18B74777,
                0x88085AE6, 0xFF0F6A70, 0x66063BCA, 0x11010B5C,
                0x8F659EFF, 0xF862AE69, 0x616BFFD3, 0x166CCF45]
    case 14 => [0xA00AE278, 0xD70DD2EE, 0x4E048354, 0x3903B3C2,
                0xA7672661, 0xD06016F7, 0x4969474D, 0x3E6E77DB,
                0xAED16A4A, 0xD9D65ADC, 0x40DF0B66, 0x37D83BF0,
                0xA9BCAE53, 0xDEBB9EC5, 0x47B2CF7F, 0x30B5FFE9]
    case 15 => [0xBDBDF21C, 0xCABAC28A, 0x53B39330, 0x24B4A3A6,
                0xBAD03605, 0xCDD70693, 0x54DE5729, 0x23D967BF,
                0xB3667A2E, 0xC4614AB8, 0x5D681B02, 0x2A6F2B94,
                0xB40BBE37, 0xC30C8EA1, 0x5A05DF1B, 0x2D02EF8D]
  }

  function Row(g: Generator, r: nat): (row: seq<Register>)
    requires r < 16
    ensures |row| == 16
  {
    match g case Itu16 => Row16(r) case Itu32 => Row32(r)
  }

  function Table(g: Generator, i: nat): Register
    requires i < 256
  {
    Row(g, i / 16)[i % 16]
  }

  function Shift8(g: Generator, c: Register): Register {
    Shift(g, Shift(g, Shift(g, Shift(g, Shift(g, Shift(g, Shift(g, Shift(g, c))))))))
  }

  /** A row with first added to every entry. */
  function Moved(first: Register, base: seq<Register>): (row: seq<Register>)
    requires |base| == 16
    ensures |row| == 16
  {
    [XorValues(first, base[0]), XorValues(first, base[1]), XorValues(first, base[2]), XorValues(first, base[3]),
     XorValues(first, base[4]), XorValues(first, base[5]), XorValues(first, base[6]), XorValues(first, base[7]),
     XorValues(first, base[8]), XorValues(first, base[9]), XorValues(first, base[10]), XorValues(first, base[11]),
     XorValues(first, base[12]), XorValues(first, base[13]), XorValues(first, base[14]), XorValues(first, base[15])]
  }

  lemma MovedAt(first: Register, base: seq<Register>, k: nat)
    requires |base| == 16 && k < 16
    ensures Moved(first, base)[k] == XorValues(first, base[k])
  {
    hide XorValues;
    assert k in {0, 1, 2, 3, 4, 5, 6, 7, 8, 9, 10, 11, 12, 13, 14, 15};
  }

  lemma FirstRow32(k: Register)
    requires k < 16
    ensures Row32(0)[k as nat] == Shift8(Itu32, k)
  {
    if k < 8 {
      FirstRow32Low(k);
    } else {
      FirstRow32High(k);
    }
    hide Row32, Shift8;
  }

  lemma FirstRow32Low(k: Register)
    requires k < 8
    ensures Row32(0)[k as nat] == Shift8(Itu32, k)
  {
    assert k in {0, 1, 2, 3, 4, 5, 6, 7};
  }

  lemma FirstRow32High(k: Register)
    requires 8 <= k < 16
    ensures Row32(0)[k as nat] == Shift8(Itu32, k)
  {
    assert k in {8, 9, 10, 11, 12, 13, 14, 15};
  }

  lemma Itu32Row0()
    ensures Row32(0) == Moved(Shift8(Itu32, 0x00), Row32(0))
  {
  }

  lemma Itu32Row1()
    ensures Row32(1) == Moved(Shift8(Itu32, 0x10), Row32(0))
  {
  }

  lemma Itu32Row2()
    ensures Row32(2) == Moved(Shift8(Itu32, 0x20), Row32(0))
  {
  }

  lemma Itu32Row3()
    ensures Row32(3) == Moved(Shift8(Itu32, 0x30), Row32(0))
  {
  }

  lemma Itu32Row4()
    ensures Row32(4) == Moved(Shift8(Itu32, 0x40), Row32(0))
  {
  }

  lemma Itu32Row5()
    ensures Row32(5) == Moved(Shift8(Itu32, 0x50), Row32(0))
  {
  }

  lemma Itu32Row6()
    ensures Row32(6) == Moved(Shift8(Itu32, 0x60), Row32(0))
  {
  }

  lemma Itu32Row7()
    ensures Row32(7) == Moved(Shift8(Itu32, 0x70), Row32(0))
  {
  }

  lemma Itu32Row8()
    ensures Row32(8) == Moved(Shift8(Itu32, 0x80), Row32(0))
  {
  }

  lemma Itu32Row9()
    ensures Row32(9) == Moved(Shift8(Itu32, 0x90), Row32(0))
  {
  }

  lemma Itu32RowA()
    ensures Row32(10) == Moved(Shift8(Itu32, 0xA0), Row32(0))
  {
  }

  lemma Itu32RowB()
    ensures Row32(11) == Moved(Shift8(Itu32, 0xB0), Row32(0))
  {
  }

  lemma Itu32RowC()
    ensures Row32(12) == Moved(Shift8(Itu32, 0xC0), Row32(0))
  {
  }

  lemma Itu32RowD()
    ensures Row32(13) == Moved(Shift8(Itu32, 0xD0), Row32(0))
  {
  }

  lemma Itu32RowE()
    ensures Row32(14) == Moved(Shift8(Itu32, 0xE0), Row32(0))
  {
  }

  lemma Itu32RowF()
    ensures Row32(15) == Moved(Shift8(Itu32, 0xF0), Row32(0))
  {
  }

  lemma FirstRow16(k: Register)
    requires k < 16
    ensures Row16(0)[k as nat] == Shift8(Itu16, k)
  {
    if k < 8 {
      FirstRow16Low(k);
    } else {
      FirstRow16High(k);
    }
    hide Row16, Shift8;
  }

  lemma FirstRow16Low(k: Register)
    requires k < 8
    ensures Row16(0)[k as nat] == Shift8(Itu16, k)
  {
    assert k in {0, 1, 2, 3, 4, 5, 6, 7};
  }

  lemma FirstRow16High(k: Register)
    requires 8 <= k < 16
    ensures Row16(0)[k as nat] == Shift8(Itu16, k)
  {
    assert k in {8, 9, 10, 11, 12, 13, 14, 15};
  }

  lemma Itu16Row0()
    ensures Row16(0) == Moved(Shift8(Itu16, 0x00), Row16(0))
  {
  }

  lemma Itu16Row1()
    ensures Row16(1) == Moved(Shift8(Itu16, 0x10), Row16(0))
  {
  }

  lemma Itu16Row2()
    ensures Row16(2) == Moved(Shift8(Itu16, 0x20), Row16(0))
  {
  }

  lemma Itu16Row3()
    ensures Row16(3) == Moved(Shift8(Itu16, 0x30), Row16(0))
  {
  }

  lemma Itu16Row4()
    ensures Row16(4) == Moved(Shift8(Itu16, 0x40), Row16(0))
  {
  }

  lemma Itu16Row5()
    ensures Row16(5) == Moved(Shift8(Itu16, 0x50), Row16(0))
  {
  }

  lemma Itu16Row6()
    ensures Row16(6) == Moved(Shift8(Itu16, 0x60), Row16(0))
  {
  }

  lemma Itu16Row7()
    ensures Row16(7) == Moved(Shift8(Itu16, 0x70), Row16(0))
  {
  }

  lemma Itu16Row8()
    ensures Row16(8) == Moved(Shift8(Itu16, 0x80), Row16(0))
  {
  }

  lemma Itu16Row9()
    ensures Row16(9) == Moved(Shift8(Itu16, 0x90), Row16(0))
  {
  }

  lemma Itu16RowA()
    ensures Row16(10) == Moved(Shift8(Itu16, 0xA0), Row16(0))
  {
  }

  lemma Itu16RowB()
    ensures Row16(11) == Moved(Shift8(Itu16, 0xB0), Row16(0))
  {
  }

  lemma Itu16RowC()
    ensures Row16(12) == Moved(Shift8(Itu16, 0xC0), Row16(0))
  {
  }

  lemma Itu16RowD()
    ensures Row16(13) == Moved(Shift8(Itu16, 0xD0), Row16(0))
  {
  }

  lemma Itu16RowE()
    ensures Row16(14) == Moved(Shift8(Itu16, 0xE0), Row16(0))
  {
  }

  lemma Itu16RowF()
    ensures Row16(15) == Moved(Shift8(Itu16, 0xF0), Row16(0))
  {
  }

  lemma RowIsMoved(g: Generator, r: Register)
    requires r < 16
    ensures Row(g, r as nat) == Moved(Shift8(g, r << 4), Row(g, 0))
  {
    hide Moved, Shift8, Row16, Row32;
    if g.Itu16? {
      Row16IsMoved(r);
    } else {
      Row32IsMoved(r);
    }
  }

  lemma Row16IsMoved(r: Register)
    requires r < 16
    ensures Row16(r as nat) == Moved(Shift8(Itu16, r << 4), Row16(0))
  {
    hide Moved, Shift8, Row16;
    if
    case r == 0 => Itu16Row0();
    case r == 1 => Itu16Row1();
    case r == 2 => Itu16Row2();
    case r == 3 => Itu16Row3();
    case r == 4 => Itu16Row4();
    case r == 5 => Itu16Row5();
    case r == 6 => Itu16Row6();
    case r == 7 => Itu16Row7();
    case r == 8 => Itu16Row8();
    case r == 9 => Itu16Row9();
    case r == 10 => Itu16RowA();
    case r == 11 => Itu16RowB();
    case r == 12 => Itu16RowC();
    case r == 13 => Itu16RowD();
    case r == 14 => Itu16RowE();
    case r == 15 => Itu16RowF();
  }

  lemma Row32IsMoved(r: Register)
    requires r < 16
    ensures Row32(r as nat) == Moved(Shift8(Itu32, r << 4), Row32(0))
  {
    hide Moved, Shift8, Row32;
    if
    case r == 0 => Itu32Row0();
    case r == 1 => Itu32Row1();
    case r == 2 => Itu32Row2();
    case r == 3 => Itu32Row3();
    case r == 4 => Itu32Row4();
    case r == 5 => Itu32Row5();
    case r == 6 => Itu32Row6();
    case r == 7 => Itu32Row7();
    case r == 8 => Itu32Row8();
    case r == 9 => Itu32Row9();
    case r == 10 => Itu32RowA();
    case r == 11 => Itu32RowB();
    case r == 12 => Itu32RowC();
    case r == 13 => Itu32RowD();
    case r == 14 => Itu32RowE();
    case r == 15 => Itu32RowF();
  }

  lemma Nibbles(i: Register)
    requires i < 256
    ensures i as nat / 16 == (i >> 4) as nat && i as nat % 16 == (i & 15) as nat
    ensures i >> 4 < 16 && i & 15 < 16 && XorValues((i >> 4) << 4, i & 15) == i
  {
  }

  /** Every table entry is eight bit-serial steps. */
  lemma TableIsSerial(g: Generator, i: Register)
    requires i < 256
    ensures i as nat < 256 && Table(g, i as nat) == Shift8(g, i)
  {
    hide Shift8, Row, Row16, Row32, Moved, XorValues;
    Nibbles(i);
    RowIsMoved(g, i >> 4);
    MovedAt(Shift8(g, (i >> 4) << 4), Row(g, 0), (i & 15) as nat);
    FirstRow(g, i & 15);
    Shift8Linear(g, (i >> 4) << 4, i & 15);
  }

  lemma FirstRow(g: Generator, k: Register)
    requires k < 16
    ensures Row(g, 0)[k as nat] == Shift8(g, k)
  {
    hide Row16, Row32, Shift8;
    if g.Itu16? {
      FirstRow16(k);
    } else {
      FirstRow32(k);
    }
  }

  // ----- octets

  function DoubleN(w: Word, n: nat): Word
    decreases n
  {
    if n == 0 then w else DoubleN(Double(w), n - 1)
  }

  /** The bits of b above the low n. */
  function Above(b: Octet, n: nat): Octet
    decreases n
  {
    if n == 0 then b else Above(Half(b), n - 1)
  }

  lemma OctetHead(b: Octet)
    ensures Xor(Double(Word(Half(b) as Register)), Bit(Odd(b))) == Word(b as Register)
  {
  }

  lemma {:induction false} DoubleNLinear(a: Word, b: Word, n: nat)
    ensures Xor(DoubleN(a, n), DoubleN(b, n)) == DoubleN(Xor(a, b), n)
    decreases n
  {
    if n == 0 {
    } else {
      hide Xor, Double;
      DoubleLinear(a, b);
      DoubleNLinear(Double(a), Double(b), n - 1);
    }
  }

  lemma DoubleLinear(a: Word, b: Word)
    ensures Xor(Double(a), Double(b)) == Double(Xor(a, b))
  {
  }

  lemma {:induction false} DoubleNStep(w: Word, n: nat)
    ensures DoubleN(Double(w), n) == Double(DoubleN(w, n))
    decreases n
  {
    hide Double;
    if n == 0 {
    } else {
      DoubleNStep(Double(w), n - 1);
    }
  }

  /** A word is the octet sent first plus the rest, shifted up. */
  lemma {:induction false} PackOctet(b: Octet, n: nat, rest: seq<bool>)
    requires Above(b, n) == 0
    ensures Pack(BitsOf(b, n) + rest) == Xor(Word(b as Register), DoubleN(Pack(rest), n))
    decreases n
  {
    if n == 0 {
      assert BitsOf(b, 0) + rest == rest;
      ZeroFirst(Pack(rest));
    } else {
      PackOctet(Half(b), n - 1, rest);
      assert (BitsOf(b, n) + rest)[1..] == BitsOf(Half(b), n - 1) + rest;
      hide Double, Xor, Bit, BitsOf;
      var half, more := Word(Half(b) as Register), DoubleN(Pack(rest), n - 1);
      DoubleLinear(half, more);
      DoubleNStep(Pack(rest), n - 1);
      OctetHead(b);
      XorAssociates(Double(half), Double(more), Bit(Odd(b)));
      XorCommutes(Double(more), Bit(Odd(b)));
      XorAssociates(Double(half), Bit(Odd(b)), Double(more));
    }
  }

  lemma ZeroFirst(w: Word)
    ensures Xor(Word(0), w) == w
  {
  }

  lemma AboveOctet(b: Octet)
    ensures Above(b, OCTET) == 0
  {
    assert Above(b, 8) == 0;
  }

  lemma PackBits(b: Octet)
    ensures Pack(BitsOf(b, OCTET)) == Word(b as Register)
  {
    hide Xor;
    AboveOctet(b);
    PackOctet(b, OCTET, []);
    assert BitsOf(b, OCTET) + [] == BitsOf(b, OCTET);
    assert DoubleN(Word(0), 8) == Word(0);
    XorZero(Word(b as Register));
  }

  lemma OctetInjective(a: Octet, b: Octet)
    requires BitsOf(a, OCTET) == BitsOf(b, OCTET)
    ensures a == b
  {
    PackBits(a);
    PackBits(b);
  }

  lemma {:induction false} OctetsInjective(a: seq<Octet>, b: seq<Octet>)
    requires OctetsBits(a) == OctetsBits(b)
    ensures a == b
  {
    if a == [] {
    } else {
      assert OctetsBits(a)[..OCTET] == BitsOf(a[0], OCTET) && OctetsBits(a)[OCTET..] == OctetsBits(a[1..]);
      assert OctetsBits(b)[..OCTET] == BitsOf(b[0], OCTET) && OctetsBits(b)[OCTET..] == OctetsBits(b[1..]);
      OctetInjective(a[0], b[0]);
      OctetsInjective(a[1..], b[1..]);
    }
  }

  // ----- a table step is eight serial steps

  function TableIndex(c: Register, b: Octet): Register {
    XorValues(c, b as Register) & 0xFF
  }

  lemma TableIndexFits(c: Register, b: Octet)
    ensures TableIndex(c, b) < 256 && TableIndex(c, b) as nat < 256
  {
  }

  /** The table-driven step: (crc >> 8) ^ table[(crc ^ b) & 0xFF]. */
  function TableStep(g: Generator, c: Register, b: Octet): Register {
    TableIndexFits(c, b);
    XorValues(c >> 8, Table(g, TableIndex(c, b) as nat))
  }

  lemma {:induction false} ZeroNShift8(g: Generator, x: Register)
    ensures ZeroN(g, Word(x), OCTET) == Word(Shift8(g, x))
  {
    hide Shift;
    assert ZeroN(g, Word(x), 8) == Word(Shift8(g, x));
  }

  function Halve(h: Register): Register {
    h >> 1
  }

  predicate Even(h: Register) {
    h & 1 == 0
  }

  lemma ShiftEven(g: Generator, h: Register)
    requires Even(h)
    ensures Shift(g, h) == Halve(h)
  {
  }

  function Halve8(h: Register): Register {
    Halve(Halve(Halve(Halve(Halve(Halve(Halve(Halve(h))))))))
  }

  lemma EvenHalves(h: Register)
    requires h & 0xFF == 0
    ensures Even(h) && Even(Halve(h)) && Even(Halve(Halve(h))) && Even(Halve(Halve(Halve(h))))
    ensures var q := Halve(Halve(Halve(Halve(h))));
      Even(q) && Even(Halve(q)) && Even(Halve(Halve(q))) && Even(Halve(Halve(Halve(q))))
    ensures Halve8(h) == h >> 8
  {
  }

  lemma Shift8High(g: Generator, h: Register)
    requires h & 0xFF == 0
    ensures Shift8(g, h) == h >> 8
  {
    hide Shift, Even, Halve;
    EvenHalves(h);
    var q := Halve(Halve(Halve(Halve(h))));
    ShiftEven(g, h);
    ShiftEven(g, Halve(h));
    ShiftEven(g, Halve(Halve(h)));
    ShiftEven(g, Halve(Halve(Halve(h))));
    ShiftEven(g, q);
    ShiftEven(g, Halve(q));
    ShiftEven(g, Halve(Halve(q)));
    ShiftEven(g, Halve(Halve(Halve(q))));
  }

  lemma SplitOctet(c: Register, b: Octet, x: Register)
    requires x == XorValues(c, b as Register)
    ensures x == XorValues(x & !0xFF, TableIndex(c, b)) && (x & !0xFF) & 0xFF == 0
    ensures (x & !0xFF) >> 8 == c >> 8
  {
  }

  lemma Shift8Linear(g: Generator, a: Register, b: Register)
    ensures Shift8(g, XorValues(a, b)) == XorValues(Shift8(g, a), Shift8(g, b))
  {
    hide Shift8, Xor, XorValues;
    ZeroNLinear(g, Word(a), Word(b), OCTET);
    XorWords(a, b);
    XorWords(Shift8(g, a), Shift8(g, b));
    ZeroNShift8(g, a);
    ZeroNShift8(g, b);
    ZeroNShift8(g, XorValues(a, b));
  }

  lemma XorWords(a: Register, b: Register)
    ensures Xor(Word(a), Word(b)) == Word(XorValues(a, b))
  {
  }

  lemma Shift8Split(g: Generator, x: Register, high: Register, low: Register, top: Register)
    requires x == XorValues(high, low) && high & 0xFF == 0 && high >> 8 == top
    ensures Shift8(g, x) == XorValues(top, Shift8(g, low))
  {
    hide Shift8, XorValues;
    Shift8Linear(g, high, low);
    Shift8High(g, high);
  }

  /** A table step is eight shifts of the register with the octet added in. */
  lemma TableStepShifts(g: Generator, c: Register, b: Octet)
    ensures TableStep(g, c, b) == Shift8(g, XorValues(c, b as Register))
  {
    hide *;
    var x := XorValues(c, b as Register);
    SplitOctet(c, b, x);
    TableStepOn(g, c, b, x, x & !0xFF, TableIndex(c, b), c >> 8);
  }

  lemma TableStepOn(g: Generator, c: Register, b: Octet, x: Register, high: Register, low: Register, top: Register)
    requires x == XorValues(high, low) && high & 0xFF == 0 && high >> 8 == top
    requires low == TableIndex(c, b) && top == c >> 8
    ensures TableStep(g, c, b) == Shift8(g, x)
  {
    hide Shift8, XorValues, Table, TableIndex;
    TableIndexFits(c, b);
    TableIsSerial(g, low);
    Shift8Split(g, x, high, low, top);
  }

  lemma TableStepIsSerial(g: Generator, c: Register, b: Octet)
    ensures Word(TableStep(g, c, b)) == Feed(g, Word(c), BitsOf(b, OCTET))
  {
    hide *;
    TableStepShifts(g, c, b);
    FeedOctet(g, c, b, b as Register);
  }

  lemma FeedOctet(g: Generator, c: Register, b: Octet, y: Register)
    requires y == b as Register
    ensures Feed(g, Word(c), BitsOf(b, OCTET)) == Word(Shift8(g, XorValues(c, y)))
  {
    hide Shift8, Xor, XorValues, Feed, ZeroN, Pack, BitsOf;
    FeedIsZeroN(g, Word(c), BitsOf(b, OCTET));
    PackBits(b);
    XorWords(c, y);
    ZeroNShift8(g, XorValues(c, y));
  }

  // ----- frames

  /** The CRC of octets, from the register value c. */
  function Crc(g: Generator, c: Register, octets: seq<Octet>): Register {
    Feed(g, Word(c), OctetsBits(octets)).v
  }

  /** The octets that append writes for the complemented CRC v, low octet first. */
  function Tail(g: Generator, v: Register): (t: seq<Octet>)
    ensures |t| == g.Octets()
  {
    match g
    case Itu16 => [(v & 0xFF) as bv8, ((v >> 8) & 0xFF) as bv8]
    case Itu32 => [(v & 0xFF) as bv8, ((v >> 8) & 0xFF) as bv8, ((v >> 16) & 0xFF) as bv8, ((v >> 24) & 0xFF) as bv8]
  }

  function Framed(g: Generator, msg: seq<Octet>): (frame: seq<Octet>)
    ensures |frame| == |msg| + g.Octets()
  {
    msg + Tail(g, Crc(g, g.Ones(), msg) ^ g.Ones())
  }

  predicate Accepted(g: Generator, frame: seq<Octet>) {
    Crc(g, g.Ones(), frame) == g.Residue()
  }

  lemma {:induction false} OctetsConcat(a: seq<Octet>, b: seq<Octet>)
    ensures OctetsBits(a + b) == OctetsBits(a) + OctetsBits(b)
  {
    if a == [] {
      assert a + b == b;
    } else {
      assert (a + b)[1..] == a[1..] + b;
      OctetsConcat(a[1..], b);
    }
  }

  lemma CrcSnoc(g: Generator, c: Register, octets: seq<Octet>, b: Octet)
    ensures Crc(g, c, octets + [b]) == TableStep(g, Crc(g, c, octets), b)
  {
    hide Feed, TableStep, BitsOf;
    OctetsConcat(octets, [b]);
    assert OctetsBits([b]) == BitsOf(b, OCTET) + [] == BitsOf(b, OCTET);
    FeedConcat(g, Word(c), OctetsBits(octets), BitsOf(b, OCTET));
    TableStepIsSerial(g, Crc(g, c, octets), b);
  }

  /** The tail, read as one word, is the value it was made from. */
  lemma PackTail(g: Generator, v: Register)
    requires Fits(g, Word(v))
    ensures Pack(OctetsBits(Tail(g, v))) == Word(v)
  {
    PackOctets(Tail(g, v));
    TailValue(g, v);
  }

  /** Octets as one word, the first lowest. */
  function Value(octets: seq<Octet>): Word {
    if octets == [] then Word(0) else Xor(Word(octets[0] as Register), DoubleN(Value(octets[1..]), OCTET))
  }

  lemma {:induction false} PackOctets(octets: seq<Octet>)
    ensures Pack(OctetsBits(octets)) == Value(octets)
  {
    hide Xor, DoubleN, BitsOf;
    if octets == [] {
    } else {
      PackOctets(octets[1..]);
      AboveOctet(octets[0]);
      PackOctet(octets[0], OCTET, OctetsBits(octets[1..]));
    }
  }

  lemma DoubleOctet(w: Word)
    ensures DoubleN(w, OCTET) == Word(w.v << 8)
  {
    DoubleEight(w.v);
    hide Double;
    assert DoubleN(w, 8) == Double(Double(Double(Double(Double(Double(Double(Double(w))))))));
  }

  lemma DoubleEight(x: Register)
    ensures Double(Double(Double(Double(Double(Double(Double(Double(Word(x))))))))) == Word(x << 8)
  {
  }

  lemma TailValue(g: Generator, v: Register)
    requires Fits(g, Word(v))
    ensures Value(Tail(g, v)) == Word(v)
  {
    match g {
      case Itu16 => TailValue16(v);
      case Itu32 => TailValue32(v);
    }
  }

  lemma TailValue16(v: Register)
    requires Fits(Itu16, Word(v))
    ensures Value(Tail(Itu16, v)) == Word(v)
  {
    hide DoubleN;
    var t := Tail(Itu16, v);
    assert t[1..] == [t[1]] && t[2..] == [];
    DoubleOctet(Value([]));
    DoubleOctet(Value(t[1..]));
  }

  lemma TailValue32(v: Register)
    ensures Value(Tail(Itu32, v)) == Word(v)
  {
    hide DoubleN;
    var t := Tail(Itu32, v);
    assert t[1..][1..] == t[2..] && t[2..][1..] == t[3..] && t[3..][1..] == [];
    DoubleOctet(Value([]));
    DoubleOctet(Value(t[3..]));
    DoubleOctet(Value(t[2..]));
    DoubleOctet(Value(t[1..]));
  }

  lemma {:induction false} ZeroNSum(g: Generator, c: Word, a: nat, b: nat)
    ensures ZeroN(g, c, a + b) == ZeroN(g, ZeroN(g, c, a), b)
    decreases a
  {
    hide Zero;
    if a == 0 {
    } else {
      ZeroNSum(g, Zero(g, c), a - 1, b);
    }
  }

  /** A complemented CRC always leaves the same value. */
  lemma OnesResidue(g: Generator)
    ensures ZeroN(g, Word(g.Ones()), g.Width()) == Word(g.Residue())
  {
    hide Shift8, ZeroN;
    var half := Shift8(g, Shift8(g, g.Ones()));
    TwoOctets(g, g.Ones());
    OnesShifts();
    if g.Itu32? {
      ZeroNSum(g, Word(g.Ones()), 2 * OCTET, 2 * OCTET);
      TwoOctets(g, half);
    }
  }

  lemma TwoOctets(g: Generator, x: Register)
    ensures ZeroN(g, Word(x), 2 * OCTET) == Word(Shift8(g, Shift8(g, x)))
  {
    hide Shift8, ZeroN;
    ZeroNSum(g, Word(x), OCTET, OCTET);
    ZeroNShift8(g, x);
    ZeroNShift8(g, Shift8(g, x));
  }

  lemma OnesShifts()
    ensures Shift8(Itu16, Shift8(Itu16, 0xFFFF)) == 0xF0B8
    ensures Shift8(Itu32, 0xFFFFFFFF) == 0x2DFD1072 && Shift8(Itu32, 0x2DFD1072) == 0xBE26ED00
    ensures Shift8(Itu32, 0xBE26ED00) == 0xBE26ED && Shift8(Itu32, 0xBE26ED) == 0xDEBB20E3
  {
  }

  /** A frame with its CRC appended always passes the check. */
  lemma FramedIsAccepted(g: Generator, msg: seq<Octet>)
    ensures Accepted(g, Framed(g, msg))
  {
    hide Feed, ZeroN, Tail, Pack, Xor, OctetsBits;
    var w := Feed(g, Word(g.Ones()), OctetsBits(msg));
    var v := w.v ^ g.Ones();
    ZeroFits(g);
    FeedFits(g, Word(g.Ones()), OctetsBits(msg));
    OctetsConcat(msg, Tail(g, v));
    FeedConcat(g, Word(g.Ones()), OctetsBits(msg), OctetsBits(Tail(g, v)));
    FeedIsZeroN(g, w, OctetsBits(Tail(g, v)));
    Complement(g, w);
    PackTail(g, v);
    OnesResidue(g);
  }

  lemma Complement(g: Generator, w: Word)
    requires Fits(g, w)
    ensures Fits(g, Word(w.v ^ g.Ones()))
    ensures Xor(w, Word(w.v ^ g.Ones())) == Word(g.Ones())
  {
  }

  /** Octets of the length of a good frame are accepted exactly if their error pattern has no trace. */
  lemma AcceptedIffNoTrace(g: Generator, frame: seq<Octet>, received: seq<Octet>)
    requires |received| == |frame| && Accepted(g, frame)
    ensures Accepted(g, received)
       <==> Feed(g, Word(0), XorBits(OctetsBits(frame), OctetsBits(received))) == Word(0)
  {
    hide Feed, Xor, OctetsBits;
    var f, r := OctetsBits(frame), OctetsBits(received);
    var e := XorBits(f, r);
    assert XorBits(f, e) == r;
    FeedLinear(g, Word(g.Ones()), Word(0), f, e);
    XorZero(Word(g.Ones()));
    var trace := Feed(g, Word(0), e);
    XorZero(Word(g.Residue()));
    XorCancels(Word(g.Residue()), trace);
  }

  lemma XorCancels(a: Word, b: Word)
    ensures Xor(a, b) == a <==> b == Word(0)
  {
    hide Xor;
    XorLaws(b, a, a, a);
    XorZero(a);
    XorSelf(a);
  }

  /** Every burst of errors within 16 or 32 bits, at any position of a frame of any length, is detected. */
  lemma BurstIsDetected(g: Generator, msg: seq<Octet>, received: seq<Octet>, p: nat)
    requires |received| == |Framed(g, msg)| && received != Framed(g, msg)
    requires forall k :: 0 <= k < |OctetsBits(received)| && !(p <= k < p + g.Width()) ==>
      OctetsBits(received)[k] == OctetsBits(Framed(g, msg))[k]
    ensures !Accepted(g, received)
  {
    hide Feed, OctetsBits, Framed, BitsOf;
    var frame := Framed(g, msg);
    var f, r := OctetsBits(frame), OctetsBits(received);
    if f == r {
      OctetsInjective(frame, received);
    }
    assert f != r;
    var i :| 0 <= i < |f| && f[i] != r[i];
    BurstLeavesTrace(g, XorBits(f, r), p, i);
    FramedIsAccepted(g, msg);
    AcceptedIffNoTrace(g, frame, received);
  }

  // ----- the width is the limit

  function XorOctet(a: Octet, b: Octet): Octet {
    a ^ b
  }

  function XorOctets(a: seq<Octet>, b: seq<Octet>): (c: seq<Octet>)
    requires |a| == |b|
    ensures |c| == |a|
  {
    seq(|a|, i requires 0 <= i < |a| => XorOctet(a[i], b[i]))
  }

  lemma {:induction false} XorOctetBits(a: Octet, b: Octet, n: nat)
    ensures XorBits(BitsOf(a, n), BitsOf(b, n)) == BitsOf(XorOctet(a, b), n)
    decreases n
  {
    hide Odd, Half, XorOctet;
    if n == 0 {
    } else {
      LowBits(a, b);
      XorOctetBits(Half(a), Half(b), n - 1);
    }
  }

  lemma LowBits(a: Octet, b: Octet)
    ensures Odd(XorOctet(a, b)) == (Odd(a) != Odd(b))
    ensures Half(XorOctet(a, b)) == XorOctet(Half(a), Half(b))
  {
  }

  lemma {:induction false} XorOctetsBits(a: seq<Octet>, b: seq<Octet>)
    requires |a| == |b|
    ensures XorBits(OctetsBits(a), OctetsBits(b)) == OctetsBits(XorOctets(a, b))
  {
    if a == [] {
    } else {
      XorOctetBits(a[0], b[0], OCTET);
      XorOctetsBits(a[1..], b[1..]);
      assert XorOctets(a, b)[1..] == XorOctets(a[1..], b[1..]);
      XorBitsConcat(BitsOf(a[0], OCTET), OctetsBits(a[1..]), BitsOf(b[0], OCTET), OctetsBits(b[1..]));
    }
  }

  lemma XorBitsConcat(a: seq<bool>, aa: seq<bool>, b: seq<bool>, bb: seq<bool>)
    requires |a| == |b| && |aa| == |bb|
    ensures XorBits(a + aa, b + bb) == XorBits(a, b) + XorBits(aa, bb)
  {
  }

  /** A one, then the generator itself: one bit more than the register has. */
  function Undetected(g: Generator): (e: seq<Octet>)
    ensures |e| == g.Octets() + 1 && e[0] != 0
  {
    match g case Itu16 => [0x11, 0x08, 0x01] case Itu32 => [0x41, 0x06, 0x71, 0xDB, 0x01]
  }

  lemma GeneratorHasNoTrace(g: Generator)
    ensures Crc(g, 0, Undetected(g)) == 0
  {
    match g {
      case Itu16 => Generator16();
      case Itu32 => Generator32();
    }
  }

  lemma Generator16()
    ensures Crc(Itu16, 0, [0x11, 0x08, 0x01]) == 0
  {
    hide *;
    CrcEmpty(Itu16, 0, []);
    Generator16Shifts();
    CrcNext(Itu16, [], 0x11, 0x11, [0x11], 0x0, 0x108);
    CrcNext(Itu16, [0x11], 0x08, 0x08, [0x11, 0x08], 0x108, 0x1);
    CrcNext(Itu16, [0x11, 0x08], 0x01, 0x01, [0x11, 0x08, 0x01], 0x1, 0x0);
  }

  lemma Generator16Shifts()
    ensures Shift8(Itu16, XorValues(0x0, 0x11)) == 0x108
    ensures Shift8(Itu16, XorValues(0x108, 0x08)) == 0x1
    ensures Shift8(Itu16, XorValues(0x1, 0x01)) == 0x0
  {
  }

  lemma Generator32()
    ensures Crc(Itu32, 0, [0x41, 0x06, 0x71, 0xDB, 0x01]) == 0
  {
    hide *;
    CrcEmpty(Itu32, 0, []);
    Generator32Shifts();
    CrcNext(Itu32, [], 0x41, 0x41, [0x41], 0x0, 0x1DB7106);
    CrcNext(Itu32, [0x41], 0x06, 0x06, [0x41, 0x06], 0x1DB7106, 0x1DB71);
    CrcNext(Itu32, [0x41, 0x06], 0x71, 0x71, [0x41, 0x06, 0x71], 0x1DB71, 0x1DB);
    CrcNext(Itu32, [0x41, 0x06, 0x71], 0xDB, 0xDB, [0x41, 0x06, 0x71, 0xDB], 0x1DB, 0x1);
    CrcNext(Itu32, [0x41, 0x06, 0x71, 0xDB], 0x01, 0x01, [0x41, 0x06, 0x71, 0xDB, 0x01], 0x1, 0x0);
  }

  lemma Generator32Shifts()
    ensures Shift8(Itu32, XorValues(0x0, 0x41)) == 0x1DB7106
    ensures Shift8(Itu32, XorValues(0x1DB7106, 0x06)) == 0x1DB71
    ensures Shift8(Itu32, XorValues(0x1DB71, 0x71)) == 0x1DB
    ensures Shift8(Itu32, XorValues(0x1DB, 0xDB)) == 0x1
    ensures Shift8(Itu32, XorValues(0x1, 0x01)) == 0x0
  {
  }

  lemma CrcNext(g: Generator, octets: seq<Octet>, b: Octet, y: Register, longer: seq<Octet>, v: Register, w: Register)
    requires y == b as Register && longer == octets + [b]
    requires Crc(g, 0, octets) == v && Shift8(g, XorValues(v, y)) == w
    ensures Crc(g, 0, longer) == w
  {
    hide *;
    CrcSnoc(g, 0, octets, b);
    TableStepShifts(g, Crc(g, 0, octets), b);
  }

  /** The bound is exact: every long enough frame has a burst of one bit more that goes undetected. */
  lemma LongerBurstIsMissed(g: Generator, frame: seq<Octet>, received: seq<Octet>)
    requires Accepted(g, frame) && |frame| >= |Undetected(g)|
    requires received == XorOctets(frame, Undetected(g) + ZeroOctets(|frame| - |Undetected(g)|))
    ensures Accepted(g, received) && received != frame
    ensures forall k :: 0 <= k < |OctetsBits(frame)| && !(0 <= k < g.Width() + 1) ==>
      OctetsBits(received)[k] == OctetsBits(frame)[k]
  {
    var n := |frame| - |Undetected(g)|;
    hide Feed, OctetsBits, XorOctet, Undetected;
    var e := Undetected(g) + ZeroOctets(n);
    assert frame == XorOctets(received, e) by {
      forall i | 0 <= i < |frame| ensures frame[i] == XorOctets(received, e)[i] {
        XorTwice(frame[i], e[i]);
      }
    }
    assert XorOctets(frame, received) == e by {
      forall i | 0 <= i < |frame| ensures XorOctets(frame, received)[i] == e[i] {
        XorTwice(frame[i], e[i]);
      }
    }
    XorTwice(frame[0], e[0]);
    XorOctetsBits(frame, received);
    AcceptedIffNoTrace(g, frame, received);
    GeneratorHasNoTrace(g);
    PaddingKeepsZero(g, Undetected(g), n);
    assert |OctetsBits(received)| == |OctetsBits(frame)|;
    forall k | g.Width() < k < |OctetsBits(frame)| ensures OctetsBits(received)[k] == OctetsBits(frame)[k] {
      BitOfOctets(frame, k);
      BitOfOctets(received, k);
      BeyondUndetected(g, n, k);
      OtherBits(frame[k / OCTET], e[k / OCTET], k % OCTET);
    }
  }

  lemma {:induction false} BitOfOctets(octets: seq<Octet>, k: nat)
    requires k < |OctetsBits(octets)|
    ensures OctetsBits(octets)[k] == BitsOf(octets[k / OCTET], OCTET)[k % OCTET]
  {
    hide BitsOf;
    if k >= OCTET {
      BitOfOctets(octets[1..], k - OCTET);
    }
  }

  /** Above bit Width() the pattern has no ones. */
  lemma BeyondUndetected(g: Generator, n: nat, k: nat)
    requires g.Width() < k < OCTET * (|Undetected(g)| + n)
    ensures var e := Undetected(g) + ZeroOctets(n);
      e[k / OCTET] == 0 || (e[k / OCTET] == 1 && k % OCTET > 0)
  {
    if k / OCTET >= |Undetected(g)| {
      ZeroOctetsAre(n, k / OCTET - |Undetected(g)|);
    }
  }

  lemma {:induction false} ZeroOctetsAre(n: nat, i: nat)
    requires i < n
    ensures ZeroOctets(n)[i] == 0
  {
    if i > 0 {
      ZeroOctetsAre(n - 1, i - 1);
    }
  }

  /** Adding nothing, or bit 0 alone, leaves the bits above bit 0 as they are. */
  lemma OtherBits(x: Octet, y: Octet, r: nat)
    requires r < OCTET && (y == 0 || (y == 1 && r > 0))
    ensures BitsOf(XorOctet(x, y), OCTET)[r] == BitsOf(x, OCTET)[r]
  {
    if y == 0 {
      NothingAdded(x);
    } else {
      LowBitAdded(x);
    }
  }

  lemma NothingAdded(x: Octet)
    ensures XorOctet(x, 0) == x
  {
  }

  lemma LowBitAdded(x: Octet)
    ensures Half(XorOctet(x, 1)) == Half(x)
  {
  }

  lemma XorTwice(a: Octet, b: Octet)
    ensures XorOctet(XorOctet(a, b), b) == a && XorOctet(a, XorOctet(a, b)) == b
    ensures XorOctet(a, b) == a ==> b == 0
  {
  }

  function ZeroOctets(n: nat): (z: seq<Octet>)
    ensures |z| == n
  {
    if n == 0 then [] else [0] + ZeroOctets(n - 1)
  }

  lemma {:induction false} PaddingKeepsZero(g: Generator, a: seq<Octet>, n: nat)
    requires Crc(g, 0, a) == 0
    ensures Crc(g, 0, a + ZeroOctets(n)) == 0
    decreases n
  {
    hide Crc, TableStep;
    if n == 0 {
      assert a + [] == a;
    } else {
      CrcSnoc(g, 0, a, 0);
      ZeroStep(g);
      PaddingKeepsZero(g, a + [0], n - 1);
      assert (a + [0]) + ZeroOctets(n - 1) == a + ZeroOctets(n);
    }
  }

  lemma ZeroStep(g: Generator)
    ensures TableStep(g, 0, 0) == 0
  {
    TableStepShifts(g, 0, 0);
  }

  // ----- the code

  /** crc_itu16_calc and crc_itu32_calc. */
  method Calc(g: Generator, buf: array<Octet>, len: nat, crc: Register) returns (r: Register)
    requires len <= buf.Length
    ensures r == Crc(g, crc, buf[..len])
  {
    hide *;
    r := crc;
    CrcEmpty(g, crc, buf[..0]);
    var i := 0;
    while i < len
      invariant 0 <= i <= len && r == Crc(g, crc, buf[..i])
    {
      CrcSnoc(g, crc, buf[..i], buf[i]);
      assert buf[..i + 1] == buf[..i] + [buf[i]];
      r := TableStep(g, r, buf[i]);
      i := i + 1;
    }
  }

  lemma CrcEmpty(g: Generator, c: Register, octets: seq<Octet>)
    requires octets == []
    ensures Crc(g, c, octets) == c
  {
  }

  /** crc_itu16_bits: the low len bits of an octet, one at a time. */
  method CalcBits(octet: Octet, len: nat, crc: Register) returns (r: Register)
    ensures Word(r) == Feed(Itu16, Word(crc), BitsOf(octet, len))
  {
    r := crc;
    var buf := octet;
    var i := 0;
    while i < len
      invariant 0 <= i <= len
      invariant Feed(Itu16, Word(r), BitsOf(buf, len - i)) == Feed(Itu16, Word(crc), BitsOf(octet, len))
    {
      BitStep(r, buf);
      if (buf ^ (r & 0xFF) as Octet) & 1 == 1 {
        r := (r >> 1) ^ 0x8408;
      } else {
        r := r >> 1;
      }
      buf := buf >> 1;
      i := i + 1;
    }
  }

  lemma BitStep(c: Register, b: Octet)
    ensures Step(Itu16, Word(c), b & 1 == 1)
         == Word(if (b ^ (c & 0xFF) as Octet) & 1 == 1 then (c >> 1) ^ 0x8408 else c >> 1)
  {
  }

  /** crc_itu16_append and crc_itu32_append. */
  method Append(g: Generator, buf: array<Octet>, len: nat) returns (newLen: nat)
    requires len + g.Octets() <= buf.Length
    modifies buf
    ensures newLen == len + g.Octets()
    ensures buf[..newLen] == Framed(g, old(buf[..len]))
    ensures buf[newLen..] == old(buf[newLen..])
  {
    hide *;
    ghost var msg := buf[..len];
    var crc := Calc(g, buf, len, g.Ones());
    crc := crc ^ g.Ones();
    PutTail(g, buf, len, crc);
    newLen := len + g.Octets();
    assert buf[..newLen] == msg + buf[len..newLen];
    FramedParts(g, msg, crc);
  }

  /** The stores of the complemented CRC. */
  method PutTail(g: Generator, buf: array<Octet>, at: nat, crc: Register)
    requires at + g.Octets() <= buf.Length
    modifies buf
    ensures buf[at..at + g.Octets()] == Tail(g, crc)
    ensures forall k :: 0 <= k < buf.Length && !(at <= k < at + g.Octets()) ==> buf[k] == old(buf[k])
  {
    TailOctets(g, crc);
    hide Tail;
    buf[at] := (crc & 0xFF) as Octet;
    buf[at + 1] := ((crc >> 8) & 0xFF) as Octet;
    if g.Itu32? {
      buf[at + 2] := ((crc >> 16) & 0xFF) as Octet;
      buf[at + 3] := ((crc >> 24) & 0xFF) as Octet;
    }
  }

  lemma TailOctets(g: Generator, v: Register)
    ensures Tail(g, v)[0] == (v & 0xFF) as Octet && Tail(g, v)[1] == ((v >> 8) & 0xFF) as Octet
    ensures g.Itu32? ==> Tail(g, v)[2] == ((v >> 16) & 0xFF) as Octet && Tail(g, v)[3] == ((v >> 24) & 0xFF) as Octet
  {
  }

  lemma FramedParts(g: Generator, msg: seq<Octet>, v: Register)
    requires v == Crc(g, g.Ones(), msg) ^ g.Ones()
    ensures Framed(g, msg) == msg + Tail(g, v)
  {
  }

  /** crc_itu16_check and crc_itu32_check. */
  method Check(g: Generator, buf: array<Octet>, len: nat) returns (ok: bool)
    requires len <= buf.Length
    ensures ok == Accepted(g, buf[..len])
  {
    var crc := Calc(g, buf, len, g.Ones());
    ok := crc == g.Residue();
  }
}
