/** Bit strings: the two orders in which the sources send the bits of a number. */
module Bits {
  import opened Arith

  type byte = x: nat | x < 256

  const OCTET: nat := 8 // a byte's width; named, so that the verifier does not unroll the bits of every byte

  /** The low w bits of v, least significant first. */
  function Lsb(v: nat, w: nat): (s: seq<bool>)
    ensures |s| == w
  {
    if w == 0 then [] else [v % 2 == 1] + Lsb(v / 2, w - 1)
  }

  /** The low w bits of v, most significant first. */
  function Msb(v: nat, w: nat): (s: seq<bool>)
    ensures |s| == w
  {
    if w == 0 then [] else Msb(v / 2, w - 1) + [v % 2 == 1]
  }

  function Field(lsbFirst: bool, v: nat, w: nat): (s: seq<bool>)
    ensures |s| == w
  {
    if lsbFirst then Lsb(v, w) else Msb(v, w)
  }

  function BytesBits(lsbFirst: bool, bytes: seq<byte>): (s: seq<bool>)
    ensures |s| == OCTET * |bytes|
  {
    if bytes == [] then [] else Field(lsbFirst, bytes[0], OCTET) + BytesBits(lsbFirst, bytes[1..])
  }

  function Zeros(n: nat): (s: seq<bool>)
    ensures |s| == n
  {
    seq(n, _ => false)
  }

  function Ones(n: nat): (s: seq<bool>)
    ensures |s| == n
  {
    seq(n, _ => true)
  }

  /** Bitwise `|`. */
  function Or(a: nat, b: nat): nat {
    if a == 0 then b
    else 2 * Or(a / 2, b / 2) + (if a % 2 == 1 || b % 2 == 1 then 1 else 0)
  }

  // ----- numbers and their bits

  /** `a | (b << r)` is a sum when a lies below bit r. */
  lemma {:induction false} OrDisjoint(a: nat, b: nat, r: nat)
    requires a < Pow2(r)
    ensures Or(a, b * Pow2(r)) == a + b * Pow2(r)
  {
    if a == 0 {
    } else {
      var p := Pow2(r - 1);
      assert b * Pow2(r) == 2 * (b * p);
      OrDisjoint(a / 2, b, r - 1);
    }
  }

  /** A shift drops exactly the low field of a sum. */
  lemma {:induction false} ShrSum(v: nat, x: nat, r: nat)
    requires v < Pow2(r)
    ensures Shr(v + x * Pow2(r), r) == x
    ensures Low(v + x * Pow2(r), r) == v
  {
    if r == 0 {
    } else {
      var p := Pow2(r - 1);
      assert x * Pow2(r) == 2 * (x * p);
      ShrSum(v / 2, x, r - 1);
    }
  }

  /** Every number is its low field plus its shifted remainder. */
  lemma {:induction false} ShrLow(v: nat, r: nat)
    ensures Shr(v, r) >= 0
    ensures v == Low(v, r) + Shr(v, r) * Pow2(r)
  {
    if r == 0 {
    } else {
      ShrLow(v / 2, r - 1);
      var p, s := Pow2(r - 1), Shr(v, r);
      assert s * Pow2(r) == 2 * (s * p);
    }
  }

  lemma {:induction false} ShrRange(v: nat, a: nat, b: nat)
    requires v < Pow2(a + b)
    ensures 0 <= Shr(v, a) < Pow2(b)
  {
    if a == 0 {
    } else {
      ShrRange(v / 2, a - 1, b);
    }
  }

  lemma {:induction false} LsbSplit(v: nat, a: nat, b: nat)
    ensures Shr(v, a) >= 0
    ensures Lsb(v, a + b) == Lsb(v, a) + Lsb(Shr(v, a), b)
  {
    if a == 0 {
    } else {
      LsbSplit(v / 2, a - 1, b);
    }
  }

  lemma {:induction false} LsbLow(v: nat, w: nat)
    ensures Lsb(Low(v, w), w) == Lsb(v, w)
  {
    if w == 0 {
    } else {
      LsbLow(v / 2, w - 1);
    }
  }

  /** Adding a field above w bits appends its bits, least significant first. */
  lemma LsbAppend(v: nat, w: nat, x: nat, b: nat)
    requires v < Pow2(w)
    ensures Lsb(v + x * Pow2(w), w + b) == Lsb(v, w) + Lsb(x, b)
  {
    LsbSplit(v + x * Pow2(w), w, b);
    LsbLow(v + x * Pow2(w), w);
    ShrSum(v, x, w);
  }

  lemma {:induction false} MsbSplit(v: nat, a: nat, b: nat)
    ensures Shr(v, b) >= 0
    ensures Msb(v, a + b) == Msb(Shr(v, b), a) + Msb(v, b)
  {
    if b == 0 {
    } else {
      MsbSplit(v / 2, a, b - 1);
      assert Msb(v, a + b) == Msb(v / 2, a + b - 1) + [v % 2 == 1];
    }
  }

  /** The low w bits survive a register of n >= w bits. */
  lemma {:induction false} MsbLow(v: nat, w: nat, n: nat)
    requires w <= n
    ensures Msb(Low(v, n), w) == Msb(v, w)
  {
    if w == 0 {
    } else {
      MsbLow(v / 2, w - 1, n - 1);
    }
  }

  /** Shifting a field in below the old bits appends its bits, most significant first. */
  lemma MsbAppend(v: nat, w: nat, x: nat, b: nat)
    requires x < Pow2(b)
    ensures Msb(v * Pow2(b) + x, w + b) == Msb(v, w) + Msb(x, b)
  {
    var y := x + v * Pow2(b);
    MsbSplit(y, w, b);
    MsbLow(y, b, b);
    ShrSum(x, v, b);
  }

  lemma LsbDouble(half: nat, b: nat, w: nat)
    requires b < 2 && w > 0
    ensures Lsb(2 * half + b, w) == [b == 1] + Lsb(half, w - 1)
  {
  }

  lemma {:induction false} AllOnes(m: nat, n: nat)
    requires n <= m
    ensures Lsb(Pow2(m) - 1, n) == Ones(n)
    decreases n
  {
    if n > 0 {
      var p := Pow2(m - 1);
      assert (Pow2(m) - 1) / 2 == p - 1 && (Pow2(m) - 1) % 2 == 1;
      AllOnes(m - 1, n - 1);
      assert Ones(n) == [true] + Ones(n - 1);
    }
  }

  lemma {:induction false} LsbInjective(x: nat, y: nat, w: nat)
    requires x < Pow2(w) && y < Pow2(w)
    requires Lsb(x, w) == Lsb(y, w)
    ensures x == y
  {
    if w == 0 {
    } else {
      assert Lsb(x, w)[0] == Lsb(y, w)[0];
      assert Lsb(x, w)[1..] == Lsb(y, w)[1..];
      LsbInjective(x / 2, y / 2, w - 1);
    }
  }

  lemma {:induction false} MsbInjective(x: nat, y: nat, w: nat)
    requires x < Pow2(w) && y < Pow2(w)
    requires Msb(x, w) == Msb(y, w)
    ensures x == y
  {
    if w == 0 {
    } else {
      assert Msb(x, w)[w - 1] == Msb(y, w)[w - 1];
      assert Msb(x, w)[..w - 1] == Msb(y, w)[..w - 1];
      MsbInjective(x / 2, y / 2, w - 1);
    }
  }

  /** A field of w bits determines its value, in either order. */
  lemma FieldInjective(lsbFirst: bool, x: nat, y: nat, w: nat)
    requires x < Pow2(w) && y < Pow2(w)
    requires Field(lsbFirst, x, w) == Field(lsbFirst, y, w)
    ensures x == y
  {
    if lsbFirst {
      LsbInjective(x, y, w);
    } else {
      MsbInjective(x, y, w);
    }
  }

  lemma FieldLow(lsbFirst: bool, v: nat, w: nat)
    ensures Field(lsbFirst, Low(v, w), w) == Field(lsbFirst, v, w)
  {
    LsbLow(v, w);
    MsbLow(v, w, w);
  }

  // ----- shifting a field into a register from the top

  /** p moved up by n bits. */
  function Placed(p: nat, n: nat): nat {
    if n == 0 then p else 2 * Placed(p, n - 1)
  }

  lemma {:induction false} PlacedSum(x: nat, y: nat, n: nat)
    ensures Placed(x + y, n) == Placed(x, n) + Placed(y, n)
  {
    if n > 0 {
      PlacedSum(x, y, n - 1);
    }
  }

  lemma {:induction false} PlacedPow2(k: nat, n: nat)
    ensures Placed(Pow2(k), n) == Pow2(k + n) && Placed(0, n) == 0
  {
    if n > 0 {
      PlacedPow2(k, n - 1);
    }
  }

  lemma {:induction false} PlacedShr(p: nat, n: nat)
    ensures ShrNat(Placed(p, n), n) == p
  {
    if n > 0 {
      PlacedShr(p, n - 1);
    }
  }

  lemma {:induction false} PlacedBound(p: nat, k: nat, n: nat)
    requires p < Pow2(k)
    ensures Placed(p, n) < Pow2(k + n)
  {
    if n > 0 {
      PlacedBound(p, k, n - 1);
    }
  }

  /** One more bit of a field, least significant first, shifted into a register of w bits from the top. */
  lemma ShiftIn(p: nat, k: nat, bit: bool, w: nat)
    requires k < w
    ensures Placed(p, w - k) / 2 + (if bit then Pow2(w - 1) else 0)
         == Placed(p + (if bit then Pow2(k) else 0), w - 1 - k)
  {
    if bit {
      PlacedSum(p, Pow2(k), w - 1 - k);
      PlacedPow2(k, w - 1 - k);
    }
    hide Pow2;
  }

  /** The value of a field from its first k bits and the rest. */
  lemma LowStep(p: nat, k: nat, v: nat, n: nat)
    requires n > 0
    ensures p + Placed(Low(v, n), k)
         == p + (if v % 2 == 1 then Pow2(k) else 0) + Placed(Low(v / 2, n - 1), k + 1)
  {
    var l := Low(v / 2, n - 1);
    PlacedSum(v % 2, 2 * l, k);
    PlacedSum(l, l, k);
    PlacedPow2(0, k);
  }

  lemma Associate(a: seq<bool>, b: seq<bool>, c: seq<bool>)
    ensures (a + b) + c == a + (b + c)
  {
  }

  // ----- byte strings

  lemma BytesBitsFew(lsbFirst: bool, x: byte)
    ensures BytesBits(lsbFirst, []) == [] && BytesBits(lsbFirst, [x]) == Field(lsbFirst, x, OCTET)
  {
  }

  lemma {:induction false} BytesBitsAppend(lsbFirst: bool, a: seq<byte>, b: seq<byte>)
    ensures BytesBits(lsbFirst, a + b) == BytesBits(lsbFirst, a) + BytesBits(lsbFirst, b)
  {
    if a == [] {
      assert a + b == b;
    } else {
      assert (a + b)[1..] == a[1..] + b;
      BytesBitsAppend(lsbFirst, a[1..], b);
    }
  }

  lemma BytesBitsSnoc(lsbFirst: bool, a: seq<byte>, x: byte)
    ensures BytesBits(lsbFirst, a + [x]) == BytesBits(lsbFirst, a) + Field(lsbFirst, x, OCTET)
  {
    BytesBitsAppend(lsbFirst, a, [x]);
    assert BytesBits(lsbFirst, [x]) == Field(lsbFirst, x, OCTET);
  }

  /** How many bits are set. */
  function Weight(bits: seq<bool>): nat {
    if bits == [] then 0
    else Weight(bits[..|bits| - 1]) + if bits[|bits| - 1] then 1 else 0
  }

  lemma {:induction false} WeightOf(a: seq<bool>, b: seq<bool>)
    ensures Weight(a + b) == Weight(a) + Weight(b)
  {
    if b == [] {
      assert a + b == a;
    } else {
      WeightOf(a, b[..|b| - 1]);
      assert (a + b)[..|a + b| - 1] == a + b[..|b| - 1];
    }
  }

  lemma WeightSnoc(bits: seq<bool>, bit: bool)
    ensures Weight(bits + [bit]) == Weight(bits) + if bit then 1 else 0
  {
    assert (bits + [bit])[..|bits|] == bits;
  }
}
