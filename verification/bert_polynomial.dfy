/**
 * The algebra of the shift registers of src/bert.c: a polynomial over the two-element field acts on a register as the
 * sum of the successors that it selects, and a product of polynomials as one after the other.
 */
module BertPolynomial {
  import opened Bits
  import opened BertPattern

  // ----- registers as vectors

  function Zero(p: Preset): (r: seq<bool>)
    ensures IsRegister(p, r)
  {
    Zeros(p.Length())
  }

  function Plus(a: seq<bool>, b: seq<bool>): (r: seq<bool>)
    requires |a| == |b|
    ensures |r| == |a| && forall i :: 0 <= i < |r| ==> r[i] == (a[i] != b[i])
  {
    seq(|a|, i requires 0 <= i < |a| => a[i] != b[i])
  }

  lemma {:induction false} ZeroBits(n: nat)
    ensures forall i :: 0 <= i < n ==> !Zeros(n)[i]
  {
    if n > 0 {
      ZeroBits(n - 1);
    }
  }

  lemma PlusZero(p: Preset, a: seq<bool>)
    requires IsRegister(p, a)
    ensures Plus(a, Zero(p)) == a == Plus(Zero(p), a) && Plus(a, a) == Zero(p)
  {
    ZeroBits(p.Length());
  }

  lemma PlusFour(a: seq<bool>, b: seq<bool>, c: seq<bool>, d: seq<bool>)
    requires |a| == |b| == |c| == |d|
    ensures Plus(Plus(a, b), Plus(c, d)) == Plus(Plus(a, c), Plus(b, d))
  {
  }

  /** The shift register is linear. */
  lemma NextPlus(p: Preset, a: seq<bool>, b: seq<bool>)
    requires IsRegister(p, a) && IsRegister(p, b)
    ensures Next(p, Plus(a, b)) == Plus(Next(p, a), Next(p, b))
  {
  }

  lemma NextZero(p: Preset)
    ensures Next(p, Zero(p)) == Zero(p)
  {
    ZeroBits(p.Length());
  }

  lemma AdvanceOne(p: Preset, r: seq<bool>)
    requires IsRegister(p, r)
    ensures Advance(p, r, 1) == Next(p, r) && Advance(p, r, 0) == r
  {
    assert Advance(p, r, 1) == Next(p, Advance(p, r, 0));
  }

  lemma {:induction false} AdvanceNext(p: Preset, r: seq<bool>, n: nat)
    requires IsRegister(p, r)
    ensures Advance(p, Next(p, r), n) == Next(p, Advance(p, r, n)) == Advance(p, r, n + 1)
  {
    AdvanceOne(p, r);
    AdvanceTwice(p, r, 1, n);
  }

  /** The generator polynomial. */
  lemma LengthSteps(p: Preset, r: seq<bool>)
    requires IsRegister(p, r)
    ensures Advance(p, r, p.Length()) == Plus(Advance(p, r, p.Shift()), r)
  {
    hide Advance, Next;
    forall i | 0 <= i < p.Length()
      ensures Advance(p, r, p.Length())[i] == Plus(Advance(p, r, p.Shift()), r)[i]
    {
      AdvanceOne(p, r);
      RegisterHoldsPattern(p, r, p.Length(), i);
      RegisterHoldsPattern(p, r, p.Shift(), i);
      RegisterHoldsPattern(p, r, 0, i);
      PatternRecurs(p, r, i);
    }
  }

  // ----- polynomials over the two-element field

  /** Bit i is the coefficient of x^i. The word is wrapped so that proofs about sums need no word arithmetic. */
  datatype Poly = Poly(bits: bv32)

  /** How many coefficients there are, up to the first that is not zero. */
  function Size(bits: bv32): nat
    decreases bits
  {
    if bits == 0 then 0 else Size(bits >> 1) + 1
  }

  predicate Null(x: Poly) {
    x.bits == 0
  }

  predicate OddBits(bits: bv32) {
    bits & 1 == 1
  }

  function HalfBits(bits: bv32): bv32 {
    bits >> 1
  }

  function XorBits(a: bv32, b: bv32): bv32 {
    a ^ b
  }

  predicate Odd(x: Poly) {
    OddBits(x.bits)
  }

  function Half(x: Poly): (h: Poly)
    ensures !Null(x) ==> Size(h.bits) < Size(x.bits)
  {
    Poly(HalfBits(x.bits))
  }

  function Xor(x: Poly, y: Poly): Poly {
    Poly(XorBits(x.bits, y.bits))
  }

  /** The sum of the successors of r that x selects. */
  function Apply(p: Preset, x: Poly, r: seq<bool>): (s: seq<bool>)
    requires IsRegister(p, r)
    ensures IsRegister(p, s)
    decreases Size(x.bits)
  {
    if Null(x) then Zero(p) else Plus(if Odd(x) then r else Zero(p), Apply(p, Half(x), Next(p, r)))
  }

  lemma {:induction false} ApplyPlus(p: Preset, x: Poly, a: seq<bool>, b: seq<bool>)
    requires IsRegister(p, a) && IsRegister(p, b)
    ensures Apply(p, x, Plus(a, b)) == Plus(Apply(p, x, a), Apply(p, x, b))
    decreases Size(x.bits)
  {
    hide Odd, HalfBits, Size, Plus, Zero, Next;
    PlusZero(p, Zero(p));
    if !Null(x) {
      ApplyPlus(p, Half(x), Next(p, a), Next(p, b));
      NextPlus(p, a, b);
      PlusFour(if Odd(x) then a else Zero(p), if Odd(x) then b else Zero(p),
               Apply(p, Half(x), Next(p, a)), Apply(p, Half(x), Next(p, b)));
    }
  }

  lemma {:induction false} ApplyZero(p: Preset, x: Poly)
    ensures Apply(p, x, Zero(p)) == Zero(p)
    decreases Size(x.bits)
  {
    hide Odd, HalfBits, Size, Plus, Zero, Next;
    PlusZero(p, Zero(p));
    NextZero(p);
    if !Null(x) {
      ApplyZero(p, Half(x));
    }
  }

  lemma {:induction false} ApplyNext(p: Preset, x: Poly, r: seq<bool>)
    requires IsRegister(p, r)
    ensures Apply(p, x, Next(p, r)) == Next(p, Apply(p, x, r))
    decreases Size(x.bits)
  {
    hide Odd, HalfBits, Size, Plus, Zero, Next;
    NextZero(p);
    if !Null(x) {
      ApplyNext(p, Half(x), Next(p, r));
      NextPlus(p, if Odd(x) then r else Zero(p), Apply(p, Half(x), Next(p, r)));
    }
  }

  lemma XorHalf(x: Poly, y: Poly)
    ensures Half(Xor(x, y)) == Xor(Half(x), Half(y)) && Odd(Xor(x, y)) == (Odd(x) != Odd(y))
    ensures Null(x) ==> Xor(x, y) == y
  {
    hide HalfBits, XorBits, OddBits, Size;
    XorOfBits(x.bits, y.bits);
  }

  lemma XorOfBits(a: bv32, b: bv32)
    ensures HalfBits(XorBits(a, b)) == XorBits(HalfBits(a), HalfBits(b))
    ensures OddBits(XorBits(a, b)) == (OddBits(a) != OddBits(b))
    ensures a == 0 ==> XorBits(a, b) == b
  {
    hide Size;
  }

  lemma {:induction false} ApplyXor(p: Preset, x: Poly, y: Poly, r: seq<bool>)
    requires IsRegister(p, r)
    ensures Apply(p, Xor(x, y), r) == Plus(Apply(p, x, r), Apply(p, y, r))
    decreases Size(x.bits)
  {
    hide Odd, HalfBits, Size, Xor, Plus, Zero, Next;
    XorHalf(x, y);
    if Null(x) {
      PlusZero(p, Apply(p, y, r));
    } else {
      ApplyXor(p, Half(x), Half(y), Next(p, r));
      ApplySplit(p, x, r);
      ApplySplit(p, y, r);
      ApplySplit(p, Xor(x, y), r);
      Coefficient(p, Odd(x), Odd(y), r);
      PlusFour(if Odd(x) then r else Zero(p), Apply(p, Half(x), Next(p, r)),
               if Odd(y) then r else Zero(p), Apply(p, Half(y), Next(p, r)));
    }
  }

  lemma Coefficient(p: Preset, a: bool, b: bool, r: seq<bool>)
    requires IsRegister(p, r)
    ensures (if a != b then r else Zero(p)) == Plus(if a then r else Zero(p), if b then r else Zero(p))
  {
    PlusZero(p, r);
    PlusZero(p, Zero(p));
  }

  /** The definition of Apply holds for zero too. */
  lemma ApplySplit(p: Preset, x: Poly, r: seq<bool>)
    requires IsRegister(p, r)
    ensures Apply(p, x, r) == Plus(if Odd(x) then r else Zero(p), Apply(p, Half(x), Next(p, r)))
  {
    hide Size, Plus, Zero, Next;
    if Null(x) {
      NullHalf(x);
      PlusZero(p, Zero(p));
    }
  }

  lemma NullHalf(x: Poly)
    requires Null(x)
    ensures !Odd(x) && Null(Half(x))
  {
    hide Size;
  }

  // ----- products

  lemma OfNothing(p: Preset, r: seq<bool>)
    requires IsRegister(p, r)
    ensures Apply(p, Poly(0), r) == Zero(p) && Apply(p, Poly(1), r) == r
  {
    hide Plus, Zero, Next, Size;
    assert Half(Poly(1)) == Poly(0);
    PlusZero(p, r);
  }

  /** A power of x. */
  predicate IsPower(x: Poly, n: nat)
    decreases n
  {
    if n == 0 then x.bits == 1 else !Odd(x) && IsPower(Half(x), n - 1)
  }

  lemma {:induction false} ApplyPower(p: Preset, x: Poly, n: nat, r: seq<bool>)
    requires IsRegister(p, r) && IsPower(x, n)
    ensures Apply(p, x, r) == Advance(p, r, n)
    decreases n
  {
    hide Odd, HalfBits, Size, Plus, Zero, Next, Apply, Advance;
    AdvanceOne(p, r);
    if n == 0 {
      OfNothing(p, r);
    } else {
      ApplySplit(p, x, r);
      ApplyPower(p, Half(x), n - 1, Next(p, r));
      PlusZero(p, Advance(p, Next(p, r), n - 1));
      AdvanceNext(p, r, n - 1);
    }
  }

  // ----- products modulo the generator polynomial

  /** x^Length + x^Shift + 1. */
  function Generator(p: Preset): bv32 {
    match p
    case ItuO151Pattern23 => 0x80_0021
    case ItuO151Pattern15 => 0x8003
    case ItuO152Pattern11 => 0x805
    case ItuO153Pattern9 => 0x211
  }

  /** x^(Length - 1). */
  function Top(p: Preset): bv32 {
    match p
    case ItuO151Pattern23 => 0x40_0000
    case ItuO151Pattern15 => 0x4000
    case ItuO152Pattern11 => 0x400
    case ItuO153Pattern9 => 0x100
  }

  /** x^Length. */
  function Limit(p: Preset): bv32 {
    match p
    case ItuO151Pattern23 => 0x80_0000
    case ItuO151Pattern15 => 0x8000
    case ItuO152Pattern11 => 0x800
    case ItuO153Pattern9 => 0x200
  }

  predicate ReducedBits(p: Preset, x: bv32) {
    x < Limit(p)
  }

  function DoubledBits(x: bv32): bv32 {
    x << 1
  }

  /** x times a polynomial: t is the coefficient before that of the generator polynomial g. */
  function TimesBits(t: bv32, g: bv32, x: bv32): bv32 {
    if x & t != 0 then XorBits(DoubledBits(x), g) else DoubledBits(x)
  }

  /** Of a degree below Length. */
  predicate Reduced(p: Preset, x: Poly) {
    ReducedBits(p, x.bits)
  }

  function Doubled(x: Poly): Poly {
    Poly(DoubledBits(x.bits))
  }

  /** x times a polynomial. */
  function Times(p: Preset, x: Poly): Poly {
    Poly(TimesBits(Top(p), Generator(p), x.bits))
  }

  lemma PowersOf()
    ensures IsPower(Poly(1), 0) && IsPower(Poly(0x80_0000), 23) && IsPower(Poly(0x8000), 15) && IsPower(Poly(0x800), 11)
    ensures IsPower(Poly(0x200), 9) && IsPower(Poly(0x20), 5) && IsPower(Poly(2), 1) && IsPower(Poly(4), 2)
    ensures IsPower(Poly(0x10), 4)
  {
    hide Size;
    assert IsPower(Poly(2), 1);
    assert IsPower(Poly(4), 2);
    assert IsPower(Poly(0x10), 4);
    assert IsPower(Poly(0x20), 5);
    assert IsPower(Poly(0x80), 7);
    assert IsPower(Poly(0x200), 9);
    assert IsPower(Poly(0x800), 11);
    assert IsPower(Poly(0x2000), 13);
    assert IsPower(Poly(0x8000), 15);
    assert IsPower(Poly(0x2_0000), 17);
    assert IsPower(Poly(0x8_0000), 19);
    assert IsPower(Poly(0x20_0000), 21);
    assert IsPower(Poly(0x80_0000), 23);
  }

  /** The generator polynomial takes every register to zero. */
  lemma GeneratorIsZero(p: Preset, r: seq<bool>)
    requires IsRegister(p, r)
    ensures Apply(p, Poly(Generator(p)), r) == Zero(p)
  {
    hide Size, Plus, Zero, Apply, Advance, HalfBits, IsPower;
    PowersOf();
    var (high, middle) := match p
      case ItuO151Pattern23 => (Poly(0x80_0000), Poly(0x20))
      case ItuO151Pattern15 => (Poly(0x8000), Poly(2))
      case ItuO152Pattern11 => (Poly(0x800), Poly(4))
      case ItuO153Pattern9 => (Poly(0x200), Poly(0x10));
    ApplyPower(p, high, p.Length(), r);
    ApplyPower(p, middle, p.Shift(), r);
    OfNothing(p, r);
    ApplyXor(p, middle, Poly(1), r);
    ApplyXor(p, high, Xor(middle, Poly(1)), r);
    assert Poly(Generator(p)) == Xor(high, Xor(middle, Poly(1)));
    LengthSteps(p, r);
    PlusZero(p, Advance(p, r, p.Length()));
  }

  lemma DoubledIs(x: bv32)
    requires x < 0x8000_0000
    ensures !OddBits(DoubledBits(x)) && HalfBits(DoubledBits(x)) == x
  {
    hide Size;
  }

  lemma Times23(x: bv32)
    requires x < 0x800000
    ensures x < 0x8000_0000
    ensures (if x & 0x400000 != 0 then XorBits(DoubledBits(x), 0x800021) else DoubledBits(x)) < 0x800000
  {
  }

  lemma Times15(x: bv32)
    requires x < 0x8000
    ensures x < 0x8000_0000
    ensures (if x & 0x4000 != 0 then XorBits(DoubledBits(x), 0x8003) else DoubledBits(x)) < 0x8000
  {
  }

  lemma Times11(x: bv32)
    requires x < 0x800
    ensures x < 0x8000_0000
    ensures (if x & 0x400 != 0 then XorBits(DoubledBits(x), 0x805) else DoubledBits(x)) < 0x800
  {
  }

  lemma Times9(x: bv32)
    requires x < 0x200
    ensures x < 0x8000_0000
    ensures (if x & 0x100 != 0 then XorBits(DoubledBits(x), 0x211) else DoubledBits(x)) < 0x200
  {
  }

  lemma TimesReduced(p: Preset, x: bv32)
    requires ReducedBits(p, x)
    ensures ReducedBits(p, TimesBits(Top(p), Generator(p), x)) && x < 0x8000_0000
  {
    hide XorBits, DoubledBits;
    match p {
      case ItuO151Pattern23 => Times23(x);
      case ItuO151Pattern15 => Times15(x);
      case ItuO152Pattern11 => Times11(x);
      case ItuO153Pattern9 => Times9(x);
    }
  }

  lemma TimesIs(p: Preset, x: Poly)
    requires Reduced(p, x)
    ensures !Odd(Doubled(x)) && Half(Doubled(x)) == x && Reduced(p, Times(p, x))
    ensures Times(p, x) == Doubled(x) || Times(p, x) == Xor(Doubled(x), Poly(Generator(p)))
  {
    hide Size, OddBits, HalfBits, XorBits, DoubledBits, ReducedBits, Generator, Top;
    TimesReduced(p, x.bits);
    DoubledIs(x.bits);
  }

  lemma ApplyTimes(p: Preset, x: Poly, r: seq<bool>)
    requires IsRegister(p, r) && Reduced(p, x)
    ensures Apply(p, Times(p, x), r) == Apply(p, x, Next(p, r)) && Reduced(p, Times(p, x))
  {
    hide Odd, Half, Size, Plus, Zero, Next, Apply, Doubled, Times, Reduced, Generator, Xor;
    TimesIs(p, x);
    ApplySplit(p, Doubled(x), r);
    PlusZero(p, Apply(p, x, Next(p, r)));
    GeneratorIsZero(p, r);
    ApplyXor(p, Doubled(x), Poly(Generator(p)), r);
  }

  /** z acts as x and y do together. */
  ghost predicate Acts(p: Preset, x: Poly, y: Poly, z: Poly) {
    forall r {:trigger Apply(p, z, r)} :: IsRegister(p, r) ==> Apply(p, z, r) == Apply(p, x, Apply(p, y, r))
  }

  /** z is the product of x and y. */
  ghost predicate IsProduct(p: Preset, x: Poly, y: Poly, z: Poly) {
    Reduced(p, x) && Reduced(p, z) && Acts(p, x, y, z)
  }

  /** One more coefficient of the second factor. */
  function StepBits(t: bv32, g: bv32, x: bv32, y: bv32, z: bv32): bv32 {
    XorBits(if OddBits(y) then x else 0, TimesBits(t, g, z))
  }

  function Step(p: Preset, x: Poly, y: Poly, z: Poly): Poly {
    Poly(StepBits(Top(p), Generator(p), x.bits, y.bits, z.bits))
  }

  lemma StepReduced(p: Preset, x: Poly, y: Poly, z: Poly)
    requires Reduced(p, x) && Reduced(p, z)
    ensures Reduced(p, Step(p, x, y, z))
  {
    hide Size, OddBits, ReducedBits, XorBits, TimesBits;
    TimesIs(p, z);
    match p {
      case ItuO151Pattern23 => Xor23(if Odd(y) then x.bits else 0, TimesBits(Top(p), Generator(p), z.bits));
      case ItuO151Pattern15 => Xor15(if Odd(y) then x.bits else 0, TimesBits(Top(p), Generator(p), z.bits));
      case ItuO152Pattern11 => Xor11(if Odd(y) then x.bits else 0, TimesBits(Top(p), Generator(p), z.bits));
      case ItuO153Pattern9 => Xor9(if Odd(y) then x.bits else 0, TimesBits(Top(p), Generator(p), z.bits));
    }
  }

  lemma Xor23(x: bv32, y: bv32)
    requires ReducedBits(ItuO151Pattern23, y) && (x == 0 || ReducedBits(ItuO151Pattern23, x))
    ensures ReducedBits(ItuO151Pattern23, XorBits(x, y))
  {
  }

  lemma Xor15(x: bv32, y: bv32)
    requires ReducedBits(ItuO151Pattern15, y) && (x == 0 || ReducedBits(ItuO151Pattern15, x))
    ensures ReducedBits(ItuO151Pattern15, XorBits(x, y))
  {
  }

  lemma Xor11(x: bv32, y: bv32)
    requires ReducedBits(ItuO152Pattern11, y) && (x == 0 || ReducedBits(ItuO152Pattern11, x))
    ensures ReducedBits(ItuO152Pattern11, XorBits(x, y))
  {
  }

  lemma Xor9(x: bv32, y: bv32)
    requires ReducedBits(ItuO153Pattern9, y) && (x == 0 || ReducedBits(ItuO153Pattern9, x))
    ensures ReducedBits(ItuO153Pattern9, XorBits(x, y))
  {
  }

  lemma Selected(p: Preset, x: Poly, b: bool, r: seq<bool>)
    requires IsRegister(p, r)
    ensures Apply(p, if b then x else Poly(0), r) == Apply(p, x, if b then r else Zero(p))
  {
    hide *;
    OfNothing(p, r);
    ApplyZero(p, x);
  }

  lemma StepAt(p: Preset, x: Poly, y: Poly, z: Poly, r: seq<bool>)
    requires IsRegister(p, r) && Reduced(p, z)
    requires Apply(p, z, Next(p, r)) == Apply(p, x, Apply(p, Half(y), Next(p, r)))
    ensures Apply(p, Step(p, x, y, z), r) == Apply(p, x, Apply(p, y, r))
  {
    hide OddBits, Half, Size, Plus, Zero, Next, Apply, Reduced, XorBits, TimesBits;
    ApplyTimes(p, z, r);
    ApplyXor(p, if Odd(y) then x else Poly(0), Times(p, z), r);
    Selected(p, x, Odd(y), r);
    ApplySplit(p, y, r);
    ApplyPlus(p, x, if Odd(y) then r else Zero(p), Apply(p, Half(y), Next(p, r)));
  }

  lemma StepActs(p: Preset, x: Poly, y: Poly, z: Poly)
    requires Reduced(p, z) && Acts(p, x, Half(y), z)
    ensures Acts(p, x, y, Step(p, x, y, z))
  {
    hide Half, Size, Next, Apply, Reduced, Step;
    forall r | IsRegister(p, r) {
      StepAt(p, x, y, z, r);
    }
  }

  lemma StepIs(p: Preset, x: Poly, y: Poly, z: Poly)
    requires IsProduct(p, x, Half(y), z)
    ensures IsProduct(p, x, y, Step(p, x, y, z))
  {
    hide Half, Acts, Step, Reduced;
    StepReduced(p, x, y, z);
    StepActs(p, x, y, z);
  }

  function Step4(t: bv32, g: bv32, x: bv32, y: bv32, z: bv32): bv32 {
    var (a, b, c) := (HalfBits(y), HalfBits(HalfBits(y)), HalfBits(HalfBits(HalfBits(y))));
    StepBits(t, g, x, y, StepBits(t, g, x, a, StepBits(t, g, x, b, StepBits(t, g, x, c, z))))
  }

  function Drop4(y: bv32): bv32 {
    HalfBits(HalfBits(HalfBits(HalfBits(y))))
  }

  lemma Step4Is(p: Preset, x: bv32, y: bv32, z: bv32)
    requires IsProduct(p, Poly(x), Poly(Drop4(y)), Poly(z))
    ensures IsProduct(p, Poly(x), Poly(y), Poly(Step4(Top(p), Generator(p), x, y, z)))
  {
    hide StepBits, HalfBits, IsProduct, Top, Generator;
    var (t, g) := (Top(p), Generator(p));
    var (a, b, c) := (HalfBits(y), HalfBits(HalfBits(y)), HalfBits(HalfBits(HalfBits(y))));
    var k := StepBits(t, g, x, c, z);
    var l := StepBits(t, g, x, b, k);
    StepIs(p, Poly(x), Poly(c), Poly(z));
    StepIs(p, Poly(x), Poly(b), Poly(k));
    StepIs(p, Poly(x), Poly(a), Poly(l));
    StepIs(p, Poly(x), Poly(y), Poly(StepBits(t, g, x, a, l)));
  }

  function Step12(t: bv32, g: bv32, x: bv32, y: bv32, z: bv32): bv32 {
    Step4(t, g, x, y, Step4(t, g, x, Drop4(y), Step4(t, g, x, Drop4(Drop4(y)), z)))
  }

  function Drop12(y: bv32): bv32 {
    Drop4(Drop4(Drop4(y)))
  }

  lemma Step12Is(p: Preset, x: bv32, y: bv32, z: bv32)
    requires IsProduct(p, Poly(x), Poly(Drop12(y)), Poly(z))
    ensures IsProduct(p, Poly(x), Poly(y), Poly(Step12(Top(p), Generator(p), x, y, z)))
  {
    hide Step4, Drop4, IsProduct, Top, Generator;
    var (t, g) := (Top(p), Generator(p));
    Step4Is(p, x, Drop4(Drop4(y)), z);
    Step4Is(p, x, Drop4(y), Step4(t, g, x, Drop4(Drop4(y)), z));
    Step4Is(p, x, y, Step4(t, g, x, Drop4(y), Step4(t, g, x, Drop4(Drop4(y)), z)));
  }

  /** The product, for the 24 coefficients that a factor can have. */
  function Mul(t: bv32, g: bv32, x: bv32, y: bv32): bv32 {
    Step12(t, g, x, y, Step12(t, g, x, Drop12(y), 0))
  }

  lemma MulIs(p: Preset, x: bv32, y: bv32)
    requires Reduced(p, Poly(x)) && Reduced(p, Poly(y))
    ensures IsProduct(p, Poly(x), Poly(y), Poly(Mul(Top(p), Generator(p), x, y)))
  {
    hide Step12, Drop12, IsProduct, Reduced, Top, Generator;
    var (t, g) := (Top(p), Generator(p));
    AllDropped(p, y);
    NoProduct(p, x);
    Step12Is(p, x, Drop12(y), 0);
    Step12Is(p, x, y, Step12(t, g, x, Drop12(y), 0));
  }

  lemma NoProduct(p: Preset, x: bv32)
    requires Reduced(p, Poly(x))
    ensures IsProduct(p, Poly(x), Poly(0), Poly(0))
  {
    hide Apply, Reduced, Zero, Plus, Next, Size;
    NothingReduced(p);
    ApplyZero(p, Poly(x));
    forall r | IsRegister(p, r)
      ensures Apply(p, Poly(0), r) == Apply(p, Poly(x), Apply(p, Poly(0), r))
    {
      OfNothing(p, r);
    }
  }

  lemma NothingReduced(p: Preset)
    ensures Reduced(p, Poly(0)) && Reduced(p, Poly(1))
  {
  }

  lemma Drop4Is(x: bv32)
    ensures Drop4(x) == x >> 4
  {
  }

  lemma Sixfold(x: bv32, a: bv32, b: bv32, c: bv32, d: bv32, e: bv32, f: bv32)
    requires x < 0x100_0000 && a == x >> 4 && b == a >> 4 && c == b >> 4 && d == c >> 4 && e == d >> 4 && f == e >> 4
    ensures f == 0
  {
  }

  lemma AllDropped(p: Preset, y: bv32)
    requires Reduced(p, Poly(y))
    ensures Drop12(Drop12(y)) == 0
  {
    hide Drop4;
    var a := Drop4(y);
    var b := Drop4(a);
    var c := Drop4(b);
    var d := Drop4(c);
    var e := Drop4(d);
    Drop4Is(y);
    Drop4Is(a);
    Drop4Is(b);
    Drop4Is(c);
    Drop4Is(d);
    Drop4Is(e);
    Sixfold(y, a, b, c, d, e, Drop4(e));
  }
}
