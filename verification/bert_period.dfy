/**
 * The test patterns of src/bert.c are of maximal length: a register of n bits that is not zero repeats after 2^n - 1
 * steps, and not before, so that it runs through all its values but zero.
 */
module BertPeriod {
  import opened Arith
  import opened Bits
  import opened BertPattern
  import opened BertPolynomial
  import opened Divisibility

  // ----- powers of x

  /** w is x^e, modulo the generator polynomial. */
  ghost predicate IsXTo(p: Preset, e: nat, w: bv32) {
    && Reduced(p, Poly(w))
    && forall r {:trigger Apply(p, Poly(w), r)} :: IsRegister(p, r) ==> Apply(p, Poly(w), r) == Advance(p, r, e)
  }

  lemma StartsAtOne(p: Preset)
    ensures IsXTo(p, 1, 2)
  {
    hide Apply, Advance, Next, HalfBits, OddBits, Size;
    ByOne();
    forall r | IsRegister(p, r)
      ensures Apply(p, Poly(2), r) == Advance(p, r, 1)
    {
      ApplyPower(p, Poly(2), 1, r);
    }
  }

  lemma ByOne()
    ensures IsPower(Poly(2), 1)
  {
    hide Size;
  }

  lemma Adds(p: Preset, e: nat, w: bv32, f: nat, v: bv32, u: bv32)
    requires IsXTo(p, e, w) && IsXTo(p, f, v) && u == Mul(Top(p), Generator(p), w, v)
    ensures IsXTo(p, f + e, u)
  {
    hide Mul, Apply, Reduced, Next, Top, Generator, Advance;
    MulIs(p, w, v);
    forall r | IsRegister(p, r)
      ensures Apply(p, Poly(u), r) == Advance(p, r, f + e)
    {
      AdvanceTwice(p, r, f, e);
    }
  }

  lemma Doubles(p: Preset, e: nat, w: bv32, u: bv32)
    requires IsXTo(p, e, w) && u == Mul(Top(p), Generator(p), w, w)
    ensures IsXTo(p, 2 * e, u)
  {
    hide *;
    Adds(p, e, w, e, w, u);
  }

  lemma DoublesAndOne(p: Preset, e: nat, w: bv32, u: bv32)
    requires IsXTo(p, e, w) && u == TimesBits(Top(p), Generator(p), Mul(Top(p), Generator(p), w, w))
    ensures IsXTo(p, 2 * e + 1, u)
  {
    hide TimesBits, Mul, Apply, Reduced, Next, Top, Generator, Advance;
    var v := Mul(Top(p), Generator(p), w, w);
    Doubles(p, e, w, v);
    ApplyTimes(p, Poly(v), Zero(p));
    forall r | IsRegister(p, r)
      ensures Apply(p, Poly(u), r) == Advance(p, r, 2 * e + 1)
    {
      ApplyTimes(p, Poly(v), r);
      AdvanceNext(p, r, 2 * e);
    }
  }

  // For each preset, repeated squaring on the way to 2^n - 1, and to its quotients by its prime factors.

  lemma X23To87()
    ensures IsXTo(ItuO151Pattern23, 87, 0x4_8001)
  {
    hide IsXTo;
    StartsAtOne(ItuO151Pattern23);
    Doubles(ItuO151Pattern23, 1, 0x2, 0x4);
    DoublesAndOne(ItuO151Pattern23, 2, 0x4, 0x20);
    Doubles(ItuO151Pattern23, 5, 0x20, 0x400);
    DoublesAndOne(ItuO151Pattern23, 10, 0x400, 0x20_0000);
    DoublesAndOne(ItuO151Pattern23, 21, 0x20_0000, 0x10_0084);
    DoublesAndOne(ItuO151Pattern23, 43, 0x10_0084, 0x4_8001);
  }

  lemma X23To5577()
    ensures IsXTo(ItuO151Pattern23, 5577, 0x14_D07D)
  {
    hide IsXTo;
    X23To87();
    Doubles(ItuO151Pattern23, 87, 0x4_8001, 0x4_3081);
    Doubles(ItuO151Pattern23, 174, 0x4_3081, 0x4_614B);
    DoublesAndOne(ItuO151Pattern23, 348, 0x4_614B, 0xA_6ADA);
    Doubles(ItuO151Pattern23, 697, 0xA_6ADA, 0x55_DC6C);
    Doubles(ItuO151Pattern23, 1394, 0x55_DC6C, 0x36_63BA);
    DoublesAndOne(ItuO151Pattern23, 2788, 0x36_63BA, 0x14_D07D);
  }

  lemma X23To178481()
    ensures IsXTo(ItuO151Pattern23, 178481, 0x7E_D6FA)
  {
    hide IsXTo;
    X23To5577();
    DoublesAndOne(ItuO151Pattern23, 5577, 0x14_D07D, 0xC_4347);
    Doubles(ItuO151Pattern23, 11155, 0xC_4347, 0x11_B435);
    Doubles(ItuO151Pattern23, 22310, 0x11_B435, 0x52_56DB);
    Doubles(ItuO151Pattern23, 44620, 0x52_56DB, 0x77_5C2F);
    DoublesAndOne(ItuO151Pattern23, 89240, 0x77_5C2F, 0x7E_D6FA);
  }

  lemma X23To47()
    ensures IsXTo(ItuO151Pattern23, 47, 0x802)
  {
    hide IsXTo;
    StartsAtOne(ItuO151Pattern23);
    Doubles(ItuO151Pattern23, 1, 0x2, 0x4);
    DoublesAndOne(ItuO151Pattern23, 2, 0x4, 0x20);
    DoublesAndOne(ItuO151Pattern23, 5, 0x20, 0x800);
    DoublesAndOne(ItuO151Pattern23, 11, 0x800, 0x21);
    DoublesAndOne(ItuO151Pattern23, 23, 0x21, 0x802);
  }

  lemma X23To3926582()
    ensures IsXTo(ItuO151Pattern23, 3926582, 0x40_F01D)
  {
    hide IsXTo;
    X23To178481();
    Doubles(ItuO151Pattern23, 178481, 0x7E_D6FA, 0x6B_E8EC);
    Doubles(ItuO151Pattern23, 356962, 0x6B_E8EC, 0x79_8AB2);
    Adds(ItuO151Pattern23, 178481, 0x7E_D6FA, 713924, 0x79_8AB2, 0x29_A70F);
    Doubles(ItuO151Pattern23, 892405, 0x29_A70F, 0xD_D39F);
    Adds(ItuO151Pattern23, 178481, 0x7E_D6FA, 1784810, 0xD_D39F, 0xC_2ED7);
    Doubles(ItuO151Pattern23, 1963291, 0xC_2ED7, 0x40_F01D);
  }

  lemma X23To8388607()
    ensures IsXTo(ItuO151Pattern23, 8388607, 0x1)
  {
    hide IsXTo;
    X23To3926582();
    X23To178481();
    Adds(ItuO151Pattern23, 178481, 0x7E_D6FA, 3926582, 0x40_F01D, 0x35_5AA9);
    Doubles(ItuO151Pattern23, 4105063, 0x35_5AA9, 0xA_2261);
    Adds(ItuO151Pattern23, 178481, 0x7E_D6FA, 8210126, 0xA_2261, 0x1);
  }

  lemma X15To73()
    ensures IsXTo(ItuO151Pattern15, 73, 0x200C)
  {
    hide IsXTo;
    StartsAtOne(ItuO151Pattern15);
    Doubles(ItuO151Pattern15, 1, 0x2, 0x4);
    Doubles(ItuO151Pattern15, 2, 0x4, 0x10);
    DoublesAndOne(ItuO151Pattern15, 4, 0x10, 0x200);
    Doubles(ItuO151Pattern15, 9, 0x200, 0x18);
    Doubles(ItuO151Pattern15, 18, 0x18, 0x140);
    DoublesAndOne(ItuO151Pattern15, 36, 0x140, 0x200C);
  }

  lemma X15To4681()
    ensures IsXTo(ItuO151Pattern15, 4681, 0x1632)
  {
    hide IsXTo;
    X15To73();
    Doubles(ItuO151Pattern15, 73, 0x200C, 0x1850);
    Doubles(ItuO151Pattern15, 146, 0x1850, 0x1680);
    DoublesAndOne(ItuO151Pattern15, 292, 0x1680, 0xCF3);
    Doubles(ItuO151Pattern15, 585, 0xCF3, 0x54E5);
    Doubles(ItuO151Pattern15, 1170, 0x54E5, 0x3271);
    DoublesAndOne(ItuO151Pattern15, 2340, 0x3271, 0x1632);
  }

  lemma X15To66()
    ensures IsXTo(ItuO151Pattern15, 66, 0x440)
  {
    hide IsXTo;
    StartsAtOne(ItuO151Pattern15);
    Doubles(ItuO151Pattern15, 1, 0x2, 0x4);
    Doubles(ItuO151Pattern15, 2, 0x4, 0x10);
    Doubles(ItuO151Pattern15, 4, 0x10, 0x100);
    Doubles(ItuO151Pattern15, 8, 0x100, 0x6);
    DoublesAndOne(ItuO151Pattern15, 16, 0x6, 0x28);
    Doubles(ItuO151Pattern15, 33, 0x28, 0x440);
  }

  lemma X15To1057()
    ensures IsXTo(ItuO151Pattern15, 1057, 0x270)
  {
    hide IsXTo;
    X15To66();
    Doubles(ItuO151Pattern15, 66, 0x440, 0x1060);
    Doubles(ItuO151Pattern15, 132, 0x1060, 0x1200);
    Doubles(ItuO151Pattern15, 264, 0x1200, 0x618);
    DoublesAndOne(ItuO151Pattern15, 528, 0x618, 0x270);
  }

  lemma X15To108()
    ensures IsXTo(ItuO151Pattern15, 108, 0x7F8)
  {
    hide IsXTo;
    StartsAtOne(ItuO151Pattern15);
    DoublesAndOne(ItuO151Pattern15, 1, 0x2, 0x8);
    Doubles(ItuO151Pattern15, 3, 0x8, 0x40);
    DoublesAndOne(ItuO151Pattern15, 6, 0x40, 0x2000);
    DoublesAndOne(ItuO151Pattern15, 13, 0x2000, 0x3000);
    Doubles(ItuO151Pattern15, 27, 0x3000, 0x1E00);
    Doubles(ItuO151Pattern15, 54, 0x1E00, 0x7F8);
  }

  lemma X15To217()
    ensures IsXTo(ItuO151Pattern15, 217, 0x2A7F)
  {
    hide IsXTo;
    X15To108();
    DoublesAndOne(ItuO151Pattern15, 108, 0x7F8, 0x2A7F);
  }

  lemma X15To32767()
    ensures IsXTo(ItuO151Pattern15, 32767, 0x1)
  {
    hide IsXTo;
    X15To4681();
    Doubles(ItuO151Pattern15, 4681, 0x1632, 0x37C);
    Adds(ItuO151Pattern15, 4681, 0x1632, 9362, 0x37C, 0x1633);
    Doubles(ItuO151Pattern15, 14043, 0x1633, 0x37D);
    Adds(ItuO151Pattern15, 4681, 0x1632, 28086, 0x37D, 0x1);
  }

  lemma X11To89()
    ensures IsXTo(ItuO152Pattern11, 89, 0x142)
  {
    hide IsXTo;
    StartsAtOne(ItuO152Pattern11);
    Doubles(ItuO152Pattern11, 1, 0x2, 0x4);
    DoublesAndOne(ItuO152Pattern11, 2, 0x4, 0x20);
    DoublesAndOne(ItuO152Pattern11, 5, 0x20, 0x5);
    Doubles(ItuO152Pattern11, 11, 0x5, 0x11);
    Doubles(ItuO152Pattern11, 22, 0x11, 0x101);
    DoublesAndOne(ItuO152Pattern11, 44, 0x101, 0x142);
  }

  lemma X11To23()
    ensures IsXTo(ItuO152Pattern11, 23, 0x22)
  {
    hide IsXTo;
    StartsAtOne(ItuO152Pattern11);
    Doubles(ItuO152Pattern11, 1, 0x2, 0x4);
    DoublesAndOne(ItuO152Pattern11, 2, 0x4, 0x20);
    DoublesAndOne(ItuO152Pattern11, 5, 0x20, 0x5);
    DoublesAndOne(ItuO152Pattern11, 11, 0x5, 0x22);
  }

  lemma X11To1958()
    ensures IsXTo(ItuO152Pattern11, 1958, 0x43D)
  {
    hide IsXTo;
    X11To89();
    Doubles(ItuO152Pattern11, 89, 0x142, 0xAE);
    Doubles(ItuO152Pattern11, 178, 0xAE, 0x47C);
    Adds(ItuO152Pattern11, 89, 0x142, 356, 0x47C, 0x1E1);
    Doubles(ItuO152Pattern11, 445, 0x1E1, 0x483);
    Adds(ItuO152Pattern11, 89, 0x142, 890, 0x483, 0xA7);
    Doubles(ItuO152Pattern11, 979, 0xA7, 0x43D);
  }

  lemma X11To2047()
    ensures IsXTo(ItuO152Pattern11, 2047, 0x1)
  {
    hide IsXTo;
    X11To1958();
    X11To89();
    Adds(ItuO152Pattern11, 89, 0x142, 1958, 0x43D, 0x1);
  }

  lemma X9To73()
    ensures IsXTo(ItuO153Pattern9, 73, 0x150)
  {
    hide IsXTo;
    StartsAtOne(ItuO153Pattern9);
    Doubles(ItuO153Pattern9, 1, 0x2, 0x4);
    Doubles(ItuO153Pattern9, 2, 0x4, 0x10);
    DoublesAndOne(ItuO153Pattern9, 4, 0x10, 0x11);
    Doubles(ItuO153Pattern9, 9, 0x11, 0x101);
    Doubles(ItuO153Pattern9, 18, 0x101, 0xC5);
    DoublesAndOne(ItuO153Pattern9, 36, 0xC5, 0x150);
  }

  lemma X9To7()
    ensures IsXTo(ItuO153Pattern9, 7, 0x80)
  {
    hide IsXTo;
    StartsAtOne(ItuO153Pattern9);
    DoublesAndOne(ItuO153Pattern9, 1, 0x2, 0x8);
    DoublesAndOne(ItuO153Pattern9, 3, 0x8, 0x80);
  }

  lemma X9To511()
    ensures IsXTo(ItuO153Pattern9, 511, 0x1)
  {
    hide IsXTo;
    X9To73();
    Doubles(ItuO153Pattern9, 73, 0x150, 0x14C);
    Adds(ItuO153Pattern9, 73, 0x150, 146, 0x14C, 0x151);
    Doubles(ItuO153Pattern9, 219, 0x151, 0x14D);
    Adds(ItuO153Pattern9, 73, 0x150, 438, 0x14D, 0x1);
  }

  // ----- the prime factors of 2^n - 1

  /** 2^Length - 1. */
  function Order(p: Preset): (n: nat)
    ensures n > 0
  {
    match p
    case ItuO151Pattern23 => 8388607
    case ItuO151Pattern15 => 32767
    case ItuO152Pattern11 => 2047
    case ItuO153Pattern9 => 511
  }

  function Primes(p: Preset): set<nat> {
    match p
    case ItuO151Pattern23 => {47, 178481}
    case ItuO151Pattern15 => {7, 31, 151}
    case ItuO152Pattern11 => {23, 89}
    case ItuO153Pattern9 => {7, 73}
  }

  lemma OrderIs(p: Preset)
    ensures Order(p) == Pow2(p.Length()) - 1
  {
    assert Pow2(5) == 32;
    assert Pow2(9) == 512;
    assert Pow2(11) == 2048;
    assert Pow2(15) == 32768;
    assert Pow2(19) == 524288;
    assert Pow2(23) == 8388608;
  }

  lemma Fails7()
    ensures Fails64(7, 2)
  {
  }

  lemma Fails23()
    ensures Fails64(23, 2)
  {
  }

  lemma Fails31()
    ensures Fails64(31, 2)
  {
  }

  lemma Fails47()
    ensures Fails64(47, 2)
  {
  }

  lemma Fails73()
    ensures Fails64(73, 2)
  {
  }

  lemma Fails89()
    ensures Fails64(89, 2)
  {
  }

  lemma Fails151()
    ensures Fails64(151, 2)
  {
  }

  lemma FailsFrom2()
    ensures Fails64(178481, 2)
  {
  }

  lemma FailsFrom66()
    ensures Fails64(178481, 66)
  {
  }

  lemma FailsFrom130()
    ensures Fails64(178481, 130)
  {
  }

  lemma FailsFrom194()
    ensures Fails64(178481, 194)
  {
  }

  lemma FailsFrom258()
    ensures Fails64(178481, 258)
  {
  }

  lemma FailsFrom322()
    ensures Fails64(178481, 322)
  {
  }

  lemma FailsFrom386()
    ensures Fails64(178481, 386)
  {
  }

  lemma LargeTried()
    ensures Tried(178481, 449)
  {
    hide Fails64, Fails1;
    FailsFrom2();
    FailsFrom66();
    FailsFrom130();
    FailsFrom194();
    FailsFrom258();
    FailsFrom322();
    FailsFrom386();
    forall k | 2 <= k <= 449
      ensures Fails1(178481, k)
    {
      FailsAt(178481, 2 + (k - 2) / 64 * 64, k);
    }
  }

  lemma SmallTried(q: nat)
    requires Fails64(q, 2)
    ensures Tried(q, 65)
  {
    hide Fails64, Fails1;
    forall k | 2 <= k <= 65
      ensures Fails1(q, k)
    {
      FailsAt(q, 2, k);
    }
  }

  /** Each of the factors is prime: what it does not divide has an inverse modulo it. */
  lemma Inverse(p: Preset, q: nat, d: nat) returns (u: int, v: int)
    requires q in Primes(p) && !Divides(q, d)
    ensures d * u + q * v == 1
  {
    hide Fails64, Tried, Divides;
    if q == 178481 {
      LargeTried();
      u, v := PrimeOrDivides(q, 449, d);
    } else {
      SmallPrime(p, q);
      SmallTried(q);
      u, v := PrimeOrDivides(q, 65, d);
    }
  }

  lemma SmallPrime(p: Preset, q: nat)
    requires q in Primes(p) && q != 178481
    ensures Fails64(q, 2) && 2 <= q < 66 * 66
  {
    hide Fails64;
    Fails7();
    Fails23();
    Fails31();
    Fails47();
    Fails73();
    Fails89();
    Fails151();
  }

  /** What all of them divide, their product divides. */
  lemma AllPrimes(p: Preset, d: nat)
    requires forall q :: q in Primes(p) ==> q > 0 && Divides(q, d)
    ensures Divides(Order(p), d)
  {
    hide Divides;
    match p {
      case ItuO151Pattern23 =>
        assert 47 in Primes(p) && 178481 in Primes(p);
        Coprime(47, 178481, -56962, 15, d);
      case ItuO151Pattern15 =>
        assert 7 in Primes(p) && 31 in Primes(p) && 151 in Primes(p);
        Coprime(7, 31, 9, -2, d);
        Coprime(217, 151, -16, 23, d);
      case ItuO152Pattern11 =>
        assert 23 in Primes(p) && 89 in Primes(p);
        Coprime(23, 89, 31, -8, d);
      case ItuO153Pattern9 =>
        assert 7 in Primes(p) && 73 in Primes(p);
        Coprime(7, 73, 21, -2, d);
    }
  }

  // ----- the period

  lemma {:induction false} ReturnsAgain(p: Preset, r: seq<bool>, d: nat, k: nat)
    requires IsRegister(p, r) && Advance(p, r, d) == r
    ensures Advance(p, r, d * k) == r
    decreases k
  {
    if k > 0 {
      ReturnsAgain(p, r, d, k - 1);
      AdvanceTwice(p, r, d * (k - 1), d);
      assert d * k == d * (k - 1) + d;
    } else {
      assert d * k == 0;
    }
  }

  lemma WholeTurn(p: Preset, r: seq<bool>)
    requires IsRegister(p, r)
    ensures Advance(p, r, Order(p)) == r
  {
    hide Apply, Reduced, Advance, Next;
    match p {
      case ItuO151Pattern23 => X23To8388607();
      case ItuO151Pattern15 => X15To32767();
      case ItuO152Pattern11 => X11To2047();
      case ItuO153Pattern9 => X9To511();
    }
    assert Apply(p, Poly(1), r) == Advance(p, r, Order(p));
    OfNothing(p, r);
  }

  /** If w is x^c, and g times w + 1 is one, only zero returns after c steps. */
  lemma OnlyZero(p: Preset, r: seq<bool>, c: nat, w: bv32, g: bv32)
    requires IsRegister(p, r) && Advance(p, r, c) == r && IsXTo(p, c, w)
    requires Reduced(p, Poly(g)) && Reduced(p, Xor(Poly(w), Poly(1)))
    requires Mul(Top(p), Generator(p), g, Xor(Poly(w), Poly(1)).bits) == 1
    ensures r == Zero(p)
  {
    hide Mul, Top, Generator, Apply, Reduced, Advance, Next, XorBits, Zero, Plus;
    var v := Xor(Poly(w), Poly(1));
    ApplyXor(p, Poly(w), Poly(1), r);
    OfNothing(p, r);
    assert Apply(p, Poly(w), r) == r;
    PlusZero(p, r);
    MulIs(p, g, v.bits);
    assert v == Poly(v.bits);
    ApplyZero(p, Poly(g));
    assert Apply(p, Poly(1), r) == Apply(p, Poly(g), Apply(p, v, r));
  }

  lemma Shorter23By47(r: seq<bool>)
    requires IsRegister(ItuO151Pattern23, r) && Advance(ItuO151Pattern23, r, 178481) == r
    ensures r == Zero(ItuO151Pattern23)
  {
    hide IsXTo, Advance, Zero;
    X23To178481();
    OnlyZero(ItuO151Pattern23, r, 178481, 0x7E_D6FA, 0x19_1238);
  }

  lemma Shorter23By178481(r: seq<bool>)
    requires IsRegister(ItuO151Pattern23, r) && Advance(ItuO151Pattern23, r, 47) == r
    ensures r == Zero(ItuO151Pattern23)
  {
    hide IsXTo, Advance, Zero;
    X23To47();
    OnlyZero(ItuO151Pattern23, r, 47, 0x802, 0x1B_8597);
  }

  lemma Shorter15By7(r: seq<bool>)
    requires IsRegister(ItuO151Pattern15, r) && Advance(ItuO151Pattern15, r, 4681) == r
    ensures r == Zero(ItuO151Pattern15)
  {
    hide IsXTo, Advance, Zero;
    X15To4681();
    OnlyZero(ItuO151Pattern15, r, 4681, 0x1632, 0x154E);
  }

  lemma Shorter15By31(r: seq<bool>)
    requires IsRegister(ItuO151Pattern15, r) && Advance(ItuO151Pattern15, r, 1057) == r
    ensures r == Zero(ItuO151Pattern15)
  {
    hide IsXTo, Advance, Zero;
    X15To1057();
    OnlyZero(ItuO151Pattern15, r, 1057, 0x270, 0x13D);
  }

  lemma Shorter15By151(r: seq<bool>)
    requires IsRegister(ItuO151Pattern15, r) && Advance(ItuO151Pattern15, r, 217) == r
    ensures r == Zero(ItuO151Pattern15)
  {
    hide IsXTo, Advance, Zero;
    X15To217();
    OnlyZero(ItuO151Pattern15, r, 217, 0x2A7F, 0x6495);
  }

  lemma Shorter11By23(r: seq<bool>)
    requires IsRegister(ItuO152Pattern11, r) && Advance(ItuO152Pattern11, r, 89) == r
    ensures r == Zero(ItuO152Pattern11)
  {
    hide IsXTo, Advance, Zero;
    X11To89();
    OnlyZero(ItuO152Pattern11, r, 89, 0x142, 0x20C);
  }

  lemma Shorter11By89(r: seq<bool>)
    requires IsRegister(ItuO152Pattern11, r) && Advance(ItuO152Pattern11, r, 23) == r
    ensures r == Zero(ItuO152Pattern11)
  {
    hide IsXTo, Advance, Zero;
    X11To23();
    OnlyZero(ItuO152Pattern11, r, 23, 0x22, 0x195);
  }

  lemma Shorter9By7(r: seq<bool>)
    requires IsRegister(ItuO153Pattern9, r) && Advance(ItuO153Pattern9, r, 73) == r
    ensures r == Zero(ItuO153Pattern9)
  {
    hide IsXTo, Advance, Zero;
    X9To73();
    OnlyZero(ItuO153Pattern9, r, 73, 0x150, 0x1C);
  }

  lemma Shorter9By73(r: seq<bool>)
    requires IsRegister(ItuO153Pattern9, r) && Advance(ItuO153Pattern9, r, 7) == r
    ensures r == Zero(ItuO153Pattern9)
  {
    hide IsXTo, Advance, Zero;
    X9To7();
    OnlyZero(ItuO153Pattern9, r, 7, 0x80, 0x1E8);
  }

  /** No register but zero returns after the order divided by one of its prime factors. */
  lemma NoShorter(p: Preset, q: nat, r: seq<bool>)
    requires IsRegister(p, r) && q in Primes(p) && Advance(p, r, Order(p) / q) == r
    ensures r == Zero(p)
  {
    hide Advance, Zero;
    match p {
      case ItuO151Pattern23 =>
        if q == 47 {
          Shorter23By47(r);
        } else {
          Shorter23By178481(r);
        }
      case ItuO151Pattern15 =>
        if q == 7 {
          Shorter15By7(r);
        } else if q == 31 {
          Shorter15By31(r);
        } else {
          Shorter15By151(r);
        }
      case ItuO152Pattern11 =>
        if q == 23 {
          Shorter11By23(r);
        } else {
          Shorter11By89(r);
        }
      case ItuO153Pattern9 =>
        if q == 7 {
          Shorter9By7(r);
        } else {
          Shorter9By73(r);
        }
    }
  }

  /** A number that is a multiple of d, and leaves c when divided by n == q c. */
  lemma Solve(d: nat, q: nat, c: nat, n: nat, u: int, v: int) returns (m: nat, k: nat)
    requires n == q * c && d * u + q * v == 1 && d > 0 && n > 0
    ensures d * m == n * k + c
  {
    var j := Abs(u) + Abs(v);
    Enough(c, n, u, v, d, q);
    m, k := u * c + n * j, d * j - v;
    Balance(d, q, c, n, u, v, j);
  }

  lemma Enough(c: nat, n: nat, u: int, v: int, d: nat, q: nat)
    requires n == q * c && n > 0 && d > 0
    ensures u * c + n * (Abs(u) + Abs(v)) >= 0 && d * (Abs(u) + Abs(v)) - v >= 0
  {
    AtLeastOne(q, c);
    Outweighs(c, n, u, Abs(v));
    Exceeds(d, Abs(u) + Abs(v));
  }

  lemma AtLeastOne(q: nat, c: nat)
    requires q * c > 0
    ensures c <= q * c
  {
  }

  lemma Outweighs(c: nat, n: nat, u: int, m: nat)
    requires c <= n
    ensures u * c + n * (Abs(u) + m) >= 0
  {
    assert (u + Abs(u)) * c >= 0;
    assert (n - c) * Abs(u) >= 0;
    assert n * m >= 0;
    assert n * (Abs(u) + m) == c * Abs(u) + (n - c) * Abs(u) + n * m;
  }

  lemma Exceeds(d: nat, m: nat)
    requires d > 0
    ensures d * m >= m
  {
  }

  lemma Balance(d: int, q: int, c: int, n: int, u: int, v: int, j: int)
    requires n == q * c && d * u + q * v == 1
    ensures d * (u * c + n * j) == n * (d * j - v) + c
  {
    assert d * (u * c) == (d * u) * c && (q * v) * c == n * v;
    assert (d * u + q * v) * c == c;
    assert d * (n * j) == n * (d * j);
  }

  lemma FactorIs(p: Preset, q: nat)
    requires q in Primes(p)
    ensures q > 0 && Order(p) == q * (Order(p) / q)
  {
  }

  lemma Divided(p: Preset, r: seq<bool>, q: nat, d: nat)
    requires IsRegister(p, r) && r != Zero(p) && d > 0 && Advance(p, r, d) == r && q in Primes(p)
    ensures q > 0 && Divides(q, d)
  {
    hide Advance, Zero, Divides, Primes, Order;
    FactorIs(p, q);
    if !Divides(q, d) {
      var n, c := Order(p), Order(p) / q;
      var u, v := Inverse(p, q, d);
      var m, k := Solve(d, q, c, n, u, v);
      ReturnsAgain(p, r, d, m);
      WholeTurn(p, r);
      ReturnsAgain(p, r, n, k);
      AdvanceTwice(p, r, n * k, c);
      NoShorter(p, q, r);
      assert false;
    }
  }

  lemma ReturnsIff(p: Preset, r: seq<bool>, d: nat)
    requires IsRegister(p, r) && r != Zero(p)
    ensures Advance(p, r, d) == r <==> Divides(Order(p), d)
  {
    hide Advance, Zero, Primes, Order, Divides;
    var n := Order(p);
    if d == 0 {
      AdvanceOne(p, r);
      AllZero(n);
    } else if Advance(p, r, d) == r {
      forall q | q in Primes(p)
        ensures q > 0 && Divides(q, d)
      {
        Divided(p, r, q, d);
      }
      AllPrimes(p, d);
    }
    if Divides(n, d) {
      WholeTurn(p, r);
      Quotient(n, d);
      ReturnsAgain(p, r, n, d / n);
    }
  }

  /** A register of n bits that is not zero repeats after 2^n - 1 steps, and after their multiples, and no others. */
  lemma MaximalLength(p: Preset, r: seq<bool>, d: nat)
    requires IsRegister(p, r) && r != Zero(p)
    ensures Pow2(p.Length()) > 1 && (Advance(p, r, d) == r <==> d % (Pow2(p.Length()) - 1) == 0)
  {
    hide Advance, Zero, Order, Pow2;
    OrderIs(p);
    ReturnsIff(p, r, d);
  }

  lemma StaysNonzero(p: Preset, r: seq<bool>, n: nat)
    requires IsRegister(p, r) && r != Zero(p)
    ensures Advance(p, r, n) != Zero(p)
  {
    hide Advance, Zero, Order;
    AdvanceOne(p, r);
    if n > 0 && Advance(p, r, n) == Zero(p) {
      Exceeds(Order(p), n);
      var k := Order(p) * n - n;
      AdvanceTwice(p, r, n, k);
      WholeTurn(p, r);
      ReturnsAgain(p, r, Order(p), n);
      ZeroStays(p, k);
      assert false;
    }
  }

  lemma {:induction false} ZeroStays(p: Preset, n: nat)
    ensures Advance(p, Zero(p), n) == Zero(p)
  {
    hide Next, Zero;
    if n > 0 {
      ZeroStays(p, n - 1);
      NextZero(p);
    }
  }

  /** So all the registers of one period are different. */
  lemma AllDifferent(p: Preset, r: seq<bool>, i: nat, j: nat)
    requires IsRegister(p, r) && r != Zero(p) && i < j < i + Order(p)
    ensures Advance(p, r, i) != Advance(p, r, j)
  {
    hide Advance, Zero, Order;
    StaysNonzero(p, r, i);
    AdvanceTwice(p, r, i, j - i);
    ReturnsIff(p, Advance(p, r, i), j - i);
  }

  /** The register of bert_init has every bit set. */
  lemma {:induction false} OnesAreNotZero(p: Preset)
    ensures IsRegister(p, Ones(p.Length())) && Ones(p.Length()) != Zero(p)
  {
    ZeroBits(p.Length());
    assert Ones(p.Length())[0];
  }

  /** Bit t of the pattern comes again after d bits. */
  predicate Recurs(p: Preset, r: seq<bool>, d: nat, t: nat)
    requires IsRegister(p, r)
  {
    Pattern(p, r, t + d) == Pattern(p, r, t)
  }

  /** The pattern that is sent has the period 2^n - 1, and no shorter one. */
  lemma PatternPeriod(p: Preset, r: seq<bool>, d: nat)
    requires IsRegister(p, r) && r != Zero(p)
    ensures Pow2(p.Length()) > 1
    ensures (forall t: nat :: Recurs(p, r, d, t)) <==> d % (Pow2(p.Length()) - 1) == 0
  {
    hide Advance, Zero, Pow2;
    MaximalLength(p, r, d);
    if Advance(p, r, d) == r {
      forall t: nat
        ensures Recurs(p, r, d, t)
      {
        AdvanceTwice(p, r, d, t);
        assert t + d == d + t;
      }
    } else if forall t: nat :: Recurs(p, r, d, t) {
      SameBits(p, r, d);
      assert false;
    }
  }

  lemma SameBits(p: Preset, r: seq<bool>, d: nat)
    requires IsRegister(p, r) && forall t: nat :: Recurs(p, r, d, t)
    ensures Advance(p, r, d) == r
  {
    hide Advance;
    AdvanceOne(p, r);
    forall i | 0 <= i < |r|
      ensures Advance(p, r, d)[i] == r[i]
    {
      RegisterHoldsPattern(p, r, d, i);
      RegisterHoldsPattern(p, r, 0, i);
      assert Recurs(p, r, d, i);
    }
  }

  // ----- every register is reached

  function Words(n: nat): set<seq<bool>> {
    if n == 0 then {[]} else Extended(Words(n - 1), false) + Extended(Words(n - 1), true)
  }

  function Extended(words: set<seq<bool>>, bit: bool): set<seq<bool>> {
    set s | s in words :: s + [bit]
  }

  lemma InExtended(words: set<seq<bool>>, bit: bool, s: seq<bool>)
    ensures s in Extended(words, bit) <==> |s| > 0 && s[|s| - 1] == bit && s[..|s| - 1] in words
  {
    if |s| > 0 {
      assert s == s[..|s| - 1] + [s[|s| - 1]];
    }
    if s in Extended(words, bit) {
      var t :| t in words && s == t + [bit];
      assert s[..|s| - 1] == t;
    }
  }

  lemma {:induction false} ExtendedSize(words: set<seq<bool>>, bit: bool)
    ensures |Extended(words, bit)| == |words|
    decreases words
  {
    if words != {} {
      var s :| s in words;
      var rest := words - {s};
      ExtendedSize(rest, bit);
      InExtended(rest, bit, s + [bit]);
      assert (s + [bit])[..|s|] == s;
      assert Extended(words, bit) == Extended(rest, bit) + {s + [bit]};
    }
  }

  lemma {:induction false} WordsAre(n: nat, s: seq<bool>)
    ensures s in Words(n) <==> |s| == n
    decreases n
  {
    hide Extended;
    if n > 0 {
      InExtended(Words(n - 1), false, s);
      InExtended(Words(n - 1), true, s);
      if |s| > 0 {
        WordsAre(n - 1, s[..|s| - 1]);
      }
    }
  }

  lemma {:induction false} WordsSize(n: nat)
    ensures |Words(n)| == Pow2(n)
  {
    hide Extended;
    if n > 0 {
      var words := Words(n - 1);
      WordsSize(n - 1);
      ExtendedSize(words, false);
      ExtendedSize(words, true);
      var a, b := Extended(words, false), Extended(words, true);
      forall s | s in a
        ensures s !in b
      {
        InExtended(words, false, s);
        InExtended(words, true, s);
      }
      assert a !! b;
      assert |a + b| == |a| + |b|;
    }
  }

  /** The first n registers. */
  function Orbit(p: Preset, r: seq<bool>, n: nat): set<seq<bool>>
    requires IsRegister(p, r)
  {
    if n == 0 then {} else Orbit(p, r, n - 1) + {Advance(p, r, n - 1)}
  }

  lemma {:induction false} WhichStep(p: Preset, r: seq<bool>, n: nat, s: seq<bool>) returns (k: nat)
    requires IsRegister(p, r) && s in Orbit(p, r, n)
    ensures k < n && Advance(p, r, k) == s
    decreases n
  {
    hide Advance;
    if s == Advance(p, r, n - 1) {
      k := n - 1;
    } else {
      k := WhichStep(p, r, n - 1, s);
    }
  }

  lemma {:induction false} OrbitSize(p: Preset, r: seq<bool>, n: nat)
    requires IsRegister(p, r) && r != Zero(p) && n <= Order(p)
    ensures |Orbit(p, r, n)| == n && Orbit(p, r, n) <= Words(p.Length()) - {Zero(p)}
    decreases n
  {
    hide Advance, Zero, Order, Words;
    if n > 0 {
      OrbitSize(p, r, n - 1);
      var s := Advance(p, r, n - 1);
      StaysNonzero(p, r, n - 1);
      WordsAre(p.Length(), s);
      if s in Orbit(p, r, n - 1) {
        var k := WhichStep(p, r, n - 1, s);
        AllDifferent(p, r, k, n - 1);
        assert false;
      }
    }
  }

  /** From any register but zero, every other one but zero is reached within a period. */
  lemma ReachesAll(p: Preset, r: seq<bool>, s: seq<bool>) returns (k: nat)
    requires IsRegister(p, r) && IsRegister(p, s) && r != Zero(p) && s != Zero(p)
    ensures k < Pow2(p.Length()) - 1 && Advance(p, r, k) == s
  {
    hide Advance, Zero, Order, Words, Orbit, Pow2;
    var n := Order(p);
    OrderIs(p);
    OrbitSize(p, r, n);
    WordsSize(p.Length());
    WordsAre(p.Length(), Zero(p));
    WordsAre(p.Length(), s);
    var a, b := Orbit(p, r, n), Words(p.Length()) - {Zero(p)};
    assert |b| == n && b == a + (b - a) && |b - a| == |b| - |a|;
    k := WhichStep(p, r, n, s);
  }
}
