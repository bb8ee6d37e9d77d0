/** The uniform generator of src/awgn.c: three linear congruential sequences and a shuffle table. */
module Awgn {
  import opened Arith
  import opened Divisibility

  datatype Lcg = First | Second | Third {
    function M(): (m: nat)
      ensures m > 0
    {
      match this case First => 259200 case Second => 134456 case Third => 243000
    }

    function A(): (a: nat)
      ensures a > 0
    {
      match this case First => 7141 case Second => 8121 case Third => 4561
    }

    function C(): nat {
      match this case First => 54773 case Second => 28411 case Third => 51349
    }
  }

  function Step(g: Lcg, x: nat): (r: nat)
    ensures r < g.M()
  {
    (g.A() * x + g.C()) % g.M()
  }

  function Iterate(g: Lcg, k: nat, x: nat): (r: nat)
    ensures x < g.M() ==> r < g.M()
  {
    if k == 0 then x else Step(g, Iterate(g, k - 1, x))
  }

  /** Every intermediate value fits int32_t. */
  lemma NoOverflow(g: Lcg, x: nat)
    requires x < g.M()
    ensures IsInt32(g.A() * x) && IsInt32(g.A() * x + g.C()) && IsInt32(97 * x)
  {
  }

  // ----- the period

  lemma {:induction false} IterateForm(g: Lcg, k: nat, x: nat)
    requires x < g.M()
    ensures Iterate(g, k, x) == Mod(g.M(), Pow(g.A(), k) * x + g.C() * Sum(g.A(), k))
  {
    if k == 0 {
      NoStep(g, x);
    } else {
      hide *;
      IterateForm(g, k - 1, x);
      IterateStep(g, k, x);
      FormStep(g, k, x);
    }
  }

  lemma FormStep(g: Lcg, k: nat, x: nat)
    requires k > 0
    ensures Step(g, Mod(g.M(), Pow(g.A(), k - 1) * x + g.C() * Sum(g.A(), k - 1)))
         == Mod(g.M(), Pow(g.A(), k) * x + g.C() * Sum(g.A(), k))
  {
    hide *;
    LastTerm(g.A(), k);
    var p, s := Pow(g.A(), k - 1), Sum(g.A(), k - 1);
    StepOfMod(g, p * x + g.C() * s);
    StepForm(g.A(), g.C(), p, s, x);
  }

  lemma NoStep(g: Lcg, x: nat)
    requires x < g.M()
    ensures Mod(g.M(), Pow(g.A(), 0) * x + g.C() * Sum(g.A(), 0)) == x
  {
    Small(g.M(), x);
    hide Mod;
  }

  lemma LastTerm(a: nat, k: nat)
    requires k > 0
    ensures Pow(a, k) == Pow(a, k - 1) * a && Sum(a, k) == Sum(a, k - 1) * a + 1
  {
  }

  lemma IterateStep(g: Lcg, k: nat, x: nat)
    requires k > 0
    ensures Iterate(g, k, x) == Step(g, Iterate(g, k - 1, x))
  {
  }

  lemma StepForm(a: int, c: int, p: int, s: int, x: int)
    ensures a * (p * x + c * s) + c == (p * a) * x + c * (s * a + 1)
  {
    assert a * (p * x) == (p * a) * x;
    assert a * (c * s) == c * (s * a);
  }

  lemma StepOfMod(g: Lcg, v: int)
    ensures Step(g, Mod(g.M(), v)) == Mod(g.M(), g.A() * v + g.C())
  {
    var a, c, m := g.A(), g.C(), g.M();
    var q, r := v / m, v % m;
    assert a * v + c == (a * r + c) + m * (a * q) by {
      MulSplit(a, m, q, r);
    }
    AddMultiple(m, a * r + c, a * q);
    hide Lcg.A, Lcg.C, Lcg.M;
  }

  lemma MulSplit(a: int, m: int, q: int, r: int)
    ensures a * (m * q + r) == a * r + m * (a * q)
  {
  }

  /** One prime power of the modulus: c has an inverse modulo p, and so has (a - 1) x + c. */
  lemma PrimePower(p: nat, e: nat, a: nat, c: nat, inverse: nat, k: nat, x: nat)
    requires Admissible(p, a) && Pow(p, e) > 0 && Mod(p, c * inverse) == 1
    ensures Divides(Pow(p, e), Sum(a, k) * ((a - 1) * x + c)) <==> Divides(Pow(p, e), k)
  {
    assert p >= 2 && a >= 1 && Divides(p, a - 1);
    hide *;
    var m, w := (a - 1) / p, (a - 1) * x + c;
    Quotient(p, a - 1);
    UnitStep(p, a - 1, m, x, c, inverse);
    AddMultiple(p, c * inverse, m * x * inverse);
    CancelUnit(p, e, Sum(a, k), w, inverse);
    SumDivisible(p, e, a, k);
  }

  lemma UnitStep(p: int, b: int, m: int, x: int, c: int, inverse: int)
    requires b == p * m
    ensures (b * x + c) * inverse == c * inverse + p * (m * x * inverse)
  {
    assert (p * m) * x == p * (m * x);
    assert (p * (m * x)) * inverse == p * (m * x * inverse);
  }

  lemma FirstConstants()
    ensures Admissible(2, 7141) && Pow(2, 7) == 128 && Mod(2, 54773 * 1) == 1
    ensures Admissible(3, 7141) && Pow(3, 4) == 81 && Mod(3, 54773 * 2) == 1
    ensures Admissible(5, 7141) && Pow(5, 2) == 25 && Mod(5, 54773 * 2) == 1
  {
  }

  lemma FirstDivides(k: nat, x: nat)
    ensures Divides(259200, Sum(7141, k) * (7140 * x + 54773)) <==> Divides(259200, k)
  {
    hide *;
    FirstConstants();
    PrimePower(2, 7, 7141, 54773, 1, k, x);
    PrimePower(3, 4, 7141, 54773, 2, k, x);
    PrimePower(5, 2, 7141, 54773, 2, k, x);
    var y := Sum(7141, k) * (7140 * x + 54773);
    Coprime(128, 81, -31, 49, y);
    Coprime(128, 81, -31, 49, k);
    Coprime(10368, 25, 7, -2903, y);
    Coprime(10368, 25, 7, -2903, k);
  }

  lemma SecondConstants()
    ensures Admissible(2, 8121) && Pow(2, 3) == 8 && Mod(2, 28411 * 1) == 1
    ensures Admissible(7, 8121) && Pow(7, 5) == 16807 && Mod(7, 28411 * 3) == 1
  {
  }

  lemma SecondDivides(k: nat, x: nat)
    ensures Divides(134456, Sum(8121, k) * (8120 * x + 28411)) <==> Divides(134456, k)
  {
    hide *;
    SecondConstants();
    PrimePower(2, 3, 8121, 28411, 1, k, x);
    PrimePower(7, 5, 8121, 28411, 3, k, x);
    var y := Sum(8121, k) * (8120 * x + 28411);
    Coprime(8, 16807, 2101, -1, y);
    Coprime(8, 16807, 2101, -1, k);
  }

  lemma ThirdConstants()
    ensures Admissible(2, 4561) && Pow(2, 3) == 8 && Mod(2, 51349 * 1) == 1
    ensures Admissible(3, 4561) && Pow(3, 5) == 243 && Mod(3, 51349 * 1) == 1
    ensures Admissible(5, 4561) && Pow(5, 3) == 125 && Mod(5, 51349 * 4) == 1
  {
  }

  lemma ThirdDivides(k: nat, x: nat)
    ensures Divides(243000, Sum(4561, k) * (4560 * x + 51349)) <==> Divides(243000, k)
  {
    hide *;
    ThirdConstants();
    PrimePower(2, 3, 4561, 51349, 1, k, x);
    PrimePower(3, 5, 4561, 51349, 1, k, x);
    PrimePower(5, 3, 4561, 51349, 4, k, x);
    var y := Sum(4561, k) * (4560 * x + 51349);
    Coprime(8, 243, -91, 3, y);
    Coprime(8, 243, -91, 3, k);
    Coprime(1944, 125, 29, -451, y);
    Coprime(1944, 125, 29, -451, k);
  }

  lemma PeriodDivides(g: Lcg, k: nat, x: nat)
    ensures Divides(g.M(), Sum(g.A(), k) * ((g.A() - 1) * x + g.C())) <==> Divides(g.M(), k)
  {
    hide Divides, Sum;
    match g {
      case First => FirstDivides(k, x);
      case Second => SecondDivides(k, x);
      case Third => ThirdDivides(k, x);
    }
  }

  lemma SameRemainder(m: nat, v: int, x: nat)
    requires x < m
    ensures Mod(m, v) == x <==> Divides(m, v - x)
  {
    var q := v / m;
    if Mod(m, v) == x {
      Multiple(m, q);
    } else if Divides(m, v - x) {
      Quotient(m, v - x);
      AddMultiple(m, x, (v - x) / m);
      Small(m, x);
    }
  }

  lemma Small(m: nat, x: nat)
    requires x < m
    ensures Mod(m, x) == x
  {
  }

  /** Each sequence has the full period: it returns to a value after exactly the multiples of M steps. */
  lemma FullPeriod(g: Lcg, k: nat, x: nat)
    requires x < g.M()
    ensures Iterate(g, k, x) == x <==> k % g.M() == 0
  {
    var a, c := g.A(), g.C();
    IterateForm(g, k, x);
    SumPow(a, k);
    var v := Pow(a, k) * x + c * Sum(a, k);
    Difference(a, c, Pow(a, k), Sum(a, k), x);
    PeriodDivides(g, k, x);
    assert Divides(g.M(), k) <==> k % g.M() == 0;
    hide *;
    SameRemainder(g.M(), v, x);
  }

  lemma Difference(a: int, c: int, p: int, s: int, x: int)
    requires (a - 1) * s == p - 1
    ensures p * x + c * s - x == s * ((a - 1) * x + c)
  {
    assert ((a - 1) * s) * x == s * ((a - 1) * x);
    assert s * ((a - 1) * x + c) == s * ((a - 1) * x) + c * s;
  }

  /** The sequence runs through every value, from any seed. */
  lemma Covers(g: Lcg, x: nat, y: nat)
    requires x < g.M() && y < g.M()
    ensures exists k :: 0 <= k < g.M() && Iterate(g, k, x) == y
  {
    hide Lcg.M, Step;
    var m := g.M();
    OrbitSize(g, x, m);
    NaturalsSize(m);
    Subset(Orbit(g, x, m), Naturals(m));
    InNaturals(m, y);
    var k := WhichStep(g, x, m, y);
  }

  /** The first n values. */
  function Orbit(g: Lcg, x: nat, n: nat): set<nat> {
    if n == 0 then {} else Orbit(g, x, n - 1) + {Iterate(g, n - 1, x)}
  }

  function Naturals(n: nat): set<nat> {
    if n == 0 then {} else Naturals(n - 1) + {n - 1}
  }

  lemma {:induction false} InNaturals(n: nat, i: nat)
    ensures i in Naturals(n) <==> i < n
  {
    if n > 0 {
      InNaturals(n - 1, i);
    }
  }

  lemma {:induction false} NaturalsSize(n: nat)
    ensures |Naturals(n)| == n
  {
    if n > 0 {
      NaturalsSize(n - 1);
      InNaturals(n - 1, n - 1);
    }
  }

  lemma Subset(a: set<nat>, b: set<nat>)
    requires a <= b && |a| == |b|
    ensures a == b
  {
    assert b == a + (b - a);
    assert |b| == |a| + |b - a|;
  }

  lemma {:induction false} WhichStep(g: Lcg, x: nat, n: nat, y: nat) returns (k: nat)
    requires y in Orbit(g, x, n)
    ensures k < n && Iterate(g, k, x) == y
  {
    if Iterate(g, n - 1, x) == y {
      k := n - 1;
    } else {
      k := WhichStep(g, x, n - 1, y);
    }
  }

  lemma {:induction false} IteratePlus(g: Lcg, j: nat, k: nat, x: nat)
    ensures Iterate(g, j + k, x) == Iterate(g, k, Iterate(g, j, x))
    decreases k
  {
    if k > 0 {
      IteratePlus(g, j, k - 1, x);
    }
  }

  /** Within one period no value comes twice. */
  lemma Distinct(g: Lcg, i: nat, j: nat, x: nat)
    requires x < g.M() && i < j < g.M()
    ensures Iterate(g, i, x) != Iterate(g, j, x)
  {
    IteratePlus(g, i, j - i, x);
    FullPeriod(g, j - i, Iterate(g, i, x));
    Small(g.M(), j - i);
    hide Step, Lcg.M;
  }

  lemma {:induction false} OrbitSize(g: Lcg, x: nat, n: nat)
    requires x < g.M() && n <= g.M()
    ensures |Orbit(g, x, n)| == n && Orbit(g, x, n) <= Naturals(g.M())
  {
    hide Lcg.M, Step, Naturals;
    if n > 0 {
      OrbitSize(g, x, n - 1);
      InNaturals(g.M(), Iterate(g, n - 1, x));
      if Iterate(g, n - 1, x) in Orbit(g, x, n - 1) {
        var k := WhichStep(g, x, n - 1, Iterate(g, n - 1, x));
        Distinct(g, k, n - 1, x);
      }
    }
  }

  // ----- the generator

  /** The number made from one value of the first and one of the second sequence. */
  function Uniform(x1: nat, x2: nat): (u: real) {
    (x1 as real + x2 as real * (1.0 / 134456.0)) * (1.0 / 259200.0)
  }

  lemma UniformRange(x1: nat, x2: nat)
    requires x1 < First.M() && x2 < Second.M()
    ensures 0.0 <= Uniform(x1, x2) < 1.0
  {
    var f := x2 as real * (1.0 / 134456.0);
    assert 0.0 <= f < 1.0;
    assert 0.0 <= x1 as real + f < 259200.0;
  }

  /** The numbers made from the next n values. */
  function Generated(x1: nat, x2: nat, n: nat): (s: seq<real>)
    ensures |s| == n
  {
    if n == 0 then [] else Generated(x1, x2, n - 1) + [Uniform(Iterate(First, n, x1), Iterate(Second, n, x2))]
  }

  /** The numbers form a grid: each pair of values of the first two sequences has its own, in their order. */
  lemma UniformGrid(x1: nat, x2: nat)
    ensures Uniform(x1, x2) * (259200.0 * 134456.0) == (134456 * x1 + x2) as real
  {
    assert (1.0 / 134456.0) * 134456.0 == 1.0 && (1.0 / 259200.0) * 259200.0 == 1.0;
    Unscaled(x1 as real, x2 as real, 1.0 / 134456.0, 1.0 / 259200.0);
  }

  lemma Unscaled(a: real, b: real, v: real, u: real)
    requires v * 134456.0 == 1.0 && u * 259200.0 == 1.0
    ensures ((a + b * v) * u) * (259200.0 * 134456.0) == 134456.0 * a + b
  {
    assert ((a + b * v) * u) * 259200.0 == (a + b * v) * (u * 259200.0);
    assert (b * v) * 134456.0 == b * (v * 134456.0);
  }

  lemma UniformDistinct(x1: nat, x2: nat, y1: nat, y2: nat)
    requires x2 < Second.M() && y2 < Second.M() && Uniform(x1, x2) == Uniform(y1, y2)
    ensures x1 == y1 && x2 == y2
  {
    hide Uniform;
    UniformGrid(x1, x2);
    UniformGrid(y1, y2);
    assert 134456 * x1 + x2 == 134456 * y1 + y2;
  }

  /**
   * The table entry that a value of the third sequence selects: never the error branch, and the 97 entries share its
   * values evenly.
   */
  lemma IndexInTable(x3: nat)
    requires x3 < Third.M()
    ensures var j := (97 * x3) / Third.M();
      0 <= j <= 96 && j * Third.M() <= 97 * x3 < (j + 1) * Third.M()
  {
  }

  /** Replacing one entry moves it out of the table and the new one in. */
  lemma Exchange(first: seq<real>, made: seq<real>, was: seq<real>, out: seq<real>, j: nat, u: real)
    requires j < |was| && multiset(was) + multiset(out) == multiset(first) + multiset(made)
    ensures multiset(was[j := u]) + multiset(out + [was[j]]) == multiset(first) + multiset(made + [u])
  {
    assert multiset(was[j := u]) + multiset{was[j]} == multiset(was) + multiset{u};
    assert multiset(out + [was[j]]) == multiset(out) + multiset{was[j]};
    assert multiset(made + [u]) == multiset(made) + multiset{u};
    Rearrange(multiset(was), multiset(was[j := u]), multiset(out), multiset(first), multiset(made), was[j], u);
  }

  lemma Rearrange(a: multiset<real>, b: multiset<real>, o: multiset<real>, f: multiset<real>, m: multiset<real>,
                  w: real, u: real)
    requires b + multiset{w} == a + multiset{u} && a + o == f + m
    ensures b + (o + multiset{w}) == f + (m + multiset{u})
  {
    assert b + (o + multiset{w}) == (b + multiset{w}) + o;
    assert (a + multiset{u}) + o == (a + o) + multiset{u};
    assert (f + m) + multiset{u} == f + (m + multiset{u});
  }

  /** The uniform part of an awgn_state_t. */
  class Generator {
    var ix1: nat
    var ix2: nat
    var ix3: nat
    const r: array<real>

    ghost predicate Valid()
      reads this, r
    {
      && ix1 < First.M() && ix2 < Second.M() && ix3 < Third.M() && r.Length == 97
      && forall j :: 0 <= j < 97 ==> 0.0 <= r[j] < 1.0
    }

    constructor ()
      ensures Valid() && fresh(r)
    {
      ix1, ix2, ix3 := 0, 0, 0;
      r := new real[97](_ => 0.0);
    }

    /** ran_init, for a seed whose sum with IC1 does not overflow. */
    method RanInit(idum: int)
      requires r.Length == 97
      requires IsInt32(idum) && Abs(idum) + First.C() <= 0x7FFF_FFFF
      modifies this, r
      ensures Valid()
      ensures var x1 := Step(First, (First.C() + Abs(idum)) % First.M());
        r[..] == Generated(Step(First, x1), x1 % Second.M(), 97)
        && ix1 == Iterate(First, 97, Step(First, x1)) && ix2 == Iterate(Second, 97, x1 % Second.M())
        && ix3 == Step(First, x1) % Third.M()
    {
      hide Step, Lcg.C;
      var seed := if idum < 0 then -idum else idum;
      ix1 := (First.C() + seed) % First.M();
      ix1 := Step(First, ix1);
      ix2 := ix1 % Second.M();
      ix1 := Step(First, ix1);
      ix3 := ix1 % Third.M();
      FillTable();
    }

    /** The loop of ran_init. */
    method FillTable()
      requires r.Length == 97 && ix1 < First.M() && ix2 < Second.M()
      modifies `ix1, `ix2, r
      ensures ix1 == Iterate(First, 97, old(ix1)) && ix2 == Iterate(Second, 97, old(ix2))
      ensures r[..] == Generated(old(ix1), old(ix2), 97)
      ensures ix1 < First.M() && ix2 < Second.M() && forall j :: 0 <= j < 97 ==> 0.0 <= r[j] < 1.0
    {
      hide Step, Uniform, Lcg.M;
      var j := 0;
      while j < 97
        invariant 0 <= j <= 97 && ix1 < First.M() && ix2 < Second.M()
        invariant ix1 == Iterate(First, j, old(ix1)) && ix2 == Iterate(Second, j, old(ix2))
        invariant r[..j] == Generated(old(ix1), old(ix2), j)
        invariant forall i :: 0 <= i < j ==> 0.0 <= r[i] < 1.0
      {
        ix1 := Step(First, ix1);
        ix2 := Step(Second, ix2);
        UniformRange(ix1, ix2);
        r[j] := Uniform(ix1, ix2);
        assert r[..j + 1] == r[..j] + [r[j]];
        j := j + 1;
      }
      assert r[..] == r[..97];
    }

    /** ran: its error branch is dead, and it swaps a new number for a table entry. */
    method Ran() returns (temp: real)
      requires Valid()
      modifies this, r
      ensures Valid() && 0.0 <= temp < 1.0
      ensures ix1 == Step(First, old(ix1)) && ix2 == Step(Second, old(ix2)) && ix3 == Step(Third, old(ix3))
      ensures var j := (97 * ix3) / Third.M();
        0 <= j < 97 && temp == old(r[j]) && r[..] == old(r[..])[j := Uniform(ix1, ix2)]
    {
      hide Step, Uniform, Lcg.M;
      ix1 := Step(First, ix1);
      ix2 := Step(Second, ix2);
      ix3 := Step(Third, ix3);
      var j := (97 * ix3) / Third.M();
      IndexInTable(ix3);
      if j > 96 || j < 0 {
        assert false;
        temp := -1.0;
      } else {
        temp := r[j];
        UniformRange(ix1, ix2);
        r[j] := Uniform(ix1, ix2);
      }
    }

    /** A draw after others: what the generators made so far is in the table, or has been drawn. */
    method RanExchanging(ghost first: seq<real>, ghost made: seq<real>, ghost out: seq<real>) returns (temp: real)
      requires Valid() && multiset(r[..]) + multiset(out) == multiset(first) + multiset(made)
      modifies this, r
      ensures Valid() && 0.0 <= temp < 1.0
      ensures ix1 == Step(First, old(ix1)) && ix2 == Step(Second, old(ix2)) && ix3 == Step(Third, old(ix3))
      ensures multiset(r[..]) + multiset(out + [temp]) == multiset(first) + multiset(made + [Uniform(ix1, ix2)])
    {
      hide Step, Uniform, Lcg.M;
      ghost var was := r[..];
      temp := Ran();
      Exchange(first, made, was, out, (97 * ix3) / Third.M(), Uniform(ix1, ix2));
    }

    /** n draws: no number made by the generators is lost or used twice by the shuffle. */
    method Draw(n: nat) returns (out: seq<real>)
      requires Valid()
      modifies this, r
      ensures Valid() && |out| == n && forall i :: 0 <= i < n ==> 0.0 <= out[i] < 1.0
      ensures ix3 == Iterate(Third, n, old(ix3))
      ensures multiset(r[..]) + multiset(out) == multiset(old(r[..])) + multiset(Generated(old(ix1), old(ix2), n))
    {
      hide Step, Uniform, Lcg.M;
      out := [];
      var i := 0;
      while i < n
        invariant 0 <= i <= n && Valid() && |out| == i
        invariant forall k :: 0 <= k < i ==> 0.0 <= out[k] < 1.0
        invariant ix1 == Iterate(First, i, old(ix1)) && ix2 == Iterate(Second, i, old(ix2))
        invariant ix3 == Iterate(Third, i, old(ix3))
        invariant multiset(r[..]) + multiset(out) == multiset(old(r[..])) + multiset(Generated(old(ix1), old(ix2), i))
      {
        var temp := RanExchanging(old(r[..]), Generated(old(ix1), old(ix2), i), out);
        out := out + [temp];
        i := i + 1;
      }
    }
  }
}
