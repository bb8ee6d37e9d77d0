/** When a geometric sum is divisible by a prime power: the arithmetic behind full-period generators. */
module Divisibility {
  import opened Arith

  function Pow(a: nat, k: nat): nat {
    if k == 0 then 1 else Pow(a, k - 1) * a
  }

  /** 1 + a + ... + a^(k-1). */
  function Sum(a: nat, k: nat): nat {
    if k == 0 then 0 else Sum(a, k - 1) * a + 1
  }

  // ----- multiples

  /** The remainder, under a name so that proofs need not reason about division. */
  function Mod(m: nat, x: int): nat
    requires m > 0
  {
    x % m
  }

  predicate Divides(m: nat, x: int)
    requires m > 0
  {
    Mod(m, x) == 0
  }

  lemma Quotient(m: nat, x: int)
    requires m > 0 && Divides(m, x)
    ensures x == m * (x / m)
  {
  }

  lemma Multiple(m: nat, q: int)
    requires m > 0
    ensures Divides(m, m * q)
  {
    AddMultiple(m, 0, q);
  }

  lemma AddMultiple(m: nat, x: int, q: int)
    requires m > 0
    ensures Mod(m, x + m * q) == Mod(m, x)
  {
    var r, t := x % m, (x + m * q) % m;
    var d: int := x / m + q - (x + m * q) / m;
    assert m * d == t - r by {
      assert m * d == m * (x / m) + m * q - m * ((x + m * q) / m);
    }
    Multiples(m, d);
  }

  /** A multiple of a multiple. */
  lemma Through(m: nat, n: nat, x: int)
    requires m > 0 && n > 0
    ensures m * n > 0 && (Divides(m * n, x) ==> Divides(m, x))
  {
    if Divides(m * n, x) {
      var q := x / (m * n);
      Quotient(m * n, x);
      Associative(m, n, q);
      Multiple(m, n * q);
    }
  }

  lemma Associative(x: int, y: int, z: int)
    ensures (x * y) * z == x * (y * z)
  {
  }

  /** A common factor cancels. */
  lemma Scale(p: nat, m: nat, x: int)
    requires p > 0 && m > 0
    ensures m * p > 0 && (Divides(m * p, p * x) <==> Divides(m, x))
  {
    hide Divides;
    if Divides(m, x) {
      Quotient(m, x);
      ScaleUp(p, m, x / m);
    } else if Divides(m * p, p * x) {
      Quotient(m * p, p * x);
      ScaleDown(p, m, x, (p * x) / (m * p));
    }
  }

  lemma ScaleUp(p: nat, m: nat, q: int)
    requires p > 0 && m > 0
    ensures m * p > 0 && Divides(m * p, p * (m * q))
  {
    hide Divides;
    assert p * (m * q) == (m * p) * q;
    Multiple(m * p, q);
  }

  lemma ScaleDown(p: nat, m: nat, x: int, q: int)
    requires p > 0 && m > 0 && p * x == (m * p) * q
    ensures Divides(m, x)
  {
    hide Divides;
    assert p * (x - m * q) == 0;
    Multiples(p, x - m * q);
    Multiple(m, q);
  }

  lemma Factor(m: nat, x: int, y: int)
    requires m > 0 && Divides(m, x)
    ensures Divides(m, x * y)
  {
    hide Divides;
    var q := x / m;
    Quotient(m, x);
    Associative(m, q, y);
    Multiple(m, q * y);
  }

  // ----- the geometric sum

  lemma {:induction false} SumPow(a: nat, k: nat)
    ensures (a - 1) * Sum(a, k) == Pow(a, k) - 1
  {
    if k > 0 {
      SumPow(a, k - 1);
      SumPowStep(a, Sum(a, k - 1), Pow(a, k - 1));
    }
  }

  lemma SumPowStep(a: int, s: int, p: int)
    requires (a - 1) * s == p - 1
    ensures (a - 1) * (s * a + 1) == p * a - 1
  {
    assert (a - 1) * (s * a) == ((a - 1) * s) * a;
  }

  lemma {:induction false} SumSplit(a: nat, j: nat, k: nat)
    ensures Sum(a, j + k) == Sum(a, j) * Pow(a, k) + Sum(a, k)
  {
    if k > 0 {
      SumSplit(a, j, k - 1);
      SumSplitStep(Sum(a, j), Pow(a, k - 1), Sum(a, k - 1), a);
    }
  }

  lemma SumSplitStep(s: int, p: int, t: int, a: int)
    ensures (s * p + t) * a == s * (p * a) + t * a
  {
    assert (s * p) * a == s * (p * a);
  }

  lemma {:induction false} PowTimes(a: nat, j: nat, k: nat)
    ensures Pow(a, j + k) == Pow(a, j) * Pow(a, k)
  {
    if k > 0 {
      PowTimes(a, j, k - 1);
    }
  }

  /** A sum of n j terms is a sum of j terms, times a sum of n terms of a larger base. */
  lemma {:induction false} SumTimes(a: nat, j: nat, n: nat)
    ensures Sum(a, n * j) == Sum(a, j) * Sum(Pow(a, j), n)
  {
    if n > 0 {
      SumTimes(a, j, n - 1);
      var m := (n - 1) * j;
      assert n * j == m + j;
      SumSplit(a, m, j);
      var b := Pow(a, j);
      SumTimesStep(Sum(a, j), Sum(b, n - 1), b);
      assert Sum(b, n) == Sum(b, n - 1) * b + 1;
      hide *;
    }
  }

  lemma SumTimesStep(s: int, t: int, b: int)
    ensures (s * t) * b + s == s * (t * b + 1)
  {
    assert (s * t) * b == s * (t * b);
  }

  /** 0 + 1 + ... + (k - 1). */
  function Triangle(k: nat): (t: nat)
    ensures 2 * t == k * (k - 1)
  {
    if k == 0 then 0 else Triangle(k - 1) + k - 1
  }

  function Remainder(y: nat, k: nat): nat {
    if k == 0 then 0 else Remainder(y, k - 1) * (1 + y) + Triangle(k - 1)
  }

  /** The first two terms of the binomial expansion of the sum. */
  lemma {:induction false} SumExpansion(y: nat, k: nat)
    ensures Sum(1 + y, k) == k + y * Triangle(k) + y * (y * Remainder(y, k))
  {
    if k > 0 {
      SumExpansion(y, k - 1);
      var t, q := Triangle(k - 1), Remainder(y, k - 1);
      ExpansionStep(y, k - 1, t, q);
    }
  }

  lemma ExpansionStep(y: nat, k: nat, t: nat, q: nat)
    ensures (k + y * t + y * (y * q)) * (1 + y) + 1 == (k + 1) + y * (t + k) + y * (y * (q * (1 + y) + t))
  {
    var yt, yq := y * t, y * q;
    assert (k + yt + y * yq) * (1 + y) == k + yt + y * yq + k * y + yt * y + (y * yq) * y;
    assert y * (t + k) == yt + k * y;
    assert q * (1 + y) + t == q + yq + t by {
      assert q * (1 + y) == q + q * y;
    }
    assert y * (q + yq + t) == yq + y * yq + yt;
    assert y * (yq + y * yq + yt) == y * yq + y * (y * yq) + y * yt;
  }

  // ----- prime powers

  /** p divides a - 1 for an odd p, and 4 divides it for p = 2. */
  predicate Admissible(p: nat, a: nat) {
    p >= 2 && a >= 1 && Divides(p, a - 1) && (p % 2 == 1 || (p == 2 && Divides(4, a - 1)))
  }

  lemma SumResidue(p: nat, a: nat, k: nat)
    requires p > 0 && a >= 1 && Divides(p, a - 1)
    ensures Mod(p, Sum(a, k)) == Mod(p, k)
  {
    hide *;
    var y := a - 1;
    var m, t, q := y / p, Triangle(k), Remainder(y, k);
    Quotient(p, y);
    SumExpansion(y, k);
    ResidueStep(p, y, m, k, t, q);
    AddMultiple(p, k, m * (t + y * q));
  }

  lemma ResidueStep(p: int, y: int, m: int, k: int, t: int, q: int)
    requires y == p * m
    ensures k + y * t + y * (y * q) == k + p * (m * (t + y * q))
  {
    var z := t + y * q;
    assert y * z == y * t + y * (y * q);
    assert (p * m) * z == p * (m * z);
  }

  /** The larger sum has exactly one factor p more. */
  lemma UnitFactor(p: nat, b: nat) returns (u: int)
    requires Admissible(p, b)
    ensures Sum(b, p) == p * u && Mod(p, u) == 1
  {
    hide Sum, Pow, Divides, Mod;
    var w: int;
    if p % 2 == 1 {
      w := OddUnit(p, b - 1);
    } else {
      Quotient(4, b - 1);
      w := (b - 1) / 4;
      SumOfTwo(b);
    }
    u := 1 + p * w;
    AddMultiple(p, 1, w);
    ModOne(p);
  }

  lemma ModOne(p: nat)
    requires p >= 2
    ensures Mod(p, 1) == 1
  {
  }

  lemma SumOfTwo(b: nat)
    ensures Sum(b, 2) == b + 1
  {
    assert Sum(b, 1) == 1;
  }

  lemma OddUnit(p: nat, y: nat) returns (w: int)
    requires p > 0 && p % 2 == 1 && Divides(p, y)
    ensures Sum(1 + y, p) == p * (1 + p * w)
  {
    hide *;
    SumExpansion(y, p);
    OddTriangle(p, p / 2);
    Quotient(p, y);
    var m, q := y / p, Remainder(y, p);
    OddFactor(p, y, m, p / 2, q);
    w := m * (p / 2) + m * (m * q);
  }

  lemma QuotientNat(p: nat, y: nat)
    requires p > 0
    ensures y / p >= 0
  {
  }

  lemma OddTriangle(p: nat, h: nat)
    requires p == 2 * h + 1
    ensures Triangle(p) == p * h
  {
    assert p * (p - 1) == 2 * (p * h);
  }

  lemma OddFactor(p: int, y: int, m: int, h: int, q: int)
    requires y == p * m
    ensures p + y * (p * h) + y * (y * q) == p * (1 + p * (m * h + m * (m * q)))
  {
    assert y * (p * h) == p * (p * (m * h));
    assert y * (y * q) == p * (p * (m * (m * q))) by {
      assert y * q == p * (m * q);
      assert y * (p * (m * q)) == p * (p * (m * (m * q)));
    }
  }

  /** A factor that is 1 modulo p does not affect divisibility by powers of p. */
  lemma {:induction false} CancelOne(p: nat, e: nat, s: int, u: int)
    requires p >= 2 && Mod(p, u) == 1 && Pow(p, e) > 0 && Divides(Pow(p, e), s * u)
    ensures Divides(Pow(p, e), s)
    decreases e
  {
    hide Mod;
    if e > 0 {
      var m := Pow(p, e - 1);
      Positive(p, e - 1);
      LastFactor(p, m, s, u);
      Scale(p, m, (s / p) * u);
      CancelOne(p, e - 1, s / p, u);
      Scale(p, m, s / p);
    } else {
      AllDivide(s);
    }
  }

  lemma AllDivide(s: int)
    ensures Divides(1, s)
  {
  }

  lemma LastFactor(p: nat, m: nat, s: int, u: int)
    requires p >= 2 && m > 0 && Mod(p, u) == 1 && m * p > 0 && Divides(m * p, s * u)
    ensures s == p * (s / p) && s * u == p * ((s / p) * u)
  {
    hide Divides, Mod;
    assert m * p == p * m;
    Through(p, m, s * u);
    OneMore(p, s, u);
    Quotient(p, s);
    Associative(p, s / p, u);
  }

  lemma OneMore(p: nat, s: int, u: int)
    requires p >= 2 && Mod(p, u) == 1
    ensures Divides(p, s * u) <==> Divides(p, s)
  {
    var w := u / p;
    assert s * u == s + p * (s * w) by {
      assert s * (1 + p * w) == s + p * (s * w);
    }
    hide Mod;
    AddMultiple(p, s, s * w);
  }

  lemma {:induction false} Positive(p: nat, e: nat)
    requires p > 0
    ensures Pow(p, e) > 0
  {
    if e > 0 {
      Positive(p, e - 1);
    }
  }

  /** A factor with an inverse modulo p does not either. */
  lemma CancelUnit(p: nat, e: nat, s: int, w: int, inverse: nat)
    requires p >= 2 && Mod(p, w * inverse) == 1 && Pow(p, e) > 0
    ensures Divides(Pow(p, e), s * w) <==> Divides(Pow(p, e), s)
  {
    hide *;
    var m := Pow(p, e);
    if Divides(m, s) {
      Factor(m, s, w);
    } else if Divides(m, s * w) {
      Factor(m, s * w, inverse);
      Associative(s, w, inverse);
      CancelOne(p, e, s, w * inverse);
    }
  }

  /** The sum of k powers of a has as many factors p as k has. */
  lemma {:induction false} SumDivisible(p: nat, e: nat, a: nat, k: nat)
    requires Admissible(p, a) && Pow(p, e) > 0
    ensures Divides(Pow(p, e), Sum(a, k)) <==> Divides(Pow(p, e), k)
    decreases e
  {
    hide Mod, Sum;
    if e > 0 {
      SumResidue(p, a, k);
      var m := Pow(p, e - 1);
      Positive(p, e - 1);
      assert Pow(p, e) == p * m;
      if !Divides(p, k) {
        Through(p, m, k);
        Through(p, m, Sum(a, k));
      } else {
        Quotient(p, k);
        QuotientNat(p, k);
        SumDivisibleStep(p, e, a, k / p);
      }
    } else {
      AllDivide(k);
      AllDivide(Sum(a, k));
    }
  }

  lemma {:induction false} SumDivisibleStep(p: nat, e: nat, a: nat, j: nat)
    requires Admissible(p, a) && e > 0 && Pow(p, e) > 0
    ensures Divides(Pow(p, e), Sum(a, p * j)) <==> Divides(Pow(p, e), p * j)
    decreases e, 0
  {
    hide Sum, Divides, Admissible;
    var m, s := Pow(p, e - 1), Sum(a, j);
    assert Pow(p, e) == m * p;
    hide Pow;
    Positive(p, e - 1);
    PowAdmissible(p, a, j);
    SumTimes(a, j, p);
    var u := UnitFactor(p, Pow(a, j));
    Commute(s, p, u);
    Scale(p, m, s * u);
    if Divides(m, s * u) {
      CancelOne(p, e - 1, s, u);
    }
    if Divides(m, s) {
      Factor(m, s, u);
    }
    SumDivisible(p, e - 1, a, j);
    Scale(p, m, j);
  }

  lemma Commute(s: int, p: int, u: int)
    ensures s * (p * u) == p * (s * u)
  {
  }

  lemma PowAdmissible(p: nat, a: nat, j: nat)
    requires Admissible(p, a)
    ensures Admissible(p, Pow(a, j))
  {
    hide Divides, Pow, Sum;
    SumPow(a, j);
    Positive(a, j);
    Factor(p, a - 1, Sum(a, j));
    if p == 2 {
      Factor(4, a - 1, Sum(a, j));
    }
  }

  // ----- common factors and primes

  /** m and n have no common factor: u and v are the witnesses. */
  lemma Coprime(m: nat, n: nat, u: int, v: int, x: int)
    requires m > 0 && n > 0 && m * u + n * v == 1
    ensures m * n > 0 && (Divides(m * n, x) <==> Divides(m, x) && Divides(n, x))
  {
    hide Divides;
    Through(m, n, x);
    assert m * n == n * m;
    Through(n, m, x);
    if Divides(m, x) && Divides(n, x) {
      var i, j := x / m, x / n;
      Quotient(m, x);
      Quotient(n, x);
      Combine(m, n, u, v, x, i, j);
      Multiple(m * n, j * u + i * v);
    }
  }

  lemma Combine(m: int, n: int, u: int, v: int, x: int, i: int, j: int)
    requires m * u + n * v == 1 && x == m * i && x == n * j
    ensures x == m * n * (j * u + i * v)
  {
    assert x * (m * u) == m * n * (j * u) by {
      assert (n * j) * (m * u) == m * n * (j * u);
    }
    assert x * (n * v) == m * n * (i * v) by {
      assert (m * i) * (n * v) == m * n * (i * v);
    }
    assert x * (m * u + n * v) == x * (m * u) + x * (n * v);
  }

  /** The greatest common factor, as a sum of multiples. */
  lemma Bezout(a: nat, b: nat) returns (g: nat, u: int, v: int)
    requires a > 0 || b > 0
    ensures g > 0 && g == a * u + b * v && Divides(g, a) && Divides(g, b)
    decreases b
  {
    if b == 0 {
      g, u, v := a, 1, 0;
      Multiple(a, 1);
      AllZero(g);
    } else {
      hide Divides;
      var x, y;
      g, x, y := Bezout(b, a % b);
      u, v := y, x - (a / b) * y;
      Recombine(a, b, a / b, a % b, x, y);
      Factor(g, b, a / b);
      SumDivides(g, b * (a / b), a % b);
    }
  }

  lemma AllZero(m: nat)
    requires m > 0
    ensures Divides(m, 0)
  {
  }

  lemma Recombine(a: int, b: int, q: int, r: int, x: int, y: int)
    requires a == b * q + r
    ensures b * x + r * y == a * y + b * (x - q * y)
  {
    assert a * y == b * (q * y) + r * y;
  }

  lemma SumDivides(m: nat, x: int, y: int)
    requires m > 0 && Divides(m, x) && Divides(m, y)
    ensures Divides(m, x + y)
  {
    Quotient(m, x);
    AddMultiple(m, y, x / m);
  }

  /** k is not a proper divisor of m. */
  predicate Fails1(m: nat, k: nat) {
    k == 0 || k >= m || m % k != 0
  }

  predicate Fails4(m: nat, k: nat) {
    Fails1(m, k) && Fails1(m, k + 1) && Fails1(m, k + 2) && Fails1(m, k + 3)
  }

  predicate Fails16(m: nat, k: nat) {
    Fails4(m, k) && Fails4(m, k + 4) && Fails4(m, k + 8) && Fails4(m, k + 12)
  }

  predicate Fails64(m: nat, k: nat) {
    Fails16(m, k) && Fails16(m, k + 16) && Fails16(m, k + 32) && Fails16(m, k + 48)
  }

  lemma FailsAt(m: nat, k: nat, j: nat)
    requires k <= j < k + 64 && Fails64(m, k)
    ensures Fails1(m, j)
  {
    hide Fails1;
  }

  /** Trial division by 2 to n. */
  predicate Tried(m: nat, n: nat) {
    forall k :: 2 <= k <= n ==> Fails1(m, k)
  }

  /** If trial division fails up to the square root, m is prime. */
  lemma IsPrime(m: nat, n: nat, a: nat, b: nat)
    requires Tried(m, n) && m < (n + 1) * (n + 1) && m >= 2 && a * b == m
    ensures a == 1 || b == 1
  {
    hide Fails1;
    assert a > 0 && b > 0;
    if a > n && b > n {
      Squares(a, b, n);
      assert false;
    } else if a <= n {
      assert a == 1 || Fails1(m, a);
      OnlyOne(m, a, b);
    } else {
      assert b == 1 || Fails1(m, b);
      OnlyOne(m, b, a);
    }
  }

  lemma Squares(a: nat, b: nat, n: nat)
    requires a > n && b > n
    ensures a * b >= (n + 1) * (n + 1)
  {
    assert a * b >= a * (n + 1);
    assert a * (n + 1) >= (n + 1) * (n + 1);
  }

  lemma OnlyOne(m: nat, a: nat, b: nat)
    requires a * b == m && m >= 2 && a > 0 && (a == 1 || Fails1(m, a))
    ensures a == 1 || b == 1
  {
    Multiple(a, b);
    if b > 1 {
      assert a * b >= 2 * a;
    }
  }

  /** A prime that does not divide d has no common factor with it. */
  lemma PrimeOrDivides(q: nat, n: nat, d: nat) returns (u: int, v: int)
    requires Tried(q, n) && q < (n + 1) * (n + 1) && q >= 2 && !Divides(q, d)
    ensures d * u + q * v == 1
  {
    hide Tried;
    var g;
    g, u, v := Bezout(d, q);
    Quotient(g, q);
    IsPrime(q, n, g, q / g);
    if g != 1 {
      WholeQuotient(g, q);
      assert false;
    }
  }

  lemma WholeQuotient(g: nat, q: nat)
    requires g > 0 && q == g * (q / g) && q / g == 1
    ensures g == q
  {
  }
}
