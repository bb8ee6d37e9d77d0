/** Fixed-width integer arithmetic of the C sources, on unbounded integers. */
module Arith {

  function Pow2(n: nat): (p: nat)
    ensures p >= 1
  {
    if n == 0 then 1 else 2 * Pow2(n - 1)
  }

  lemma {:induction false} Pow2Add(a: nat, b: nat)
    ensures Pow2(a + b) == Pow2(a) * Pow2(b)
  {
    if a == 0 {
    } else {
      Pow2Add(a - 1, b);
      assert Pow2(a) * Pow2(b) == 2 * (Pow2(a - 1) * Pow2(b));
    }
  }

  lemma {:induction false} Pow2Monotone(a: nat, b: nat)
    requires a <= b
    ensures Pow2(a) <= Pow2(b)
  {
    if a == 0 {
    } else {
      Pow2Monotone(a - 1, b - 1);
    }
  }

  /** A field of b bits placed above r bits needs r + b bits. */
  lemma {:induction false} Pow2Fit(x: nat, r: nat, v: nat, b: nat)
    requires x < Pow2(r) && v < Pow2(b)
    ensures x + v * Pow2(r) < Pow2(r + b)
  {
    if r == 0 {
    } else {
      var p := Pow2(r - 1);
      assert v * Pow2(r) == 2 * (v * p);
      Pow2Fit(x / 2, r - 1, v, b);
    }
  }

  /** `x >> n`: an arithmetic shift, which floors. */
  function Shr(x: int, n: nat): int
    decreases n
  {
    if n == 0 then x else Shr(x / 2, n - 1)
  }

  /** `x >> n` of an unsigned value. */
  function ShrNat(x: nat, n: nat): (r: nat)
    ensures r == Shr(x, n)
    decreases n
  {
    if n == 0 then x else ShrNat(x / 2, n - 1)
  }

  lemma {:induction false} ShrBounds(x: int, n: nat)
    ensures Pow2(n) * Shr(x, n) <= x < Pow2(n) * Shr(x, n) + Pow2(n)
    decreases n
  {
    if n == 0 {
    } else {
      ShrBounds(x / 2, n - 1);
      var p, s := Pow2(n - 1), Shr(x, n);
      assert p * s <= x / 2 < p * s + p;
      assert Pow2(n) * s == 2 * (p * s);
    }
  }

  lemma {:induction false} ShrMonotone(x: int, y: int, n: nat)
    requires x <= y
    ensures Shr(x, n) <= Shr(y, n)
    decreases n
  {
    if n == 0 {
    } else {
      ShrMonotone(x / 2, y / 2, n - 1);
    }
  }

  /** `x & ((1 << n) - 1)`, the low n bits. */
  function Low(x: nat, n: nat): (r: nat)
    ensures r < Pow2(n)
  {
    if n == 0 then 0 else x % 2 + 2 * Low(x / 2, n - 1)
  }

  lemma {:induction false} LowIdentity(x: nat, n: nat)
    requires x < Pow2(n)
    ensures Low(x, n) == x
  {
    if n == 0 {
    } else {
      LowIdentity(x / 2, n - 1);
    }
  }

  /** Conversion to int16_t, which keeps the low 16 bits. */
  function Int16(x: int): (r: int)
    ensures IsInt16(r)
    ensures IsInt16(x) ==> r == x
  {
    (x + 0x8000) % 0x10000 - 0x8000
  }

  predicate IsInt16(x: int) {
    -0x8000 <= x <= 0x7FFF
  }

  predicate IsInt32(x: int) {
    -0x8000_0000 <= x <= 0x7FFF_FFFF
  }

  /** `saturate16`, which `sat_add16` and `sat_sub16` apply to an exact sum. */
  function Sat16(x: int): (r: int)
    ensures IsInt16(r)
  {
    if x > 0x7FFF then 0x7FFF else if x < -0x8000 then -0x8000 else x
  }

  function Abs(x: int): nat {
    if x < 0 then -x else x
  }

  function Min(x: int, y: int): int {
    if x < y then x else y
  }

  function Max(x: int, y: int): int {
    if x < y then y else x
  }

  /** The sum of a sequence. */
  function Total(s: seq<int>): int {
    if s == [] then 0 else Total(s[..|s| - 1]) + s[|s| - 1]
  }

  lemma {:induction false} TotalUpdate(s: seq<int>, i: nat, v: int)
    requires i < |s|
    ensures Total(s[i := v]) == Total(s) - s[i] + v
    decreases |s|
  {
    var n := |s| - 1;
    if i == n {
      assert s[i := v][..n] == s[..n];
    } else {
      assert s[i := v][..n] == s[..n][i := v];
      TotalUpdate(s[..n], i, v);
    }
  }

  lemma {:induction false} TotalOfNats(s: seq<nat>)
    ensures Total(s) >= 0
  {
    if s != [] {
      TotalOfNats(s[..|s| - 1]);
    }
  }

  /** No multiple of m but 0 lies strictly between -m and m. */
  lemma Multiples(m: nat, k: int)
    requires m > 0
    ensures k != 0 ==> m * k >= m || m * k + m <= 0
  {
    if k > 0 {
      assert m * (k - 1) >= 0;
    } else if k < 0 {
      assert m * (-k - 1) >= 0;
    }
  }

  /** Shifting out the zeros of a multiple. */
  lemma {:induction false} ShrMultiple(k: int, n: nat)
    ensures Shr(k * Pow2(n), n) == k
  {
    if n > 0 {
      assert k * Pow2(n) == 2 * (k * Pow2(n - 1));
      ShrMultiple(k, n - 1);
    }
  }

  /** A product of bounded factors. */
  lemma ProductBound(x: int, y: int, m: int, n: int)
    requires -m <= x <= m && -n <= y <= n
    ensures -(m * n) <= x * y <= m * n
  {
    Expand(m, x, n, y);
    Expand(m, x, n, -y);
  }

  lemma Expand(m: int, x: int, n: int, y: int)
    requires -m <= x <= m && -n <= y <= n
    ensures x * y <= m * n
  {
    assert (m - x) * (n + y) >= 0;
    assert (m + x) * (n - y) >= 0;
    assert (m - x) * (n + y) == m * n + m * y - x * n - x * y;
    assert (m + x) * (n - y) == m * n - m * y + x * n - x * y;
  }
}
