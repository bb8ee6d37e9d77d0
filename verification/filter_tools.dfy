/** The recursive radix-2 transform of src/filter_tools.c, in exact arithmetic. */
module FilterTools {
  import opened Arith

  const MAX_FFT_LEN: nat := 8192

  datatype Complex = Complex(re: real, im: real)

  const ZERO := Complex(0.0, 0.0)
  const ONE := Complex(1.0, 0.0)

  function Add(x: Complex, y: Complex): Complex {
    Complex(x.re + y.re, x.im + y.im)
  }

  function Sub(x: Complex, y: Complex): Complex {
    Complex(x.re - y.re, x.im - y.im)
  }

  function Mul(x: Complex, y: Complex): Complex {
    Complex(x.re * y.re - x.im * y.im, x.re * y.im + x.im * y.re)
  }

  // ----- sizes and strides

  /** The transform lengths: the powers of two up to MAX_FFT_LEN. */
  predicate IsLength(n: nat) {
    n in {1, 2, 4, 8, 16, 32, 64, 128, 256, 512, 1024, 2048, 4096, 8192}
  }

  function Stride(n: nat): nat
    requires n > 0
  {
    MAX_FFT_LEN / n
  }

  lemma LengthBound(n: nat)
    requires IsLength(n)
    ensures 0 < n <= MAX_FFT_LEN
  {
  }

  lemma StrideLaws(n: nat)
    requires IsLength(n) && n > 1
    ensures IsLength(n / 2) && n == 2 * (n / 2)
    ensures Stride(n / 2) == 2 * Stride(n) && Stride(n) * (n / 2) == MAX_FFT_LEN / 2
  {
  }

  /** Every twiddle index stays inside the table. */
  lemma TwiddleInTable(n: nat, i: nat)
    requires IsLength(n) && i < n / 2
    ensures i * Stride(n) < MAX_FFT_LEN / 2
  {
    StrideLaws(n);
    assert (i + 1) * Stride(n) <= (n / 2) * Stride(n);
  }

  // ----- the transform as a function

  type Table = c: seq<Complex> | |c| == 4096 witness seq(4096, _ => ZERO)

  function Evens(x: seq<Complex>): (e: seq<Complex>)
    ensures |e| == (|x| + 1) / 2
  {
    seq((|x| + 1) / 2, i requires 0 <= i < (|x| + 1) / 2 => x[2 * i])
  }

  function Odds(x: seq<Complex>): (o: seq<Complex>)
    ensures |o| == |x| / 2
  {
    seq(|x| / 2, i requires 0 <= i < |x| / 2 => x[2 * i + 1])
  }

  lemma EvenAndOdd(x: seq<Complex>, i: nat)
    requires 2 * i + 1 < |x|
    ensures Evens(x)[i] == x[2 * i] && Odds(x)[i] == x[2 * i + 1]
  {
  }

  /** Entry k of the butterfly of two half-length transforms. */
  function Butterfly(circle: Table, e: seq<Complex>, o: seq<Complex>, k: nat): Complex
    requires |e| == |o| && IsLength(2 * |e|) && k < 2 * |e|
  {
    var h := |e|;
    var i := if k < h then k else k - h;
    TwiddleInTable(2 * h, i);
    var wkt := Mul(circle[i * Stride(2 * h)], o[i]);
    if k < h then Add(e[i], wkt) else Sub(e[i], wkt)
  }

  function Butterflies(circle: Table, e: seq<Complex>, o: seq<Complex>): (y: seq<Complex>)
    requires |e| == |o| && IsLength(2 * |e|)
    ensures |y| == 2 * |e|
  {
    seq(2 * |e|, k requires 0 <= k < 2 * |e| => Butterfly(circle, e, o, k))
  }

  lemma ButterflyPair(circle: Table, e: seq<Complex>, o: seq<Complex>, i: nat)
    requires |e| == |o| && IsLength(2 * |e|) && i < |e|
    ensures var p := i * Stride(2 * |e|);
      && p < MAX_FFT_LEN / 2
      && Butterflies(circle, e, o)[i] == Add(e[i], Mul(circle[p], o[i]))
      && Butterflies(circle, e, o)[|e| + i] == Sub(e[i], Mul(circle[p], o[i]))
  {
    TwiddleInTable(2 * |e|, i);
  }

  function Fft(circle: Table, x: seq<Complex>): (y: seq<Complex>)
    requires IsLength(|x|)
    ensures |y| == |x|
    decreases |x|
  {
    if |x| == 1 then x
    else
      StrideLaws(|x|);
      Butterflies(circle, Fft(circle, Evens(x)), Fft(circle, Odds(x)))
  }

  // ----- the transform is the Fourier sum

  predicate Homomorphic(w: nat -> Complex, a: nat, b: nat) {
    w(a + b) == Mul(w(a), w(b))
  }

  /** w(a) stands for exp(2*pi*j*a/8192); the table holds its first half turn. */
  ghost predicate IsTwiddle(circle: Table, w: nat -> Complex) {
    && w(0) == ONE && w(MAX_FFT_LEN / 2) == Sub(ZERO, ONE)
    && (forall a, b :: Homomorphic(w, a, b))
    && (forall p :: 0 <= p < MAX_FFT_LEN / 2 ==> circle[p] == w(p))
  }

  /** The sum over j of x[j] * w(q * j). */
  function Dft(w: nat -> Complex, x: seq<Complex>, q: nat): Complex {
    if x == [] then ZERO
    else Add(Dft(w, x[..|x| - 1], q), Mul(x[|x| - 1], w(q * (|x| - 1))))
  }

  lemma MulCommutes(x: Complex, y: Complex)
    ensures Mul(x, y) == Mul(y, x)
  {
  }

  lemma MulAssociates(x: Complex, y: Complex, z: Complex)
    ensures Mul(Mul(x, y), z) == Mul(x, Mul(y, z))
  {
  }

  lemma MulDistributes(x: Complex, y: Complex, z: Complex)
    ensures Mul(x, Add(y, z)) == Add(Mul(x, y), Mul(x, z))
  {
  }

  /** Whole turns do not change a twiddle. */
  lemma {:induction false} WholeTurns(circle: Table, w: nat -> Complex, a: nat, j: nat)
    requires IsTwiddle(circle, w)
    ensures w(a + MAX_FFT_LEN * j) == w(a)
  {
    if j == 0 {
    } else {
      var half := MAX_FFT_LEN / 2;
      var b := a + MAX_FFT_LEN * (j - 1);
      WholeTurns(circle, w, a, j - 1);
      assert Homomorphic(w, b, half) && Homomorphic(w, b + half, half);
      assert a + MAX_FFT_LEN * j == b + half + half;
    }
  }

  lemma {:induction false} DftWholeTurn(circle: Table, w: nat -> Complex, x: seq<Complex>, q: nat)
    requires IsTwiddle(circle, w)
    ensures Dft(w, x, q + MAX_FFT_LEN) == Dft(w, x, q)
  {
    if x == [] {
    } else {
      var j := |x| - 1;
      DftWholeTurn(circle, w, x[..j], q);
      WholeTurns(circle, w, q * j, j);
      assert (q + MAX_FFT_LEN) * j == q * j + MAX_FFT_LEN * j;
    }
  }

  /** A sum splits into its even and its odd terms. */
  lemma {:induction false} DftSplit(w: nat -> Complex, x: seq<Complex>, q: nat)
    requires forall a, b :: Homomorphic(w, a, b)
    requires |x| % 2 == 0
    ensures Dft(w, x, q) == Add(Dft(w, Evens(x), 2 * q), Mul(w(q), Dft(w, Odds(x), 2 * q)))
  {
    hide *;
    if x == [] {
      SplitOfNothing(w, q);
    } else {
      var h := |x| / 2 - 1;
      var y := x[..2 * h];
      DftSplit(w, y, q);
      DftLastTwo(w, x, q, h, 2 * q * h);
      SplitStep(w, q, 2 * q * h, x[2 * h], x[2 * h + 1], Dft(w, Evens(y), 2 * q), Dft(w, Odds(y), 2 * q));
    }
  }

  lemma SplitOfNothing(w: nat -> Complex, q: nat)
    ensures Dft(w, [], q) == Add(Dft(w, Evens([]), 2 * q), Mul(w(q), Dft(w, Odds([]), 2 * q)))
  {
    AddZero(w(q));
    hide Add, Mul;
  }

  lemma AddZero(x: Complex)
    ensures Add(ZERO, Mul(x, ZERO)) == ZERO
  {
  }

  lemma DftLastTwo(w: nat -> Complex, x: seq<Complex>, q: nat, h: nat, p: nat)
    requires |x| == 2 * h + 2 && p == 2 * q * h
    ensures var y := x[..2 * h];
      && Dft(w, x, q) == Add(Add(Dft(w, y, q), Mul(x[2 * h], w(p))), Mul(x[2 * h + 1], w(q + p)))
      && Dft(w, Evens(x), 2 * q) == Add(Dft(w, Evens(y), 2 * q), Mul(x[2 * h], w(p)))
      && Dft(w, Odds(x), 2 * q) == Add(Dft(w, Odds(y), 2 * q), Mul(x[2 * h + 1], w(p)))
  {
    hide Dft, Add, Mul;
    var y := x[..2 * h];
    assert x[..2 * h + 1][..2 * h] == y;
    Angles(q, h, p);
    DftLast(w, x, q, 2 * h + 1, q + p);
    DftLast(w, x[..2 * h + 1], q, 2 * h, p);
    assert Evens(x)[..h] == Evens(y) && Odds(x)[..h] == Odds(y);
    DftLast(w, Evens(x), 2 * q, h, p);
    DftLast(w, Odds(x), 2 * q, h, p);
  }

  lemma Angles(q: nat, h: nat, p: nat)
    requires p == 2 * q * h
    ensures q * (2 * h) == p && q * (2 * h + 1) == q + p
  {
  }

  lemma DftLast(w: nat -> Complex, x: seq<Complex>, q: nat, n: nat, a: nat)
    requires |x| == n + 1 && a == q * n
    ensures Dft(w, x, q) == Add(Dft(w, x[..n], q), Mul(x[n], w(a)))
  {
    hide Add, Mul;
  }

  lemma SplitStep(w: nat -> Complex, q: nat, p: nat, a: Complex, b: Complex, e: Complex, o: Complex)
    requires forall a, b :: Homomorphic(w, a, b)
    ensures Add(Add(Add(e, Mul(w(q), o)), Mul(a, w(p))), Mul(b, w(q + p)))
         == Add(Add(e, Mul(a, w(p))), Mul(w(q), Add(o, Mul(b, w(p)))))
  {
    assert Mul(b, w(q + p)) == Mul(w(q), Mul(b, w(p))) by {
      hide Mul;
      assert Homomorphic(w, q, p);
      MulAssociates(w(q), b, w(p));
      MulAssociates(b, w(q), w(p));
      MulCommutes(w(q), b);
    }
    MulDistributes(w(q), o, Mul(b, w(p)));
    hide Mul;
  }

  /** Half a turn on, a twiddle changes sign. */
  lemma HalfTurn(circle: Table, w: nat -> Complex, a: nat)
    requires IsTwiddle(circle, w)
    ensures w(a + MAX_FFT_LEN / 2) == Sub(ZERO, w(a))
  {
    hide Mul;
    hide Sub;
    assert Homomorphic(w, a, MAX_FFT_LEN / 2);
    MulMinusOne(w(a));
  }

  lemma MulMinusOne(x: Complex)
    ensures Mul(x, Sub(ZERO, ONE)) == Sub(ZERO, x)
  {
  }

  lemma MulNegates(x: Complex, y: Complex, z: Complex)
    ensures Add(x, Mul(Sub(ZERO, y), z)) == Sub(x, Mul(y, z))
  {
  }

  /** Entry k of the transform is the Fourier sum of the input at k cycles per frame. */
  lemma {:induction false} FftIsDft(circle: Table, w: nat -> Complex, x: seq<Complex>, k: nat)
    requires IsTwiddle(circle, w) && IsLength(|x|) && k < |x|
    ensures Fft(circle, x)[k] == Dft(w, x, Stride(|x|) * k)
    decreases |x|
  {
    assert w(0) == ONE;
    hide Dft, Butterfly, Evens, Odds, Stride, IsTwiddle, Fft;
    if |x| == 1 {
      FftOfOne(circle, x);
      SingleIsDft(w, x, Stride(|x|) * k);
    } else {
      FftStep(circle, x, k);
      StrideLaws(|x|);
      var h := |x| / 2;
      var i := if k < h then k else k - h;
      FftIsDft(circle, w, Evens(x), i);
      FftIsDft(circle, w, Odds(x), i);
      ButterflyIsDft(circle, w, x, k, Fft(circle, Evens(x)), Fft(circle, Odds(x)));
    }
  }

  lemma FftOfOne(circle: Table, x: seq<Complex>)
    requires |x| == 1
    ensures Fft(circle, x) == x
  {
  }

  lemma FftStep(circle: Table, x: seq<Complex>, k: nat)
    requires IsLength(|x|) && 1 < |x| && k < |x|
    ensures |Evens(x)| == |Odds(x)| && IsLength(|Evens(x)|) && 2 * |Evens(x)| == |x|
    ensures Fft(circle, x)[k] == Butterfly(circle, Fft(circle, Evens(x)), Fft(circle, Odds(x)), k)
  {
    hide Butterfly, Evens, Odds;
    StrideLaws(|x|);
  }

  lemma SingleIsDft(w: nat -> Complex, x: seq<Complex>, q: nat)
    requires |x| == 1 && w(0) == ONE
    ensures Dft(w, x, q) == x[0]
  {
    assert x[..0] == [];
  }

  /** The sum and the difference of a butterfly, for a stride of t. */
  lemma ButterflySums(circle: Table, w: nat -> Complex, x: seq<Complex>, t: nat, h: nat, i: nat, e: Complex, o: Complex)
    requires IsTwiddle(circle, w) && |x| == 2 * h && t * i < MAX_FFT_LEN / 2
    requires e == Dft(w, Evens(x), 2 * (t * i)) && o == Dft(w, Odds(x), 2 * (t * i))
    ensures Add(e, Mul(circle[t * i], o)) == Dft(w, x, t * i)
    ensures Sub(e, Mul(circle[t * i], o)) == Dft(w, x, t * i + MAX_FFT_LEN / 2)
  {
    hide *;
    TableHolds(circle, w, t * i);
    TwiddleSplit(circle, w, x, t * i);
    SplitHalfTurn(circle, w, x, t * i);
  }

  lemma TableHolds(circle: Table, w: nat -> Complex, p: nat)
    requires IsTwiddle(circle, w) && p < MAX_FFT_LEN / 2
    ensures circle[p] == w(p)
  {
  }

  lemma TwiddleSplit(circle: Table, w: nat -> Complex, x: seq<Complex>, q: nat)
    requires IsTwiddle(circle, w) && |x| % 2 == 0
    ensures Dft(w, x, q) == Add(Dft(w, Evens(x), 2 * q), Mul(w(q), Dft(w, Odds(x), 2 * q)))
  {
    DftSplit(w, x, q);
  }

  /** Half a turn on, the odd terms change sign. */
  lemma SplitHalfTurn(circle: Table, w: nat -> Complex, x: seq<Complex>, q: nat)
    requires IsTwiddle(circle, w) && |x| % 2 == 0
    ensures Dft(w, x, q + MAX_FFT_LEN / 2) == Sub(Dft(w, Evens(x), 2 * q), Mul(w(q), Dft(w, Odds(x), 2 * q)))
  {
    hide Dft, Evens, Odds, Add, Sub, Mul, IsTwiddle;
    TwiddleSplit(circle, w, x, q + MAX_FFT_LEN / 2);
    HalfTurn(circle, w, q);
    assert 2 * (q + MAX_FFT_LEN / 2) == 2 * q + MAX_FFT_LEN;
    DftWholeTurn(circle, w, Evens(x), 2 * q);
    DftWholeTurn(circle, w, Odds(x), 2 * q);
    MulNegates(Dft(w, Evens(x), 2 * q), w(q), Dft(w, Odds(x), 2 * q));
  }

  lemma ButterflyIsDft(circle: Table, w: nat -> Complex, x: seq<Complex>, k: nat, e: seq<Complex>, o: seq<Complex>)
    requires IsTwiddle(circle, w) && IsLength(|x|) && |x| > 1 && k < |x|
    requires 2 * |e| == 2 * |o| == |x|
    requires var i := if k < |e| then k else k - |e|;
      e[i] == Dft(w, Evens(x), Stride(|e|) * i) && o[i] == Dft(w, Odds(x), Stride(|e|) * i)
    ensures Butterfly(circle, e, o, k) == Dft(w, x, Stride(|x|) * k)
  {
    hide Mul, Add, Sub, Dft, Evens, Odds, Stride, IsLength, IsTwiddle;
    StrideLaws(|x|);
    var h, t := |x| / 2, Stride(|x|);
    var i := if k < h then k else k - h;
    TwiddleInTable(|x|, i);
    StrideTwice(t, Stride(h), h, i);
    ButterflySums(circle, w, x, t, h, i, e[i], o[i]);
  }

  lemma StrideTwice(t: nat, t2: nat, h: nat, i: nat)
    requires t2 == 2 * t && t * h == MAX_FFT_LEN / 2
    ensures t2 * i == 2 * (t * i) && t * (i + h) == t * i + MAX_FFT_LEN / 2 && i * t == t * i
  {
  }

  // ----- products are complex products, and the transform conserves energy

  const J := Complex(0.0, 1.0)

  lemma JSquared()
    ensures Mul(J, J) == Sub(ZERO, ONE)
  {
  }

  /** The squared absolute value. */
  function Norm(z: Complex): real {
    z.re * z.re + z.im * z.im
  }

  lemma NormMul(x: Complex, y: Complex)
    ensures Norm(Mul(x, y)) == Norm(x) * Norm(y)
  {
    var a, b, c, d := x.re, x.im, y.re, y.im;
    NormOfProduct(a, b, c, d);
  }

  lemma NormOfProduct(a: real, b: real, c: real, d: real)
    ensures (a * c - b * d) * (a * c - b * d) + (a * d + b * c) * (a * d + b * c) == (a * a + b * b) * (c * c + d * d)
  {
    var ac, bd, ad, bc := a * c, b * d, a * d, b * c;
    assert (ac - bd) * (ac - bd) == ac * ac - 2.0 * (ac * bd) + bd * bd;
    assert (ad + bc) * (ad + bc) == ad * ad + 2.0 * (ad * bc) + bc * bc;
    assert ac * bd == ad * bc;
    assert (a * a + b * b) * (c * c + d * d) == ac * ac + bd * bd + ad * ad + bc * bc;
  }

  /** The energy of a sequence. */
  function Energy(x: seq<Complex>): real {
    if x == [] then 0.0 else Energy(x[..|x| - 1]) + Norm(x[|x| - 1])
  }

  lemma {:induction false} EnergyAppend(a: seq<Complex>, b: seq<Complex>)
    ensures Energy(a + b) == Energy(a) + Energy(b)
  {
    hide Norm;
    if b == [] {
      assert a + b == a;
    } else {
      EnergyAppend(a, b[..|b| - 1]);
      assert (a + b)[..|a + b| - 1] == a + b[..|b| - 1];
    }
  }

  lemma {:induction false} EnergySplit(x: seq<Complex>)
    requires |x| % 2 == 0
    ensures Energy(x) == Energy(Evens(x)) + Energy(Odds(x))
  {
    hide Norm;
    if x == [] {
    } else {
      var n, y := |x| - 2, x[..|x| - 2];
      EnergySplit(y);
      assert x[..n + 1][..n] == y;
      assert Evens(x)[..n / 2] == Evens(y) && Odds(x)[..n / 2] == Odds(y);
      EvenAndOdd(x, n / 2);
    }
  }

  lemma Parallelogram(a: Complex, b: Complex)
    ensures Norm(Add(a, b)) + Norm(Sub(a, b)) == 2.0 * Norm(a) + 2.0 * Norm(b)
  {
  }

  /** Twiddles of length one. */
  predicate OnCircle(circle: Table) {
    forall p :: 0 <= p < |circle| ==> Norm(circle[p]) == 1.0
  }

  lemma PairEnergy(circle: Table, e: seq<Complex>, o: seq<Complex>, i: nat)
    requires OnCircle(circle) && |e| == |o| && IsLength(2 * |e|) && i < |e|
    ensures var y := Butterflies(circle, e, o);
      Norm(y[i]) + Norm(y[|e| + i]) == 2.0 * (Norm(e[i]) + Norm(o[i]))
  {
    hide Norm, Add, Sub, Mul, Butterflies, IsLength, Stride;
    var p := i * Stride(2 * |e|);
    ButterflyPair(circle, e, o, i);
    Parallelogram(e[i], Mul(circle[p], o[i]));
    NormMul(circle[p], o[i]);
  }

  lemma {:induction false} PairsEnergy(circle: Table, e: seq<Complex>, o: seq<Complex>, k: nat)
    requires OnCircle(circle) && |e| == |o| && IsLength(2 * |e|) && k <= |e|
    ensures var y := Butterflies(circle, e, o);
      Energy(y[..k]) + Energy(y[|e|..|e| + k]) == 2.0 * (Energy(e[..k]) + Energy(o[..k]))
  {
    hide Norm, Butterflies, IsLength, OnCircle, Energy;
    var y := Butterflies(circle, e, o);
    if k == 0 {
      NoEnergy();
      assert y[..0] == y[|e|..|e|] == e[..0] == o[..0] == [];
    } else {
      PairsEnergy(circle, e, o, k - 1);
      PairEnergy(circle, e, o, k - 1);
      EnergyNext(y, 0, k);
      EnergyNext(y, |e|, k);
      EnergyNext(e, 0, k);
      EnergyNext(o, 0, k);
    }
  }

  lemma NoEnergy()
    ensures Energy([]) == 0.0
  {
  }

  lemma EnergyNext(x: seq<Complex>, a: nat, k: nat)
    requires 0 < k && a + k <= |x|
    ensures Energy(x[a..a + k]) == Energy(x[a..a + k - 1]) + Norm(x[a + k - 1])
    ensures x[0..k] == x[..k] && x[0..k - 1] == x[..k - 1]
  {
    hide Norm;
    assert x[a..a + k][..k - 1] == x[a..a + k - 1];
  }

  lemma ButterfliesEnergy(circle: Table, e: seq<Complex>, o: seq<Complex>)
    requires OnCircle(circle) && |e| == |o| && IsLength(2 * |e|)
    ensures Energy(Butterflies(circle, e, o)) == 2.0 * (Energy(e) + Energy(o))
  {
    hide Energy, Butterflies, IsLength, OnCircle;
    var y, h := Butterflies(circle, e, o), |e|;
    PairsEnergy(circle, e, o, h);
    EnergyAppend(y[..h], y[h..]);
    assert y == y[..h] + y[h..] && y[h..] == y[h..h + h] && e[..h] == e && o[..h] == o;
  }

  /** The transform multiplies the energy by the length, whatever twiddles of length one the table holds. */
  lemma {:induction false} Parseval(circle: Table, x: seq<Complex>)
    requires OnCircle(circle) && IsLength(|x|)
    ensures Energy(Fft(circle, x)) == |x| as real * Energy(x)
    decreases |x|
  {
    hide Energy, Evens, Odds, Butterflies, OnCircle;
    if |x| == 1 {
    } else {
      StrideLaws(|x|);
      Parseval(circle, Evens(x));
      Parseval(circle, Odds(x));
      ButterfliesEnergy(circle, Fft(circle, Evens(x)), Fft(circle, Odds(x)));
      EnergySplit(x);
      Twice(|x| / 2, Energy(Evens(x)), Energy(Odds(x)));
    }
  }

  lemma Twice(h: nat, a: real, b: real)
    ensures 2.0 * (h as real * a + h as real * b) == (2 * h) as real * (a + b)
  {
  }

  /** Twiddles have length one: some power of each is one. */
  lemma TwiddlesOnCircle(circle: Table, w: nat -> Complex)
    requires IsTwiddle(circle, w)
    ensures OnCircle(circle)
  {
    forall p | 0 <= p < |circle| ensures Norm(circle[p]) == 1.0 {
      UnitNorm(circle, w, p, 13);
      TableHolds(circle, w, p);
    }
  }

  lemma {:induction false} UnitNorm(circle: Table, w: nat -> Complex, a: nat, k: nat)
    requires IsTwiddle(circle, w) && k <= 13
    ensures Norm(w(Pow2(13 - k) * a)) == 1.0
    decreases k
  {
    hide IsTwiddle, Mul, Norm;
    if k == 0 {
      FullTurns(circle, w, a);
    } else {
      UnitNorm(circle, w, a, k - 1);
      var b := Pow2(13 - k) * a;
      Doubled(Pow2(13 - k), Pow2(13 - k + 1), a);
      NormDoubles(circle, w, b);
      RootOfOne(w(b));
    }
  }

  lemma Doubled(p: nat, q: nat, a: nat)
    requires q == 2 * p
    ensures q * a == p * a + p * a
  {
  }

  lemma FullTurns(circle: Table, w: nat -> Complex, a: nat)
    requires IsTwiddle(circle, w)
    ensures Norm(w(Pow2(13) * a)) == 1.0
  {
    assert Pow2(13) == MAX_FFT_LEN;
    WholeTurns(circle, w, 0, a);
  }

  lemma NormDoubles(circle: Table, w: nat -> Complex, b: nat)
    requires IsTwiddle(circle, w)
    ensures Norm(w(b + b)) == Norm(w(b)) * Norm(w(b))
  {
    assert Homomorphic(w, b, b);
    NormMul(w(b), w(b));
  }

  lemma RootOfOne(z: Complex)
    requires Norm(z) * Norm(z) == 1.0
    ensures Norm(z) == 1.0
  {
    Square(z.re);
    Square(z.im);
    Root(Norm(z));
  }

  lemma Square(x: real)
    ensures x * x >= 0.0
  {
  }

  lemma Root(r: real)
    requires r >= 0.0 && r * r == 1.0
    ensures r == 1.0
  {
    assert (r - 1.0) * (r + 1.0) == r * r - 1.0;
    Factor(r - 1.0, r + 1.0);
  }

  lemma Factor(a: real, b: real)
    requires a * b == 0.0 && b > 0.0
    ensures a == 0.0
  {
  }

  /** Four points, written out: the turn is counterclockwise. */
  lemma FourPoints(circle: Table, a: Complex, b: Complex, c: Complex, d: Complex)
    requires circle[0] == ONE && circle[2048] == J
    ensures Fft(circle, [a, b, c, d])
         == [Complex(a.re + b.re + c.re + d.re, a.im + b.im + c.im + d.im),
             Complex(a.re - b.im - c.re + d.im, a.im + b.re - c.im - d.re),
             Complex(a.re - b.re + c.re - d.re, a.im - b.im + c.im - d.im),
             Complex(a.re + b.im - c.re - d.im, a.im - b.re - c.im + d.re)]
  {
    var x := [a, b, c, d];
    assert Evens(x) == [a, c] && Odds(x) == [b, d];
    TwoPoints(circle, a, c);
    TwoPoints(circle, b, d);
    var e, o := Fft(circle, [a, c]), Fft(circle, [b, d]);
    assert Stride(4) == 2048;
    hide Fft, Evens, Odds;
    FftStep(circle, x, 0);
    FftStep(circle, x, 1);
    FftStep(circle, x, 2);
    FftStep(circle, x, 3);
    assert Fft(circle, x) == [Butterfly(circle, e, o, 0), Butterfly(circle, e, o, 1),
                              Butterfly(circle, e, o, 2), Butterfly(circle, e, o, 3)];
  }

  lemma TwoPoints(circle: Table, a: Complex, b: Complex)
    requires circle[0] == ONE
    ensures Fft(circle, [a, b]) == [Add(a, b), Sub(a, b)]
  {
    var x := [a, b];
    assert Evens(x) == [a] && Odds(x) == [b];
    FftOfOne(circle, [a]);
    FftOfOne(circle, [b]);
    assert Stride(2) == 4096;
    FftStep(circle, x, 0);
    FftStep(circle, x, 1);
    hide Fft, Evens, Odds;
    assert Fft(circle, x) == [Butterfly(circle, [a], [b], 0), Butterfly(circle, [a], [b], 1)];
  }

  // ----- the transform in place

  /** a[base..base + |x|] is x. */
  ghost predicate Holds(a: array<Complex>, base: nat, x: seq<Complex>)
    reads a
  {
    base + |x| <= a.Length && forall k :: base <= k < base + |x| ==> a[k] == x[k - base]
  }

  /** The first loop of fftx: even entries to the first half of temp, odd ones to the second. */
  method Deinterleave(data: array<Complex>, temp: array<Complex>, base: nat, h: nat, ghost x: seq<Complex>)
    requires data != temp && |x| == 2 * h && Holds(data, base, x) && base + 2 * h <= temp.Length
    modifies temp
    ensures Holds(temp, base, Evens(x)) && Holds(temp, base + h, Odds(x))
    ensures forall k :: 0 <= k < temp.Length && !(base <= k < base + 2 * h) ==> temp[k] == old(temp[k])
  {
    hide Evens, Odds;
    var i := 0;
    while i < h
      invariant 0 <= i <= h
      invariant forall k :: base <= k < base + i ==> temp[k] == Evens(x)[k - base]
      invariant forall k :: base + h <= k < base + h + i ==> temp[k] == Odds(x)[k - base - h]
      invariant forall k :: 0 <= k < temp.Length && !(base <= k < base + 2 * h) ==> temp[k] == old(temp[k])
    {
      EvenAndOdd(x, i);
      var i2 := i * 2;
      temp[base + i] := data[base + i2];
      temp[base + h + i] := data[base + i2 + 1];
      i := i + 1;
    }
  }

  /** The second loop of fftx: butterflies from temp back into data. */
  method Combine(data: array<Complex>, temp: array<Complex>, base: nat, h: nat, circle: Table,
                 ghost e: seq<Complex>, ghost o: seq<Complex>)
    requires data != temp && h > 0 && IsLength(2 * h) && base + 2 * h <= data.Length
    requires |e| == |o| == h && Holds(temp, base, e) && Holds(temp, base + h, o)
    modifies data
    ensures Holds(data, base, Butterflies(circle, e, o))
    ensures forall k :: 0 <= k < data.Length && !(base <= k < base + 2 * h) ==> data[k] == old(data[k])
  {
    hide Butterflies;
    hide Add;
    hide Sub;
    hide Mul;
    hide Stride;
    hide IsLength;
    var t := Stride(2 * h);
    var p := 0;
    var i := 0;
    ghost var y := Butterflies(circle, e, o);
    while i < h
      invariant 0 <= i <= h && p == i * t
      invariant forall k :: base <= k < base + i ==> data[k] == y[k - base]
      invariant forall k :: base + h <= k < base + h + i ==> data[k] == y[k - base]
      invariant forall k :: 0 <= k < data.Length && !(base <= k < base + 2 * h) ==> data[k] == old(data[k])
    {
      ButterflyPair(circle, e, o, i);
      var wkt := Mul(circle[p], temp[base + h + i]);
      data[base + i] := Add(temp[base + i], wkt);
      data[base + h + i] := Sub(temp[base + i], wkt);
      p := p + t;
      i := i + 1;
    }
  }

  /** fftx on data[base..base + n], which holds x, with temp[base..base + n] as work space. */
  method Fftx(data: array<Complex>, temp: array<Complex>, base: nat, n: nat, circle: Table, ghost x: seq<Complex>)
    requires data != temp && |x| == n && Holds(data, base, x) && base + n <= temp.Length && IsLength(n)
    modifies data, temp
    ensures Holds(data, base, Fft(circle, x))
    ensures forall k :: 0 <= k < data.Length && !(base <= k < base + n) ==> data[k] == old(data[k])
    ensures forall k :: 0 <= k < temp.Length && !(base <= k < base + n) ==> temp[k] == old(temp[k])
    decreases n
  {
    hide Butterflies;
    hide Evens;
    hide Odds;
    if n > 1 {
      StrideLaws(n);
      var h := n / 2;
      Deinterleave(data, temp, base, h, x);
      Fftx(temp, data, base, h, circle, Evens(x));
      Fftx(temp, data, base + h, h, circle, Odds(x));
      Combine(data, temp, base, h, circle, Fft(circle, Evens(x)), Fft(circle, Odds(x)));
    }
  }

  /** ifft, given its table: data[k] becomes the sum over j of data[j] * w((8192 / len) * k * j). */
  method Ifft(data: array<Complex>, len: nat, circle: Table, ghost w: nat -> Complex)
    requires IsLength(len) && len <= data.Length && IsTwiddle(circle, w)
    modifies data
    ensures forall k :: 0 <= k < len ==> data[k] == Dft(w, old(data[..len]), MAX_FFT_LEN / len * k)
    ensures forall k :: len <= k < data.Length ==> data[k] == old(data[k])
  {
    hide Fft, Dft, IsTwiddle, IsLength;
    ghost var x := data[..len];
    LengthBound(len);
    var temp := new Complex[MAX_FFT_LEN];
    Fftx(data, temp, 0, len, circle, x);
    forall k | 0 <= k < len
      ensures data[k] == Dft(w, x, MAX_FFT_LEN / len * k)
    {
      FftIsDft(circle, w, x, k);
    }
  }
}
