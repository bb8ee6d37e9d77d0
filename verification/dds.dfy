/** The quadrant-folded sine table of src/dds_int.c. */
module Dds {
  const STEPS: nat := 256
  const TURN: nat := 0x1_0000_0000 // the uint32_t phase of a whole turn

  type Amplitude = a: int | 0 <= a <= 32767

  /** The table of the first quadrant, in rows of 16. */
  function Row(k: nat): (r: seq<Amplitude>)
    ensures |r| == if k < 16 then 16 else 1
  {
    match k
    case 0 => [0, 201, 402, 603, 804, 1005, 1206, 1407, 1608, 1809, 2009, 2210, 2410, 2611, 2811, 3012]
    case 1 => [3212, 3412, 3612, 3811, 4011, 4210, 4410, 4609, 4808, 5007, 5205, 5404, 5602, 5800, 5998, 6195]
    case 2 => [6393, 6590, 6786, 6983, 7179, 7375, 7571, 7767, 7962, 8157, 8351, 8545, 8739, 8933, 9126, 9319]
    case 3 => [
      9512, 9704, 9896, 10087, 10278, 10469, 10659, 10849, 11039, 11228, 11417, 11605, 11793, 11980, 12167, 12353]
    case 4 => [
      12539, 12725, 12910, 13094, 13279, 13462, 13645, 13828, 14010, 14191, 14372, 14553, 14732, 14912, 15090, 15269]
    case 5 => [
      15446, 15623, 15800, 15976, 16151, 16325, 16499, 16673, 16846, 17018, 17189, 17360, 17530, 17700, 17869, 18037]
    case 6 => [
      18204, 18371, 18537, 18703, 18868, 19032, 19195, 19357, 19519, 19680, 19841, 20000, 20159, 20317, 20475, 20631]
    case 7 => [
      20787, 20942, 21096, 21250, 21403, 21554, 21705, 21856, 22005, 22154, 22301, 22448, 22594, 22739, 22884, 23027]
    case 8 => [
      23170, 23311, 23452, 23592, 23731, 23870, 24007, 24143, 24279, 24413, 24547, 24680, 24811, 24942, 25072, 25201]
    case 9 => [
      25329, 25456, 25582, 25708, 25832, 25955, 26077, 26198, 26319, 26438, 26556, 26674, 26790, 26905, 27019, 27133]
    case 10 => [
      27245, 27356, 27466, 27575, 27683, 27790, 27896, 28001, 28105, 28208, 28310, 28411, 28510, 28609, 28706, 28803]
    case 11 => [
      28898, 28992, 29085, 29177, 29268, 29358, 29447, 29534, 29621, 29706, 29791, 29874, 29956, 30037, 30117, 30195]
    case 12 => [
      30273, 30349, 30424, 30498, 30571, 30643, 30714, 30783, 30852, 30919, 30985, 31050, 31113, 31176, 31237, 31297]
    case 13 => [
      31356, 31414, 31470, 31526, 31580, 31633, 31685, 31736, 31785, 31833, 31880, 31926, 31971, 32014, 32057, 32098]
    case 14 => [
      32137, 32176, 32213, 32250, 32285, 32318, 32351, 32382, 32412, 32441, 32469, 32495, 32521, 32545, 32567, 32589]
    case 15 => [
      32609, 32628, 32646, 32663, 32678, 32692, 32705, 32717, 32728, 32737, 32745, 32752, 32757, 32761, 32765, 32766]
    case _ => [32767]
  }

  function Sine(step: nat): (a: Amplitude)
    requires step <= STEPS
  {
    Row(step / 16)[step % 16]
  }

  /** The four quadrants, in 1024 steps of a turn. */
  function Quadrants(p: nat): (amp: int)
    ensures -32767 <= amp <= 32767
  {
    hide Sine;
    var step := p % STEPS;
    var folded := if (p / STEPS) % 2 == 1 then STEPS - step else step;
    var a: int := Sine(folded);
    if (p / (2 * STEPS)) % 2 == 1 then -a else a
  }

  /** dds_lookup. */
  function Lookup(phase: nat): (amp: int)
    ensures -32767 <= amp <= 32767
  {
    Quadrants(phase / 0x40_0000)
  }

  /** dds_advance: the phase wraps at a whole turn. */
  function Advanced(phase: nat, rate: int): (r: nat)
    ensures r < TURN
  {
    (phase + rate) % TURN
  }

  /** The real part of dds_complexi leads by a quarter of a turn. */
  function Cosine(phase: nat): (amp: int)
    ensures -32767 <= amp <= 32767
  {
    Lookup(Advanced(phase, 0x4000_0000))
  }

  /** Half a turn later the table gives the opposite value. */
  lemma HalfTurn(phase: nat)
    requires phase < TURN
    ensures Lookup(Advanced(phase, 0x8000_0000)) == -Lookup(phase)
  {
    hide Sine;
    var p := phase / 0x40_0000;
    assert Advanced(phase, 0x8000_0000) / 0x40_0000 == if p < 512 then p + 512 else p - 512;
    Opposite(if p < 512 then p else p - 512);
  }

  lemma HalfOn(p: nat)
    ensures (p + 512) % 256 == p % 256 && (p + 512) / 256 == p / 256 + 2 && (p + 512) / 512 == p / 512 + 1
  {
  }

  lemma Opposite(p: nat)
    ensures Quadrants(p + 512) == -Quadrants(p)
  {
    hide Sine;
    HalfOn(p);
    assert (p / 256 + 2) % 2 == (p / 256) % 2;
  }

  /** The sine rises as the cosine falls: over a quarter turn each is the other run backwards. */
  lemma QuarterTurn(p: nat)
    requires p < 256
    ensures Quadrants(p + 256) == Quadrants(256 - p)
  {
    hide Sine;
    if p > 0 {
      assert (p + 256) % 256 == p && (256 - p) % 256 == 256 - p;
      assert (p + 256) / 256 == 1 && (256 - p) / 256 == 0;
      assert (p + 256) / 512 == 0 && (256 - p) / 512 == 0;
    }
  }

  // ----- the samples of a turn

  /** A cosine and a sine on the circle of full amplitude, up to 0.004% of its square. */
  predicate OnCircle(c: int, s: int) {
    -43011 <= c * c + s * s - 32767 * 32767 <= 43011
  }

  /** From one pair to the next: the angle of a 1024th of a turn, up to 0.6%. */
  predicate OneStep(c: int, s: int, d: int, t: int) {
    6550254 <= c * t - s * d <= 6621806
  }

  predicate InRow(up: seq<Amplitude>, next: seq<Amplitude>, down: seq<Amplitude>, below: seq<Amplitude>, i: nat)
    requires i < 16 && |up| == 16 && |next| >= 1 && |down| >= 1 && |below| == 16
  {
    var c := if i == 0 then down[0] else below[16 - i];
    OnCircle(c, up[i]) && OneStep(c, up[i], below[15 - i], if i < 15 then up[i + 1] else next[0])
  }

  lemma Arc0(i: nat)
    requires 0 < i < 16
    ensures InRow(Row(0), Row(1), Row(16), Row(15), i)
  {
  }

  lemma ArcStart()
    ensures InRow(Row(0), Row(1), Row(16), Row(15), 0)
  {
  }

  lemma Arc1(i: nat)
    requires i < 16
    ensures InRow(Row(1), Row(2), Row(15), Row(14), i)
  {
  }

  lemma Arc2(i: nat)
    requires i < 16
    ensures InRow(Row(2), Row(3), Row(14), Row(13), i)
  {
  }

  lemma Arc3(i: nat)
    requires i < 16
    ensures InRow(Row(3), Row(4), Row(13), Row(12), i)
  {
  }

  lemma Arc4(i: nat)
    requires i < 16
    ensures InRow(Row(4), Row(5), Row(12), Row(11), i)
  {
  }

  lemma Arc5(i: nat)
    requires i < 16
    ensures InRow(Row(5), Row(6), Row(11), Row(10), i)
  {
  }

  lemma Arc6(i: nat)
    requires i < 16
    ensures InRow(Row(6), Row(7), Row(10), Row(9), i)
  {
  }

  lemma Arc7(i: nat)
    requires i < 16
    ensures InRow(Row(7), Row(8), Row(9), Row(8), i)
  {
  }

  lemma EachRow(k: nat, i: nat)
    requires k < 8 && i < 16
    ensures InRow(Row(k), Row(k + 1), Row(16 - k), Row(15 - k), i)
  {
    hide *;
    match k {
      case 0 => if i == 0 { ArcStart(); } else { Arc0(i); }
      case 1 => Arc1(i);
      case 2 => Arc2(i);
      case 3 => Arc3(i);
      case 4 => Arc4(i);
      case 5 => Arc5(i);
      case 6 => Arc6(i);
      case _ => Arc7(i);
    }
  }

  /** The first eighth of a turn, row by row, */
  lemma Eighth(p: nat)
    requires p < 128
    ensures OnCircle(Sine(256 - p), Sine(p)) && OneStep(Sine(256 - p), Sine(p), Sine(255 - p), Sine(p + 1))
  {
    hide Row, OnCircle, OneStep;
    EachRow(p / 16, p % 16);
  }

  lemma Diagonal()
    ensures OnCircle(Sine(128), Sine(128))
  {
  }

  lemma Mirrored(c: int, s: int, d: int, t: int)
    ensures OnCircle(c, s) == OnCircle(s, c) && OneStep(c, s, d, t) == OneStep(t, d, s, c)
  {
    assert t * c - d * s == c * t - s * d;
  }

  /** and the second, which is its mirror image. */
  lemma Quarter(p: nat)
    requires p < 256
    ensures OnCircle(Sine(256 - p), Sine(p)) && OneStep(Sine(256 - p), Sine(p), Sine(255 - p), Sine(p + 1))
  {
    hide Sine, OnCircle, OneStep;
    if p < 128 {
      Eighth(p);
    } else {
      Eighth(255 - p);
      Mirrored(Sine(p + 1), Sine(255 - p), Sine(p), Sine(256 - p));
      if p == 128 {
        Diagonal();
      } else {
        Eighth(256 - p);
        Mirrored(Sine(p), Sine(256 - p), 0, 0);
      }
    }
  }

  lemma Turned(c: int, s: int, d: int, t: int)
    requires OnCircle(c, s) && OneStep(c, s, d, t)
    ensures OnCircle(-s, c) && OneStep(-s, c, -t, d)
  {
    assert (-s) * (-s) == s * s && (-s) * d - c * (-t) == c * t - s * d;
  }

  /** Each quarter is the one before, turned. */
  lemma {:induction false} Steps(p: nat)
    ensures OnCircle(Quadrants(p + 256), Quadrants(p))
    ensures OneStep(Quadrants(p + 256), Quadrants(p), Quadrants(p + 257), Quadrants(p + 1))
    decreases p
  {
    hide *;
    if p < 256 {
      Quarter(p);
      FirstQuarter(p);
      FirstQuarter(p + 1);
    } else {
      var q := p - 256;
      Steps(q);
      Opposite(q);
      Opposite(q + 1);
      Turned(Quadrants(q + 256), Quadrants(q), Quadrants(q + 257), Quadrants(q + 1));
    }
  }

  lemma StartsAtZero()
    ensures Sine(0) == 0
  {
  }

  lemma FirstQuarter(p: nat)
    requires p <= 256
    ensures Quadrants(p) == Sine(p) && Quadrants(p + 256) == Sine(256 - p)
  {
    hide Sine;
    StartsAtZero();
    assert (p + 256) / 256 == p / 256 + 1 && (p + 256) % 256 == p % 256;
  }

  /**
   * The two parts of every sample of dds_complexi are in quadrature: they lie on one circle, and from each phase to
   * that of the next table entry the sample turns by the same angle, forwards.
   */
  lemma InQuadrature(phase: nat)
    requires phase < TURN
    ensures OnCircle(Cosine(phase), Lookup(phase))
    ensures var next := Advanced(phase, 0x40_0000);
      OneStep(Cosine(phase), Lookup(phase), Cosine(next), Lookup(next))
  {
    hide Quadrants, OnCircle, OneStep;
    Steps(phase / 0x40_0000);
    Phase(phase, 0x4000_0000);
    Phase(phase, 0x40_0000);
    Phase(phase, 0x4040_0000);
    assert Advanced(Advanced(phase, 0x40_0000), 0x4000_0000) == Advanced(phase, 0x4040_0000);
  }

  lemma Phase(phase: nat, rate: nat)
    requires phase < TURN && rate < TURN && rate % 0x40_0000 == 0
    ensures Lookup(Advanced(phase, rate)) == Quadrants(phase / 0x40_0000 + rate / 0x40_0000)
  {
    hide Quadrants;
    var p, q := phase / 0x40_0000, rate / 0x40_0000;
    if phase + rate >= TURN {
      Opposite(p + q - 1024);
      Opposite(p + q - 512);
    }
  }
}
