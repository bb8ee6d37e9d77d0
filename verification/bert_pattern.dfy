/** Test patterns of src/bert.c: shift-register generation and self-synchronising reception. */
module BertPattern {
  /** The pattern class 1 presets of bert_init with max_zeros 0. Registers have shift2 + 1 bits. */
  datatype Preset = ItuO151Pattern23 | ItuO151Pattern15 | ItuO152Pattern11 | ItuO153Pattern9 {
    function Shift(): (s: nat)
      ensures 0 < s < Length()
    {
      match this
      case ItuO151Pattern23 => 5
      case ItuO151Pattern15 => 1
      case ItuO152Pattern11 => 2
      case ItuO153Pattern9 => 4
    }

    function Shift2(): nat {
      match this
      case ItuO151Pattern23 => 22
      case ItuO151Pattern15 => 14
      case ItuO152Pattern11 => 10
      case ItuO153Pattern9 => 8
    }

    function Length(): nat {
      Shift2() + 1
    }

    function Invert(): bool {
      ItuO151Pattern23? || ItuO151Pattern15?
    }

    function ResyncTime(): (t: nat)
      ensures Length() < t
    {
      match this
      case ItuO151Pattern23 => 56
      case ItuO151Pattern15 => 40
      case ItuO152Pattern11 => 32
      case ItuO153Pattern9 => 28
    }
  }

  // ----- the shift register

  /** A register as its bits, bit 0 first. */
  predicate IsRegister(p: Preset, r: seq<bool>) {
    |r| == p.Length()
  }

  /** (reg >> 1) | (((reg ^ (reg >> shift)) & 1) << shift2). */
  function Next(p: Preset, r: seq<bool>): (s: seq<bool>)
    requires IsRegister(p, r)
    ensures IsRegister(p, s)
  {
    r[1..] + [r[0] != r[p.Shift()]]
  }

  function Advance(p: Preset, r: seq<bool>, n: nat): (s: seq<bool>)
    requires IsRegister(p, r)
    ensures IsRegister(p, s)
  {
    if n == 0 then r else Next(p, Advance(p, r, n - 1))
  }

  /** Bit t of the pattern that starts from register r. */
  function Pattern(p: Preset, r: seq<bool>, t: nat): bool
    requires IsRegister(p, r)
  {
    Advance(p, r, t)[0]
  }

  lemma {:induction false} AdvanceTwice(p: Preset, r: seq<bool>, m: nat, n: nat)
    requires IsRegister(p, r)
    ensures Advance(p, Advance(p, r, m), n) == Advance(p, r, m + n)
    decreases n
  {
    if n == 0 {
    } else {
      AdvanceTwice(p, r, m, n - 1);
    }
  }

  /** A register holds the next Length() bits of the pattern. */
  lemma {:induction false} RegisterHoldsPattern(p: Preset, r: seq<bool>, t: nat, i: nat)
    requires IsRegister(p, r) && i < p.Length()
    ensures Advance(p, r, t)[i] == Pattern(p, r, t + i)
    decreases i
  {
    if i == 0 {
    } else {
      RegisterHoldsPattern(p, r, t + 1, i - 1);
      assert Advance(p, r, t + 1)[i - 1] == Advance(p, r, t)[i];
    }
  }

  /** The recurrence of the generator polynomial. */
  lemma PatternRecurs(p: Preset, r: seq<bool>, t: nat)
    requires IsRegister(p, r)
    ensures Pattern(p, r, t + p.Length()) == (Pattern(p, r, t) != Pattern(p, r, t + p.Shift()))
  {
    var last := p.Length() - 1;
    RegisterHoldsPattern(p, r, t + 1, last);
    RegisterHoldsPattern(p, r, t, p.Shift());
    assert Advance(p, r, t + 1)[last] == (Advance(p, r, t)[0] != Advance(p, r, t)[p.Shift()]);
    assert t + 1 + last == t + p.Length();
  }

  // ----- resynchronisation

  /** A receiver register is in step: it will send, shift bits from now, what the sender sends now. */
  predicate Aligned(p: Preset, rx: seq<bool>, tx: seq<bool>)
    requires IsRegister(p, rx) && IsRegister(p, tx)
  {
    Advance(p, rx, p.Shift()) == tx
  }

  /** In step, the receiver predicts the sender's next bit, and both step on together. */
  lemma AlignedPredicts(p: Preset, rx: seq<bool>, tx: seq<bool>)
    requires IsRegister(p, rx) && IsRegister(p, tx) && Aligned(p, rx, tx)
    ensures rx[p.Shift()] == tx[0] && Aligned(p, Next(p, rx), Next(p, tx))
  {
    RegisterHoldsPattern(p, rx, 0, p.Shift());
    AdvanceTwice(p, rx, 1, p.Shift());
    AdvanceTwice(p, rx, p.Shift(), 1);
    assert Advance(p, rx, 1) == Next(p, rx);
    assert Advance(p, tx, 1) == Next(p, tx);
  }

  /** A resynchronising step makes bit shift agree with the received bit. */
  function Corrected(p: Preset, r: seq<bool>, bit: bool): (s: seq<bool>)
    requires IsRegister(p, r)
    ensures IsRegister(p, s)
  {
    Next(p, r[p.Shift() := bit])
  }

  /** The receiver register after n error-free bits from a sender that started at tx. */
  function Tracked(p: Preset, rx: seq<bool>, tx: seq<bool>, n: nat): (s: seq<bool>)
    requires IsRegister(p, rx) && IsRegister(p, tx)
    ensures IsRegister(p, s)
  {
    if n == 0 then rx else Corrected(p, Tracked(p, rx, tx, n - 1), Pattern(p, tx, n - 1))
  }

  /** Which positions the received bits have put right after n bits. */
  predicate PutRight(p: Preset, n: nat, i: nat) {
    if i < p.Shift() then p.Shift() <= i + n else p.Length() + p.Shift() <= i + n
  }

  lemma CorrectedBit(p: Preset, r: seq<bool>, bit: bool, i: nat)
    requires IsRegister(p, r) && i < p.Length()
    ensures Corrected(p, r, bit)[i]
         == if i == p.Length() - 1 then r[0] != bit else if i + 1 == p.Shift() then bit else r[i + 1]
  {
  }

  lemma {:induction false} TrackedBits(p: Preset, rx: seq<bool>, tx: seq<bool>, n: nat, i: nat)
    requires IsRegister(p, rx) && IsRegister(p, tx)
    requires i < p.Length() && PutRight(p, n, i)
    ensures Tracked(p, rx, tx, n)[i] == Pattern(p, tx, n - p.Shift() + i)
    decreases n
  {
    hide Pattern, Advance, Corrected;
    CorrectedBit(p, Tracked(p, rx, tx, n - 1), Pattern(p, tx, n - 1), i);
    if i == p.Length() - 1 {
      TrackedBits(p, rx, tx, n - 1, 0);
      PatternRecurs(p, tx, n - 1 - p.Shift());
    } else if i + 1 != p.Shift() {
      TrackedBits(p, rx, tx, n - 1, i + 1);
    }
  }

  /** From any register, Length() error-free bits bring the receiver into step. */
  lemma SelfSynchronises(p: Preset, rx: seq<bool>, tx: seq<bool>, n: nat)
    requires IsRegister(p, rx) && IsRegister(p, tx) && n >= p.Length()
    ensures Aligned(p, Tracked(p, rx, tx, n), Advance(p, tx, n))
  {
    var r, s := Tracked(p, rx, tx, n), p.Shift();
    var t := Advance(p, tx, n - s);
    forall i | 0 <= i < p.Length() ensures r[i] == t[i] {
      TrackedBits(p, rx, tx, n, i);
      RegisterHoldsPattern(p, tx, n - s, i);
    }
    assert r == t;
    AdvanceTwice(p, tx, n - s, s);
  }
}
