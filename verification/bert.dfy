/** The bit error rate tester of src/bert.c for the self-synchronising patterns (class 1). */
module Bert {
  import opened Arith
  import opened Bits
  import opened BertPattern
  import opened BertMeter

  const MEASUREMENT_STEP: nat := 100

  datatype Config = Config(preset: Preset, resyncLen: nat, resyncPercent: nat) {
    /** The bad bits within resyncLen that justify a resync. */
    function Threshold(): nat {
      resyncLen * resyncPercent / 100
    }
  }

  /** The receiver's part of bert_state_t. */
  datatype Rx = Rx(
    reg: seq<bool>, resync: nat, resyncBadBits: nat, resyncCnt: int, measurementStep: int,
    totalBits: nat, badBits: nat, resyncs: nat, meter: Meter)
  {
    predicate Valid(c: Config) {
      IsRegister(c.preset, reg) && meter.Valid()
    }
  }

  // ----- the code, on values

  /** A bit taken while looking for sync. */
  function ResyncStep(c: Config, s: Rx, bit: bool): (r: Rx)
    requires s.Valid(c)
    ensures r.Valid(c)
  {
    var p := c.preset;
    if bit == s.reg[p.Shift()] then
      s.(resync := if s.resync + 1 > p.ResyncTime() then 0 else s.resync + 1, reg := Next(p, s.reg))
    else
      s.(resync := 2, reg := Next(p, s.reg[p.Shift() := !s.reg[p.Shift()]]))
  }

  /** A bit counted in sync. */
  function SyncedStep(c: Config, s: Rx, bit: bool): (r: Rx)
    requires s.Valid(c)
    ensures r.Valid(c)
  {
    var bad := bit != s.reg[c.preset.Shift()];
    var resyncBadBits := s.resyncBadBits + if bad then 1 else 0;
    var due := s.measurementStep - 1 <= 0;
    var ended := s.resyncCnt - 1 <= 0;
    var lost := ended && resyncBadBits >= c.Threshold();
    Rx(Next(c.preset, s.reg),
       if lost then 1 else 0,
       if ended then 0 else resyncBadBits,
       if ended then c.resyncLen else s.resyncCnt - 1,
       if due then MEASUREMENT_STEP else s.measurementStep - 1,
       s.totalBits + 1,
       s.badBits + if bad then 1 else 0,
       s.resyncs + if lost then 1 else 0,
       Counted(s.meter, due, bad))
  }

  /** bert_put_bit for a bit from the line. */
  function PutBit(c: Config, s: Rx, line: bool): (r: Rx)
    requires s.Valid(c)
    ensures r.Valid(c)
  {
    var bit := line != c.preset.Invert();
    if s.resync > 0 then ResyncStep(c, s, bit) else SyncedStep(c, s, bit)
  }

  /** The line bit a sender with register tx sends, and what an error makes of it. */
  function LineBit(p: Preset, tx: seq<bool>, e: bool): bool
    requires IsRegister(p, tx)
  {
    (tx[0] != p.Invert()) != e
  }

  /** The receiver after |errors| bits of a sender that starts at tx, with the errors the line adds. */
  function Run(c: Config, s: Rx, tx: seq<bool>, errors: seq<bool>): (r: Rx)
    requires s.Valid(c) && IsRegister(c.preset, tx)
    ensures r.Valid(c)
  {
    if errors == [] then s
    else
      var n := |errors| - 1;
      PutBit(c, Run(c, s, tx, errors[..n]), LineBit(c.preset, Advance(c.preset, tx, n), errors[n]))
  }

  /** The state that bert_init leaves: every register bit set, and looking for sync. */
  function Initial(c: Config): (s: Rx)
    ensures s.Valid(c)
  {
    Rx(Ones(c.preset.Length()), 1, 0, c.resyncLen, MEASUREMENT_STEP, 0, 0, 0, InitialMeter())
  }

  /** The receiver after any bits from the line. */
  function Receive(c: Config, s: Rx, lines: seq<bool>): (r: Rx)
    requires s.Valid(c)
    ensures r.Valid(c)
  {
    if lines == [] then s
    else
      var n := |lines| - 1;
      PutBit(c, Receive(c, s, lines[..n]), lines[n])
  }

  /** The error flags of the bits counted in sync: whether the register predicted another bit. */
  function Flags(c: Config, s: Rx, lines: seq<bool>): seq<bool>
    requires s.Valid(c)
  {
    if lines == [] then []
    else
      var n := |lines| - 1;
      var r := Receive(c, s, lines[..n]);
      Flags(c, s, lines[..n])
      + if r.resync > 0 then [] else [(lines[n] != c.preset.Invert()) != r.reg[c.preset.Shift()]]
  }

  // ----- synchronisation from any register

  lemma RunClean(c: Config, s: Rx, tx: seq<bool>, n: nat)
    requires s.Valid(c) && IsRegister(c.preset, tx)
    ensures Run(c, s, tx, Zeros(n + 1))
         == PutBit(c, Run(c, s, tx, Zeros(n)), LineBit(c.preset, Advance(c.preset, tx, n), false))
  {
    hide PutBit;
    hide LineBit;
    assert Zeros(n + 1)[..n] == Zeros(n);
  }

  /** The receiver is still looking for sync after n clean bits, as far along as it must be. */
  predicate Searching(c: Config, s: Rx, tx: seq<bool>, n: nat)
    requires s.Valid(c) && IsRegister(c.preset, tx)
  {
    var r := Run(c, s, tx, Zeros(n));
    && r == s.(reg := Tracked(c.preset, s.reg, tx, n), resync := r.resync)
    && 1 <= r.resync <= n + 1 && (n > 0 ==> r.resync >= 2)
    && r.resync <= c.preset.ResyncTime()
    && r.resync + c.preset.Length() >= n + 2 * (if n >= c.preset.Length() then 1 else 0)
  }

  /** Sync has just been declared, in time and with the register in step. */
  predicate JustSynced(c: Config, s: Rx, tx: seq<bool>, n: nat)
    requires s.Valid(c) && IsRegister(c.preset, tx)
  {
    var r := Run(c, s, tx, Zeros(n));
    && r == s.(reg := r.reg, resync := 0)
    && Aligned(c.preset, r.reg, Advance(c.preset, tx, n))
    && c.preset.ResyncTime() <= n <= c.preset.Length() + c.preset.ResyncTime() - 1
  }

  /** One more clean bit: either the search goes on, or sync is declared with the register in step. */
  lemma SearchStep(c: Config, s: Rx, tx: seq<bool>, n: nat)
    requires s.Valid(c) && IsRegister(c.preset, tx) && s.resync == 1 && Searching(c, s, tx, n)
    ensures Searching(c, s, tx, n + 1) || JustSynced(c, s, tx, n + 1)
  {
    var p := c.preset;
    var t, r := Advance(p, tx, n), Run(c, s, tx, Zeros(n));
    RunClean(c, s, tx, n);
    var bit := LineBit(p, t, false) != p.Invert();
    assert bit == t[0] == Pattern(p, tx, n);
    assert Tracked(p, s.reg, tx, n + 1) == Corrected(p, r.reg, bit);
    if bit == r.reg[p.Shift()] {
      assert r.reg[p.Shift() := bit] == r.reg;
    }
    if n >= p.Length() {
      SelfSynchronises(p, s.reg, tx, n);
      AlignedPredicts(p, r.reg, t);
      if r.resync + 1 > p.ResyncTime() {
        SelfSynchronises(p, s.reg, tx, n + 1);
      }
    }
  }

  lemma Unsynced(c: Config, s: Rx, tx: seq<bool>, k: nat)
    requires s.Valid(c) && IsRegister(c.preset, tx) && Searching(c, s, tx, k)
    ensures Run(c, s, tx, Zeros(k)).resync > 0 && k < c.preset.Length() + c.preset.ResyncTime() - 1
  {
  }

  lemma SyncFrom(c: Config, s: Rx, tx: seq<bool>, k: nat) returns (n: nat)
    requires s.Valid(c) && IsRegister(c.preset, tx) && s.resync == 1 && Searching(c, s, tx, k)
    ensures n > k && JustSynced(c, s, tx, n)
    ensures forall i :: k <= i < n ==> Run(c, s, tx, Zeros(i)).resync > 0
    decreases c.preset.Length() + c.preset.ResyncTime() - k
  {
    SearchStep(c, s, tx, k);
    Unsynced(c, s, tx, k);
    hide PutBit;
    hide Run;
    hide Zeros;
    if Searching(c, s, tx, k + 1) {
      n := SyncFrom(c, s, tx, k + 1);
    } else {
      n := k + 1;
    }
  }

  /** From any register, a clean pattern gives sync within Length() + ResyncTime() - 1 bits, and only in step. */
  lemma SyncsInTime(c: Config, s: Rx, tx: seq<bool>) returns (n: nat)
    requires s.Valid(c) && IsRegister(c.preset, tx) && s.resync == 1
    ensures c.preset.ResyncTime() <= n <= c.preset.Length() + c.preset.ResyncTime() - 1
    ensures forall k :: 0 <= k < n ==> Run(c, s, tx, Zeros(k)).resync > 0
    ensures Run(c, s, tx, Zeros(n)) == s.(reg := Run(c, s, tx, Zeros(n)).reg, resync := 0)
    ensures Aligned(c.preset, Run(c, s, tx, Zeros(n)).reg, Advance(c.preset, tx, n))
  {
    assert Zeros(0) == [];
    n := SyncFrom(c, s, tx, 0);
  }

  // ----- counting in sync

  /** The totals, and the countdown to the next assessment, are those of this history of error flags. */
  predicate Tallied(r: Rx, totalBits: nat, badBits: nat, history: seq<bool>) {
    r.totalBits == totalBits && r.badBits == badBits && r.measurementStep == 100 - |history| % 100
  }

  /** The countdown of measurement_step after n counted bits. */
  lemma Countdown(n: nat, step: int)
    requires step == 100 - n % 100
    ensures step <= 1 <==> (n + 1) % 100 == 0
    ensures (if step <= 1 then 100 else step - 1) == 100 - (n + 1) % 100
  {
  }

  /** Searching counts nothing; in sync one flag is counted. */
  lemma TalliesOne(c: Config, r: Rx, line: bool, totalBits: nat, badBits: nat, history: seq<bool>)
    requires r.Valid(c) && Tallied(r, totalBits, badBits, history)
    ensures var s, e := PutBit(c, r, line), (line != c.preset.Invert()) != r.reg[c.preset.Shift()];
      if r.resync > 0 then Tallied(s, totalBits, badBits, history) && s.meter == r.meter
      else
        && Tallied(s, totalBits + 1, badBits + (if e then 1 else 0), history + [e])
        && s.meter == Counted(r.meter, (|history| + 1) % 100 == 0, e)
  {
    hide Counted;
    Countdown(|history|, r.measurementStep);
  }

  lemma OdometerOfOne(c: Config, r: Rx, line: bool, totalBits: nat, badBits: nat, history: seq<bool>)
    requires r.Valid(c) && Tallied(r, totalBits, badBits, history) && Odometer(r.meter, history)
    ensures var s, e := PutBit(c, r, line), (line != c.preset.Invert()) != r.reg[c.preset.Shift()];
      if r.resync > 0 then Tallied(s, totalBits, badBits, history) && Odometer(s.meter, history)
      else
        && Tallied(s, totalBits + 1, badBits + (if e then 1 else 0), history + [e])
        && Odometer(s.meter, history + [e])
  {
    hide PutBit, Odometer, Counted, Tallied;
    TalliesOne(c, r, line, totalBits, badBits, history);
    if r.resync == 0 {
      CountedIsOdometer(r.meter, history, (|history| + 1) % 100 == 0,
                        (line != c.preset.Invert()) != r.reg[c.preset.Shift()]);
    }
  }

  /**
   * Whatever the line brings, also while sync is lost and found again, the totals count the flags of the bits taken
   * in sync, and the meter is the odometer of all of them.
   */
  lemma {:induction false} CountsInSync(c: Config, s: Rx, history: seq<bool>, lines: seq<bool>)
    requires s.Valid(c) && Odometer(s.meter, history) && s.measurementStep == 100 - |history| % 100
    ensures var r, flags := Receive(c, s, lines), Flags(c, s, lines);
      && Tallied(r, s.totalBits + |flags|, s.badBits + Weight(flags), history + flags)
      && Odometer(r.meter, history + flags)
  {
    hide PutBit, Odometer, Counted, Tallied;
    if lines == [] {
      assert history + [] == history;
      assert Tallied(s, s.totalBits, s.badBits, history) by {
        IsTallied(s, history);
      }
    } else {
      var before := lines[..|lines| - 1];
      var r, flags := Receive(c, s, before), Flags(c, s, before);
      CountsInSync(c, s, history, before);
      OdometerOfOne(c, r, lines[|lines| - 1], s.totalBits + |flags|, s.badBits + Weight(flags), history + flags);
      assert flags + [] == flags;
      if r.resync == 0 {
        var e := (lines[|lines| - 1] != c.preset.Invert()) != r.reg[c.preset.Shift()];
        WeightSnoc(flags, e);
        Associate(history, flags, [e]);
      }
    }
  }

  lemma IsTallied(s: Rx, history: seq<bool>)
    requires s.measurementStep == 100 - |history| % 100
    ensures Tallied(s, s.totalBits, s.badBits, history)
  {
  }

  lemma TalliedFromStart(c: Config, lines: seq<bool>)
    ensures var r, flags := Receive(c, Initial(c), lines), Flags(c, Initial(c), lines);
      Tallied(r, |flags|, Weight(flags), flags) && Odometer(r.meter, flags)
  {
    hide Receive, Flags, Odometer, Tallied, Weight;
    var flags := Flags(c, Initial(c), lines);
    InitialIsOdometer();
    CountsInSync(c, Initial(c), [], lines);
    assert [] + flags == flags;
  }

  /** From bert_init on, totals, decades and reported rate are functions of the flags alone. */
  lemma {:induction false} CountsFromStart(c: Config, lines: seq<bool>)
    ensures var r, flags := Receive(c, Initial(c), lines), Flags(c, Initial(c), lines);
      && Tallied(r, |flags|, Weight(flags), flags)
      && r.meter == Metered(flags) && Odometer(r.meter, flags)
  {
    hide PutBit, Odometer, Counted, Tallied, Initial, Weight;
    TalliedFromStart(c, lines);
    if lines == [] {
      assert Initial(c).meter == Metered([]) by {
        NothingMetered();
        MeterAtStart(c);
      }
    } else {
      var before := lines[..|lines| - 1];
      var r, flags := Receive(c, Initial(c), before), Flags(c, Initial(c), before);
      CountsFromStart(c, before);
      TalliesOne(c, r, lines[|lines| - 1], |flags|, Weight(flags), flags);
      assert flags + [] == flags;
      if r.resync == 0 {
        MeteredSnoc(flags, (lines[|lines| - 1] != c.preset.Invert()) != r.reg[c.preset.Shift()]);
      }
    }
  }

  lemma MeterAtStart(c: Config)
    ensures Initial(c).meter == InitialMeter()
  {
  }

  lemma MeteredSnoc(flags: seq<bool>, e: bool)
    ensures Metered(flags + [e]) == Counted(Metered(flags), (|flags| + 1) % 100 == 0, e)
  {
    assert (flags + [e])[..|flags|] == flags;
  }

  /** In step and in sync, a bit counts as bad exactly if the line flipped it, and the register stays in step. */
  lemma CountsFlips(c: Config, s: Rx, tx: seq<bool>, e: bool)
    requires s.Valid(c) && IsRegister(c.preset, tx) && s.resync == 0 && Aligned(c.preset, s.reg, tx)
    ensures var r := PutBit(c, s, LineBit(c.preset, tx, e));
      && r.totalBits == s.totalBits + 1 && r.badBits == s.badBits + (if e then 1 else 0)
      && Aligned(c.preset, r.reg, Next(c.preset, tx))
      && r.meter == Counted(s.meter, s.measurementStep <= 1, e)
      && r.measurementStep == (if s.measurementStep <= 1 then MEASUREMENT_STEP else s.measurementStep - 1)
      && (s.resyncCnt > 1 ==> r.resyncCnt == s.resyncCnt - 1)
      && (r.resync > 0 <==> s.resyncCnt <= 1 && s.resyncBadBits + (if e then 1 else 0) >= c.Threshold())
  {
    AlignedPredicts(c.preset, s.reg, tx);
  }

  /** Sync was never lost before the last of these bits. */
  predicate InSyncThroughout(c: Config, s: Rx, tx: seq<bool>, errors: seq<bool>)
    requires s.Valid(c) && IsRegister(c.preset, tx)
  {
    forall k :: 0 <= k < |errors| ==> Run(c, s, tx, errors[..k]).resync == 0
  }

  /** The receiver is in step with a sender at tx, and has counted exactly this. */
  predicate HasCounted(c: Config, r: Rx, tx: seq<bool>, totalBits: nat, badBits: nat, history: seq<bool>)
    requires r.Valid(c) && IsRegister(c.preset, tx)
  {
    && r.totalBits == totalBits && r.badBits == badBits
    && Aligned(c.preset, r.reg, tx)
    && Odometer(r.meter, history) && r.measurementStep == 100 - |history| % 100
  }

  lemma CountsOneMore(c: Config, r: Rx, tx: seq<bool>, totalBits: nat, badBits: nat, history: seq<bool>, e: bool)
    requires r.Valid(c) && IsRegister(c.preset, tx) && r.resync == 0
    requires HasCounted(c, r, tx, totalBits, badBits, history)
    ensures HasCounted(c, PutBit(c, r, LineBit(c.preset, tx, e)), Next(c.preset, tx),
                       totalBits + 1, badBits + (if e then 1 else 0), history + [e])
  {
    hide PutBit;
    hide Odometer;
    hide Counted;
    hide Aligned;
    hide LineBit;
    hide Next;
    Countdown(|history|, r.measurementStep);
    CountsFlips(c, r, tx, e);
    CountedIsOdometer(r.meter, history, r.measurementStep <= 1, e);
  }

  /** Until a resync fires, the bad bits are exactly the flipped ones, and the meter is their odometer. */
  lemma {:induction false} CountsAllFlips(c: Config, s: Rx, tx: seq<bool>, history: seq<bool>, errors: seq<bool>)
    requires s.Valid(c) && IsRegister(c.preset, tx) && Aligned(c.preset, s.reg, tx)
    requires InSyncThroughout(c, s, tx, errors)
    requires Odometer(s.meter, history) && s.measurementStep == 100 - |history| % 100
    ensures HasCounted(c, Run(c, s, tx, errors), Advance(c.preset, tx, |errors|),
                       s.totalBits + |errors|, s.badBits + Weight(errors), history + errors)
  {
    hide PutBit;
    hide Odometer;
    hide Aligned;
    hide LineBit;
    if errors == [] {
      assert history + errors == history;
    } else {
      var before, e := errors[..|errors| - 1], errors[|errors| - 1];
      assert forall k :: 0 <= k <= |before| ==> before[..k] == errors[..k];
      assert before[..|before|] == before;
      CountsAllFlips(c, s, tx, history, before);
      CountsOneMore(c, Run(c, s, tx, before), Advance(c.preset, tx, |before|),
                    s.totalBits + |before|, s.badBits + Weight(before), history + before, e);
      assert history + errors == (history + before) + [e];
    }
  }

  // ----- keeping sync

  /** On a clean line sync is kept for good if the threshold is at least one. */
  lemma {:induction false} KeepsSync(c: Config, s: Rx, tx: seq<bool>, n: nat)
    requires s.Valid(c) && IsRegister(c.preset, tx) && s.resync == 0 && Aligned(c.preset, s.reg, tx)
    requires c.Threshold() >= 1 && s.resyncBadBits == 0
    ensures var r := Run(c, s, tx, Zeros(n));
      r.resync == 0 && r.resyncBadBits == 0 && r.badBits == s.badBits
      && Aligned(c.preset, r.reg, Advance(c.preset, tx, n))
  {
    if n == 0 {
    } else {
      KeepsSync(c, s, tx, n - 1);
      RunClean(c, s, tx, n - 1);
      var r := Run(c, s, tx, Zeros(n - 1));
      CountsFlips(c, r, Advance(c.preset, tx, n - 1), false);
      AlignedPredicts(c.preset, r.reg, Advance(c.preset, tx, n - 1));
    }
  }

  /** Fewer errors than the threshold never lose sync. */
  lemma {:induction false} StaysInSync(c: Config, s: Rx, tx: seq<bool>, errors: seq<bool>)
    requires s.Valid(c) && IsRegister(c.preset, tx) && s.resync == 0 && Aligned(c.preset, s.reg, tx)
    requires s.resyncBadBits + Weight(errors) < c.Threshold()
    ensures InSyncThroughout(c, s, tx, errors)
    ensures var r := Run(c, s, tx, errors);
      r.resync == 0 && r.resyncs == s.resyncs && r.resyncBadBits <= s.resyncBadBits + Weight(errors)
      && Aligned(c.preset, r.reg, Advance(c.preset, tx, |errors|))
  {
    hide PutBit, Aligned, LineBit;
    if errors != [] {
      var before, n := errors[..|errors| - 1], |errors| - 1;
      assert forall k :: 0 <= k <= n ==> before[..k] == errors[..k];
      assert before[..n] == before;
      StaysInSync(c, s, tx, before);
      StepInSync(c, Run(c, s, tx, before), Advance(c.preset, tx, n), errors[n]);
    }
  }

  lemma StepInSync(c: Config, s: Rx, tx: seq<bool>, e: bool)
    requires s.Valid(c) && IsRegister(c.preset, tx) && s.resync == 0 && Aligned(c.preset, s.reg, tx)
    requires s.resyncBadBits + (if e then 1 else 0) < c.Threshold()
    ensures var r := PutBit(c, s, LineBit(c.preset, tx, e));
      r.resync == 0 && r.resyncs == s.resyncs && r.resyncBadBits <= s.resyncBadBits + (if e then 1 else 0)
      && Aligned(c.preset, r.reg, Next(c.preset, tx))
  {
    AlignedPredicts(c.preset, s.reg, tx);
  }

  /** The measuring period of a clean stretch is not over yet. */
  predicate Waits(c: Config, s: Rx, tx: seq<bool>, n: nat)
    requires s.Valid(c) && IsRegister(c.preset, tx)
  {
    var r := Run(c, s, tx, Zeros(n));
    r.resync == 0 && r.resyncCnt == s.resyncCnt - n && Aligned(c.preset, r.reg, Advance(c.preset, tx, n))
  }

  lemma {:induction false} WaitsOut(c: Config, s: Rx, tx: seq<bool>, n: nat)
    requires s.Valid(c) && IsRegister(c.preset, tx) && Waits(c, s, tx, 0) && (n == 0 || n < s.resyncCnt)
    ensures Waits(c, s, tx, n)
  {
    hide PutBit;
    hide LineBit;
    hide Aligned;
    hide Run;
    if n > 0 {
      WaitsOut(c, s, tx, n - 1);
      RunClean(c, s, tx, n - 1);
      CountsFlips(c, Run(c, s, tx, Zeros(n - 1)), Advance(c.preset, tx, n - 1), false);
    }
  }

  /** With a threshold of zero even a clean line loses sync, at the end of the measuring period. */
  lemma LosesSync(c: Config, s: Rx, tx: seq<bool>)
    requires s.Valid(c) && IsRegister(c.preset, tx) && s.resync == 0 && Aligned(c.preset, s.reg, tx)
    requires c.Threshold() == 0
    ensures Run(c, s, tx, Zeros(Max(1, s.resyncCnt))).resync == 1
  {
    var n := Max(1, s.resyncCnt) - 1;
    assert Zeros(0) == [];
    WaitsOut(c, s, tx, n);
    RunClean(c, s, tx, n);
    var r := Run(c, s, tx, Zeros(n));
    CountsFlips(c, r, Advance(c.preset, tx, n), false);
  }

  /** A synchronised receiver on a clean line keeps sync for ever exactly if the threshold is at least one. */
  lemma KeepsSyncIff(c: Config, s: Rx, tx: seq<bool>)
    requires s.Valid(c) && IsRegister(c.preset, tx) && s.resync == 0 && Aligned(c.preset, s.reg, tx)
    requires s.resyncBadBits == 0
    ensures (forall n :: Run(c, s, tx, Zeros(n)).resync == 0) <==> c.resyncLen * c.resyncPercent >= 100
  {
    assert c.Threshold() >= 1 <==> c.resyncLen * c.resyncPercent >= 100;
    if c.Threshold() >= 1 {
      forall n: nat ensures Run(c, s, tx, Zeros(n)).resync == 0 {
        KeepsSync(c, s, tx, n);
      }
    } else {
      LosesSync(c, s, tx);
    }
  }

  // ----- losing sync

  /** The bits of a measuring period. */
  function Period(c: Config): (n: nat)
    ensures n >= 1
  {
    Max(1, c.resyncLen)
  }

  /** In sync and in step, with a measuring period about to start. */
  predicate Fresh(c: Config, s: Rx, tx: seq<bool>)
    requires s.Valid(c) && IsRegister(c.preset, tx)
  {
    s.resync == 0 && s.resyncBadBits == 0 && s.resyncCnt == c.resyncLen && Aligned(c.preset, s.reg, tx)
  }

  /** Within a period nothing but the bad bits so far and the bits still to come matters. */
  predicate Counting(c: Config, s: Rx, tx: seq<bool>, bad: nat, k: nat)
    requires s.Valid(c) && IsRegister(c.preset, tx)
  {
    s.resync == 0 && s.resyncBadBits == bad && s.resyncCnt == c.resyncLen - k && Aligned(c.preset, s.reg, tx)
  }

  lemma CountsOn(c: Config, s: Rx, tx: seq<bool>, bad: nat, k: nat, e: bool)
    requires s.Valid(c) && IsRegister(c.preset, tx) && Counting(c, s, tx, bad, k) && k < Period(c)
    ensures var r, b := PutBit(c, s, LineBit(c.preset, tx, e)), bad + if e then 1 else 0;
      if k + 1 < Period(c) then Counting(c, r, Next(c.preset, tx), b, k + 1)
      else if b < c.Threshold() then Fresh(c, r, Next(c.preset, tx)) && r.resyncs == s.resyncs
      else r.resync == 1 && r.resyncs == s.resyncs + 1
    ensures k + 1 < Period(c) ==> PutBit(c, s, LineBit(c.preset, tx, e)).resyncs == s.resyncs
  {
    AlignedPredicts(c.preset, s.reg, tx);
  }

  /** Before the end of a period sync is never lost. */
  lemma {:induction false} WithinPeriod(c: Config, s: Rx, tx: seq<bool>, errors: seq<bool>)
    requires s.Valid(c) && IsRegister(c.preset, tx) && Fresh(c, s, tx) && |errors| < Period(c)
    ensures var r := Run(c, s, tx, errors);
      Counting(c, r, Advance(c.preset, tx, |errors|), Weight(errors), |errors|) && r.resyncs == s.resyncs
  {
    hide PutBit, LineBit, Aligned;
    if errors != [] {
      var n := |errors| - 1;
      WithinPeriod(c, s, tx, errors[..n]);
      CountsOn(c, Run(c, s, tx, errors[..n]), Advance(c.preset, tx, n), Weight(errors[..n]), n, errors[n]);
    }
  }

  /**
   * Sync is lost at the end of a measuring period if and only if as many of its bits were flipped as the threshold
   * says, and never before; if it is kept, the next period starts afresh.
   */
  lemma PeriodEnds(c: Config, s: Rx, tx: seq<bool>, errors: seq<bool>)
    requires s.Valid(c) && IsRegister(c.preset, tx) && Fresh(c, s, tx) && |errors| == Period(c)
    ensures InSyncThroughout(c, s, tx, errors)
    ensures var r := Run(c, s, tx, errors);
      && (r.resync == 1 <==> Weight(errors) >= c.Threshold())
      && (r.resync == 0 <==> Weight(errors) < c.Threshold())
      && r.resyncs == s.resyncs + (if Weight(errors) >= c.Threshold() then 1 else 0)
      && (r.resync == 0 ==> Fresh(c, r, Advance(c.preset, tx, |errors|)))
  {
    hide Run, Aligned, Weight;
    forall k | 0 <= k < |errors| ensures Run(c, s, tx, errors[..k]).resync == 0 {
      WithinPeriod(c, s, tx, errors[..k]);
    }
    LastOfPeriod(c, s, tx, errors);
  }

  lemma LastOfPeriod(c: Config, s: Rx, tx: seq<bool>, errors: seq<bool>)
    requires s.Valid(c) && IsRegister(c.preset, tx) && Fresh(c, s, tx) && |errors| == Period(c)
    ensures var r := Run(c, s, tx, errors);
      if Weight(errors) < c.Threshold() then
        Fresh(c, r, Advance(c.preset, tx, |errors|)) && r.resyncs == s.resyncs
      else r.resync == 1 && r.resyncs == s.resyncs + 1
  {
    hide PutBit, LineBit, Aligned, Counting, Fresh;
    var n := |errors| - 1;
    WithinPeriod(c, s, tx, errors[..n]);
    CountsOn(c, Run(c, s, tx, errors[..n]), Advance(c.preset, tx, n), Weight(errors[..n]), n, errors[n]);
  }

  lemma {:induction false} RunAppend(c: Config, s: Rx, tx: seq<bool>, a: seq<bool>, b: seq<bool>)
    requires s.Valid(c) && IsRegister(c.preset, tx)
    ensures Run(c, s, tx, a + b) == Run(c, Run(c, s, tx, a), Advance(c.preset, tx, |a|), b)
  {
    hide PutBit, LineBit;
    if b == [] {
      assert a + b == a;
    } else {
      var n := |b| - 1;
      RunAppend(c, s, tx, a, b[..n]);
      AdvanceTwice(c.preset, tx, |a|, n);
      assert (a + b)[..|a + b| - 1] == a + b[..n];
    }
  }

  /** Sync is never lost, not even by the last of these bits. */
  predicate Kept(c: Config, s: Rx, tx: seq<bool>, errors: seq<bool>)
    requires s.Valid(c) && IsRegister(c.preset, tx)
  {
    forall k :: 0 <= k <= |errors| ==> Run(c, s, tx, errors[..k]).resync == 0
  }

  lemma RunFrom(c: Config, s: Rx, tx: seq<bool>, errors: seq<bool>, n: nat, k: nat)
    requires s.Valid(c) && IsRegister(c.preset, tx) && n + k <= |errors|
    ensures Run(c, Run(c, s, tx, errors[..n]), Advance(c.preset, tx, n), errors[n..][..k])
         == Run(c, s, tx, errors[..n + k])
  {
    hide Run;
    RunAppend(c, s, tx, errors[..n], errors[n..][..k]);
    assert errors[..n] + errors[n..][..k] == errors[..n + k];
  }

  lemma KeptParts(c: Config, s: Rx, tx: seq<bool>, errors: seq<bool>, n: nat)
    requires s.Valid(c) && IsRegister(c.preset, tx) && n <= |errors| && Kept(c, s, tx, errors)
    ensures Kept(c, s, tx, errors[..n])
    ensures Kept(c, Run(c, s, tx, errors[..n]), Advance(c.preset, tx, n), errors[n..])
  {
    hide Run;
    forall k: nat | k <= n ensures Run(c, s, tx, errors[..n][..k]).resync == 0 {
      assert errors[..n][..k] == errors[..k];
    }
    forall k: nat | k <= |errors[n..]|
      ensures Run(c, Run(c, s, tx, errors[..n]), Advance(c.preset, tx, n), errors[n..][..k]).resync == 0
    {
      RunFrom(c, s, tx, errors, n, k);
    }
  }

  lemma KeptJoins(c: Config, s: Rx, tx: seq<bool>, errors: seq<bool>, n: nat)
    requires s.Valid(c) && IsRegister(c.preset, tx) && n <= |errors| && Kept(c, s, tx, errors[..n])
    requires Kept(c, Run(c, s, tx, errors[..n]), Advance(c.preset, tx, n), errors[n..])
    ensures Kept(c, s, tx, errors)
  {
    hide Run;
    forall k: nat | k <= |errors| ensures Run(c, s, tx, errors[..k]).resync == 0 {
      if k > n {
        RunFrom(c, s, tx, errors, n, k - n);
      } else {
        assert errors[..n][..k] == errors[..k];
      }
    }
  }

  lemma KeptSplits(c: Config, s: Rx, tx: seq<bool>, errors: seq<bool>, n: nat)
    requires s.Valid(c) && IsRegister(c.preset, tx) && n <= |errors|
    ensures Kept(c, s, tx, errors) <==>
      Kept(c, s, tx, errors[..n]) && Kept(c, Run(c, s, tx, errors[..n]), Advance(c.preset, tx, n), errors[n..])
  {
    hide Run, Kept;
    if Kept(c, s, tx, errors) {
      KeptParts(c, s, tx, errors, n);
    } else if Kept(c, s, tx, errors[..n])
              && Kept(c, Run(c, s, tx, errors[..n]), Advance(c.preset, tx, n), errors[n..]) {
      KeptJoins(c, s, tx, errors, n);
    }
  }

  /** Every whole measuring period has fewer errors than the threshold. */
  predicate AllBelow(c: Config, errors: seq<bool>)
    decreases |errors|
  {
    |errors| >= Period(c) ==> Weight(errors[..Period(c)]) < c.Threshold() && AllBelow(c, errors[Period(c)..])
  }

  /**
   * Over any number of bits sync is kept if and only if every whole measuring period in them has fewer errors than the
   * threshold.
   */
  lemma {:induction false} KeptIff(c: Config, s: Rx, tx: seq<bool>, errors: seq<bool>)
    requires s.Valid(c) && IsRegister(c.preset, tx) && Fresh(c, s, tx)
    ensures Kept(c, s, tx, errors) <==> AllBelow(c, errors)
    decreases |errors|
  {
    var n := Period(c);
    hide Run, PutBit, LineBit, Aligned, Weight;
    if |errors| < n {
      forall k: nat | k <= |errors| ensures Run(c, s, tx, errors[..k]).resync == 0 {
        WithinPeriod(c, s, tx, errors[..k]);
      }
    } else {
      PeriodEnds(c, s, tx, errors[..n]);
      KeptSplits(c, s, tx, errors, n);
      FirstPeriod(c, s, tx, errors[..n]);
      if Weight(errors[..n]) < c.Threshold() {
        KeptIff(c, Run(c, s, tx, errors[..n]), Advance(c.preset, tx, n), errors[n..]);
      }
    }
  }

  lemma FirstPeriod(c: Config, s: Rx, tx: seq<bool>, errors: seq<bool>)
    requires s.Valid(c) && IsRegister(c.preset, tx) && InSyncThroughout(c, s, tx, errors)
    ensures Kept(c, s, tx, errors) <==> Run(c, s, tx, errors).resync == 0
  {
    hide Run;
    assert errors[..|errors|] == errors;
  }

  lemma {:induction false} ResyncsRise(c: Config, s: Rx, tx: seq<bool>, errors: seq<bool>)
    requires s.Valid(c) && IsRegister(c.preset, tx)
    ensures Run(c, s, tx, errors).resyncs >= s.resyncs
  {
    hide LineBit, Counted, Next;
    if errors != [] {
      ResyncsRise(c, s, tx, errors[..|errors| - 1]);
    }
  }

  /** The count of resyncs moves if and only if sync is lost. */
  lemma {:induction false} LossIsCounted(c: Config, s: Rx, tx: seq<bool>, errors: seq<bool>)
    requires s.Valid(c) && IsRegister(c.preset, tx) && Fresh(c, s, tx)
    ensures Run(c, s, tx, errors).resyncs == s.resyncs <==> AllBelow(c, errors)
    decreases |errors|
  {
    var n := Period(c);
    hide Run, PutBit, LineBit, Aligned, Weight;
    if |errors| < n {
      WithinPeriod(c, s, tx, errors);
    } else {
      var r := Run(c, s, tx, errors[..n]);
      PeriodEnds(c, s, tx, errors[..n]);
      RunAppend(c, s, tx, errors[..n], errors[n..]);
      assert errors[..n] + errors[n..] == errors;
      if Weight(errors[..n]) < c.Threshold() {
        LossIsCounted(c, r, Advance(c.preset, tx, n), errors[n..]);
      } else {
        ResyncsRise(c, r, Advance(c.preset, tx, n), errors[n..]);
      }
    }
  }

  /** The receiver of a clean line from bert_init on is synchronised, with a measuring period about to start. */
  lemma StartsFresh(c: Config, s: Rx, tx: seq<bool>)
    requires s.Valid(c) && IsRegister(c.preset, tx) && Aligned(c.preset, s.reg, tx)
    requires s == Initial(c).(reg := s.reg, resync := 0)
    ensures Fresh(c, s, tx)
  {
    hide Aligned;
  }
}
