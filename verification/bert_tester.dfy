/** bert_state_t of src/bert.c: the state that bert_get_bit and bert_put_bit update in place. */
module BertTester {
  import opened Arith
  import opened Bits
  import opened BertPattern
  import opened Options
  import opened BertMeter
  import opened Bert

  // ----- registers as numbers

  /** (reg >> 1) | (bit << shift2). */
  function Shifted(reg: nat, bit: bool, shift2: nat): nat {
    reg / 2 + if bit then Pow2(shift2) else 0
  }

  /** (reg >> n) & 1. */
  function BitAt(reg: nat, n: nat): bool {
    ShrNat(reg, n) % 2 == 1
  }

  /** reg ^ (1 << n). */
  function Flipped(reg: nat, n: nat): int {
    if BitAt(reg, n) then reg - Pow2(n) else reg + Pow2(n)
  }

  lemma {:induction false} BitAtIsLsb(reg: nat, n: nat, w: nat)
    requires n < w
    ensures BitAt(reg, n) == Lsb(reg, w)[n]
    decreases n
  {
    if n == 0 {
    } else {
      BitAtIsLsb(reg / 2, n - 1, w - 1);
    }
  }

  lemma ShiftedBits(reg: nat, bit: bool, shift2: nat)
    requires reg < Pow2(shift2 + 1)
    ensures Shifted(reg, bit, shift2) < Pow2(shift2 + 1)
    ensures Lsb(Shifted(reg, bit, shift2), shift2 + 1) == Lsb(reg, shift2 + 1)[1..] + [bit]
  {
    var top := if bit then 1 else 0;
    assert Lsb(top, 1) == [bit];
    assert Lsb(reg, shift2 + 1)[1..] == Lsb(reg / 2, shift2);
    hide Lsb;
    LsbAppend(reg / 2, shift2, top, 1);
    Pow2Fit(reg / 2, shift2, top, 1);
  }

  lemma ShiftedIsNext(p: Preset, reg: nat)
    requires reg < Pow2(p.Length())
    ensures var next := Shifted(reg, BitAt(reg, 0) != BitAt(reg, p.Shift()), p.Shift2());
      next < Pow2(p.Length()) && Lsb(next, p.Length()) == Next(p, Lsb(reg, p.Length()))
  {
    hide Lsb;
    hide BitAt;
    hide Shifted;
    hide Pow2;
    BitAtIsLsb(reg, 0, p.Length());
    BitAtIsLsb(reg, p.Shift(), p.Length());
    ShiftedBits(reg, BitAt(reg, 0) != BitAt(reg, p.Shift()), p.Shift2());
  }

  lemma FlippedHalf(reg: nat, n: nat)
    requires n > 0
    ensures BitAt(reg, n) == BitAt(reg / 2, n - 1)
    ensures Flipped(reg, n) == 2 * Flipped(reg / 2, n - 1) + reg % 2
  {
  }

  lemma {:induction false} FlippedIsUpdate(reg: nat, n: nat, w: nat)
    requires n < w && reg < Pow2(w)
    ensures 0 <= Flipped(reg, n) < Pow2(w)
    ensures Lsb(Flipped(reg, n), w) == Lsb(reg, w)[n := !BitAt(reg, n)]
    decreases n
  {
    if n == 0 {
      hide Flipped, BitAt, Lsb;
      assert 2 * (reg / 2) + reg % 2 == reg;
      FlippedFirst(reg / 2, reg % 2, w);
    } else {
      var half := Flipped(reg / 2, n - 1);
      FlippedHalf(reg, n);
      hide Flipped;
      hide BitAt;
      FlippedIsUpdate(reg / 2, n - 1, w - 1);
      LsbDouble(half, reg % 2, w);
      LsbDouble(reg / 2, reg % 2, w);
      hide Lsb;
    }
  }

  lemma FlippedFirst(half: nat, b: nat, w: nat)
    requires b < 2 && 0 < w && 2 * half + b < Pow2(w)
    ensures 0 <= Flipped(2 * half + b, 0) < Pow2(w)
    ensures Lsb(Flipped(2 * half + b, 0), w) == Lsb(2 * half + b, w)[0 := b == 0]
    ensures BitAt(2 * half + b, 0) == (b == 1)
  {
    FlippedValue(half, b);
    hide Flipped, BitAt, Lsb;
    LsbDouble(half, b, w);
    LsbDouble(half, 1 - b, w);
  }

  lemma FlippedValue(half: nat, b: nat)
    requires b < 2
    ensures Flipped(2 * half + b, 0) == 2 * half + (1 - b) && BitAt(2 * half + b, 0) == (b == 1)
  {
  }

  // ----- the decade counters

  class Counters {
    const decadePtr: array<nat>
    const decadeBad: array2<nat>
    var errorRate: nat
    ghost var meter: Meter

    ghost predicate Valid()
      reads this, decadePtr, decadeBad
    {
      && decadePtr.Length == DECADES && decadeBad.Length0 == DECADES && decadeBad.Length1 == SNAPSHOTS
      && |meter.ptr| == DECADES && |meter.bad| == DECADES && meter.errorRate == errorRate
      && (forall i :: 0 <= i < DECADES ==> decadePtr[i] == meter.ptr[i] <= SNAPSHOTS)
      && (forall i, j :: 0 <= i < DECADES && 0 <= j < SNAPSHOTS ==> decadeBad[i, j] == meter.bad[i][j])
    }

    constructor ()
      ensures Valid() && fresh(decadePtr) && fresh(decadeBad)
      ensures meter == InitialMeter()
    {
      decadePtr := new nat[DECADES](_ => 0);
      decadeBad := new nat[DECADES, SNAPSHOTS]((_, _) => 0);
      errorRate := HIGH + 1;
      meter := InitialMeter();
    }

    method StoreBad(i: nat, j: nat, v: nat)
      requires Valid() && i < DECADES && j < SNAPSHOTS
      modifies this`meter, decadeBad
      ensures Valid() && meter == old(meter).(bad := old(meter).bad[i := old(meter).bad[i][j := v]])
    {
      decadeBad[i, j] := v;
      meter := meter.(bad := meter.bad[i := meter.bad[i][j := v]]);
    }

    method StorePtr(i: nat, v: nat)
      requires Valid() && i < DECADES && v <= SNAPSHOTS
      modifies this`meter, decadePtr
      ensures Valid() && meter == old(meter).(ptr := old(meter).ptr[i := v])
    {
      decadePtr[i] := v;
      meter := meter.(ptr := meter.ptr[i := v]);
    }

    /** An error in the current snapshot of the lowest decade. */
    method MarkError()
      requires Valid() && meter.Valid()
      modifies this`meter, decadeBad
      ensures Valid() && meter.Valid() && meter == Mark(old(meter))
    {
      var ptr := decadePtr[LOW];
      StoreBad(LOW, ptr, decadeBad[LOW, ptr] + 1);
    }

    method SumDecade(i: nat) returns (sum: nat)
      requires Valid() && i < DECADES
      ensures sum == Total(meter.bad[i])
    {
      sum := 0;
      var j := 0;
      while j < SNAPSHOTS
        invariant 0 <= j <= SNAPSHOTS && sum == Total(meter.bad[i][..j])
      {
        assert meter.bad[i][..j + 1][..j] == meter.bad[i][..j];
        sum := sum + decadeBad[i, j];
        j := j + 1;
      }
      assert meter.bad[i][..SNAPSHOTS] == meter.bad[i];
    }

    /** assess_error_rate. */
    method AssessErrorRate()
      requires Valid() && meter.Valid()
      modifies this`meter, this`errorRate, decadePtr, decadeBad
      ensures Valid() && meter.Valid() && meter == Assess(old(meter))
    {
      var test := true;
      var i := LOW;
      while i <= HIGH
        invariant LOW <= i <= HIGH + 1 && Valid() && meter.Valid()
        invariant AssessFrom(meter, i, test) == Assess(old(meter))
        decreases HIGH + 1 - i
      {
        if decadePtr[i] + 1 < SNAPSHOTS {
          Advance(i);
          return;
        }
        test := Wrap(i, test);
        i := i + 1;
      }
      if decadePtr[i] >= SNAPSHOTS {
        assert false; // the pointer of the ninth decade, which the source resets here, never moves
      }
      if test {
        errorRate := i;
        meter := meter.(errorRate := i);
      }
    }

    /** The early exit of the loop: the decade has snapshots left, and starts the next one. */
    method Advance(i: nat)
      requires Valid() && meter.Valid() && i < DECADES && decadePtr[i] + 1 < SNAPSHOTS
      modifies this`meter, decadePtr, decadeBad
      ensures Valid() && meter.Valid() && meter == Advanced(old(meter), i)
    {
      StorePtr(i, decadePtr[i] + 1);
      StoreBad(i, decadePtr[i], 0);
    }

    /** The rest of the loop body: the decade is full. */
    method Wrap(i: nat, test: bool) returns (stillTest: bool)
      requires Valid() && meter.Valid() && LOW <= i <= HIGH && decadePtr[i] + 1 == SNAPSHOTS
      modifies this`meter, this`errorRate, decadePtr, decadeBad
      ensures Valid() && meter.Valid()
      ensures stillTest == (test && Total(old(meter).bad[i]) <= 10)
      ensures meter == Wrapped(old(meter), i).(errorRate := if test && !stillTest then i else old(meter).errorRate)
    {
      StorePtr(i, 0);
      var sum := SumDecade(i);
      stillTest := test;
      if test && sum > 10 {
        stillTest := false;
        errorRate := i;
        meter := meter.(errorRate := i);
      }
      StoreBad(i, 0, 0);
      if i < HIGH {
        StoreBad(i + 1, decadePtr[i + 1], sum);
      }
    }
  }

  // ----- the tester

  /** What the reporter callback is told. */
  datatype Report = Synced | Unsynced | ErrorRate(decade: nat)

  /** A change of the assessed rate is reported once. */
  function RateReport(before: Meter, after: Meter): seq<Report> {
    if after.errorRate != before.errorRate then [ErrorRate(after.errorRate)] else []
  }

  /** All ones: the start register of every preset. */
  function StartRegister(p: Preset): nat {
    Pow2(p.Length()) - 1
  }

  lemma StartIsOnes(p: Preset)
    ensures 0 <= StartRegister(p) < Pow2(p.Length())
    ensures Lsb(StartRegister(p), p.Length()) == Ones(p.Length())
  {
    hide Lsb, Ones, Pow2;
    AllOnes(p.Length(), p.Length());
  }

  class Tester {
    const config: Config
    const limit: nat // 0 for no limit
    var txReg: nat
    var txBits: nat
    var rxReg: nat
    var resync: nat
    var resyncBadBits: nat
    var resyncCnt: int
    var measurementStep: int
    var totalBits: nat
    var badBits: nat
    var resyncs: nat
    const counters: Counters

    ghost predicate Valid()
      reads this, counters, counters.decadePtr, counters.decadeBad
    {
      && txReg < Pow2(config.preset.Length()) && rxReg < Pow2(config.preset.Length())
      && counters.Valid() && counters.meter.Valid()
    }

    ghost function TxView(): (r: seq<bool>)
      reads this
      ensures IsRegister(config.preset, r)
    {
      Lsb(txReg, config.preset.Length())
    }

    ghost function RxView(): Rx
      reads this, counters
    {
      Rx(Lsb(rxReg, config.preset.Length()), resync, resyncBadBits, resyncCnt, measurementStep,
         totalBits, badBits, resyncs, counters.meter)
    }

    /** bert_init. */
    constructor (config: Config, limit: nat)
      ensures Valid() && this.config == config && this.limit == limit && txBits == 0
      ensures fresh(counters) && fresh(counters.decadePtr) && fresh(counters.decadeBad)
      ensures TxView() == Ones(config.preset.Length()) && RxView() == Initial(config)
    {
      this.config, this.limit := config, limit;
      txReg, rxReg := StartRegister(config.preset), StartRegister(config.preset);
      txBits, resync, resyncBadBits, resyncCnt := 0, 1, 0, config.resyncLen;
      measurementStep, totalBits, badBits, resyncs := MEASUREMENT_STEP, 0, 0, 0;
      counters := new Counters();
      new;
      hide StartRegister, Lsb, Ones, Pow2, InitialMeter;
      StartIsOnes(config.preset);
    }

    /** bert_get_bit: None stands for SIG_STATUS_END_OF_DATA. */
    method GetBit() returns (bit: Option<bool>)
      requires Valid()
      modifies this`txReg, this`txBits
      ensures Valid()
      ensures limit > 0 && old(txBits) >= limit ==> bit == None && txReg == old(txReg) && txBits == old(txBits)
      ensures !(limit > 0 && old(txBits) >= limit) ==>
        bit == Some(LineBit(config.preset, old(TxView()), false))
        && TxView() == Next(config.preset, old(TxView())) && txBits == old(txBits) + 1
    {
      if limit > 0 && txBits >= limit {
        return None;
      }
      var p := config.preset;
      bit := Some(BitAt(txReg, 0) != p.Invert());
      BitAtIsLsb(txReg, 0, p.Length());
      ShiftedIsNext(p, txReg);
      txReg := Shifted(txReg, BitAt(txReg, 0) != BitAt(txReg, p.Shift()), p.Shift2());
      txBits := txBits + 1;
    }

    /** bert_put_bit. */
    method PutBit(line: bool) returns (reports: seq<Report>)
      requires Valid()
      modifies this`rxReg, this`resync, this`resyncBadBits, this`resyncCnt, this`measurementStep,
               this`totalBits, this`badBits, this`resyncs,
               counters, counters.decadePtr, counters.decadeBad
      ensures Valid()
      ensures RxView() == Bert.PutBit(config, old(RxView()), line)
      ensures reports ==
        if old(resync) > 0 then if resync == 0 then [Synced] else []
        else RateReport(old(counters.meter), counters.meter) + if resync > 0 then [Unsynced] else []
    {
      var p := config.preset;
      var bit := line != p.Invert();
      reports := [];
      BitAtIsLsb(rxReg, p.Shift(), p.Length());
      if resync > 0 {
        reports := Search(bit);
      } else {
        reports := Count(bit);
      }
      StepRegister();
    }

    /** The last statement of both branches. */
    method StepRegister()
      requires Valid()
      modifies this`rxReg
      ensures Valid() && RxView() == old(RxView()).(reg := Next(config.preset, old(RxView()).reg))
    {
      var p := config.preset;
      ShiftedIsNext(p, rxReg);
      rxReg := Shifted(rxReg, BitAt(rxReg, 0) != BitAt(rxReg, p.Shift()), p.Shift2());
    }

    /** The branch taken while looking for sync. */
    method Search(bit: bool) returns (reports: seq<Report>)
      requires Valid() && resync > 0
      modifies this`rxReg, this`resync
      ensures Valid()
      ensures RxView().(reg := Next(config.preset, RxView().reg)) == ResyncStep(config, old(RxView()), bit)
      ensures reports == if resync == 0 then [Synced] else []
    {
      var p := config.preset;
      reports := [];
      BitAtIsLsb(rxReg, p.Shift(), p.Length());
      if bit == BitAt(rxReg, p.Shift()) {
        resync := resync + 1;
        if resync > p.ResyncTime() {
          resync := 0;
          reports := [Synced];
        }
      } else {
        resync := 2;
        FlippedIsUpdate(rxReg, p.Shift(), p.Length());
        rxReg := Flipped(rxReg, p.Shift());
      }
    }

    /** The branch taken in sync. */
    method Count(bit: bool) returns (reports: seq<Report>)
      requires Valid() && resync == 0
      modifies this`resync, this`resyncBadBits, this`resyncCnt, this`measurementStep,
               this`totalBits, this`badBits, this`resyncs,
               counters, counters.decadePtr, counters.decadeBad
      ensures Valid()
      ensures RxView().(reg := Next(config.preset, RxView().reg)) == SyncedStep(config, old(RxView()), bit)
      ensures reports == RateReport(old(counters.meter), counters.meter) + if resync > 0 then [Unsynced] else []
    {
      hide Lsb;
      hide Counted;
      hide Next;
      hide RateReport;
      var bad := Tally(bit);
      reports := Measure(bad);
      var lost := EndPeriod();
      reports := reports + if lost then [Unsynced] else [];
    }

    /** Compares the bit with the predicted one, and counts it. */
    method Tally(bit: bool) returns (bad: bool)
      requires rxReg < Pow2(config.preset.Length())
      modifies this`totalBits, this`badBits, this`resyncBadBits
      ensures bad == (bit != Lsb(rxReg, config.preset.Length())[config.preset.Shift()])
      ensures totalBits == old(totalBits) + 1 && badBits == old(badBits) + (if bad then 1 else 0)
      ensures resyncBadBits == old(resyncBadBits) + if bad then 1 else 0
    {
      totalBits := totalBits + 1;
      BitAtIsLsb(rxReg, config.preset.Shift(), config.preset.Length());
      bad := bit != BitAt(rxReg, config.preset.Shift());
      if bad {
        badBits := badBits + 1;
        resyncBadBits := resyncBadBits + 1;
      }
    }

    /** Marks an error in the counters, and assesses them every MEASUREMENT_STEP bits. */
    method Measure(bad: bool) returns (reports: seq<Report>)
      requires counters.Valid() && counters.meter.Valid()
      modifies this`measurementStep, counters, counters.decadePtr, counters.decadeBad
      ensures counters.Valid() && counters.meter.Valid()
      ensures counters.meter == Counted(old(counters.meter), old(measurementStep) <= 1, bad)
      ensures measurementStep == if old(measurementStep) <= 1 then MEASUREMENT_STEP else old(measurementStep) - 1
      ensures reports == RateReport(old(counters.meter), counters.meter)
    {
      hide Mark, Assess;
      reports := [];
      var rate := counters.errorRate;
      if bad {
        counters.MarkError();
      }
      measurementStep := measurementStep - 1;
      if measurementStep <= 0 {
        measurementStep := MEASUREMENT_STEP;
        counters.AssessErrorRate();
        if counters.errorRate != rate {
          reports := [ErrorRate(counters.errorRate)];
        }
      }
    }

    /** The check, at the end of every resync_len bits, for enough errors to justify a resync. */
    method EndPeriod() returns (lost: bool)
      requires resync == 0
      modifies this`resync, this`resyncBadBits, this`resyncCnt, this`resyncs
      ensures lost == (old(resyncCnt) <= 1 && old(resyncBadBits) >= config.Threshold())
      ensures resync == (if lost then 1 else 0) && resyncs == old(resyncs) + (if lost then 1 else 0)
      ensures resyncBadBits == if old(resyncCnt) <= 1 then 0 else old(resyncBadBits)
      ensures resyncCnt == if old(resyncCnt) <= 1 then config.resyncLen else old(resyncCnt) - 1
    {
      lost := false;
      resyncCnt := resyncCnt - 1;
      if resyncCnt <= 0 {
        if resyncBadBits >= config.resyncLen * config.resyncPercent / 100 {
          lost := true;
          resync := 1;
          resyncs := resyncs + 1;
        }
        resyncCnt := config.resyncLen;
        resyncBadBits := 0;
      }
    }
  }

  // ----- two ends of a line

  /** A sender and a receiver of one pattern: two testers that share nothing, or one in a loop. */
  ghost predicate Connected(tx: Tester, rx: Tester)
    reads tx, rx, tx.counters, tx.counters.decadePtr, tx.counters.decadeBad
    reads rx.counters, rx.counters.decadePtr, rx.counters.decadeBad
  {
    && tx.Valid() && rx.Valid() && tx.config == rx.config
    && (tx != rx ==>
          && tx.counters != rx.counters && tx.counters.decadePtr != rx.counters.decadePtr
          && tx.counters.decadeBad != rx.counters.decadeBad)
  }

  /** One bit over the line, flipped or not. */
  method Pass(tx: Tester, rx: Tester, e: bool) returns (reports: seq<Report>)
    requires Connected(tx, rx) && (tx.limit == 0 || tx.txBits < tx.limit)
    modifies tx`txReg, tx`txBits, rx`rxReg, rx`resync, rx`resyncBadBits, rx`resyncCnt, rx`measurementStep,
             rx`totalBits, rx`badBits, rx`resyncs, rx.counters, rx.counters.decadePtr, rx.counters.decadeBad
    ensures Connected(tx, rx) && tx.txBits == old(tx.txBits) + 1
    ensures tx.TxView() == Next(tx.config.preset, old(tx.TxView()))
    ensures rx.RxView() == Bert.PutBit(rx.config, old(rx.RxView()), LineBit(tx.config.preset, old(tx.TxView()), e))
  {
    hide Bert.PutBit, Next, Lsb;
    var bit := tx.GetBit();
    reports := rx.PutBit(bit.value != e);
  }

  /** Any number of bits over a line that flips some of them. */
  method PassAll(tx: Tester, rx: Tester, errors: seq<bool>)
    requires Connected(tx, rx) && (tx.limit == 0 || tx.txBits + |errors| <= tx.limit)
    modifies tx`txReg, tx`txBits, rx`rxReg, rx`resync, rx`resyncBadBits, rx`resyncCnt, rx`measurementStep,
             rx`totalBits, rx`badBits, rx`resyncs, rx.counters, rx.counters.decadePtr, rx.counters.decadeBad
    ensures Connected(tx, rx)
    ensures tx.TxView() == Advance(tx.config.preset, old(tx.TxView()), |errors|)
    ensures rx.RxView() == Run(rx.config, old(rx.RxView()), old(tx.TxView()), errors)
  {
    hide Bert.PutBit, Next, Lsb, LineBit;
    var i := 0;
    while i < |errors|
      invariant 0 <= i <= |errors| && Connected(tx, rx) && tx.txBits == old(tx.txBits) + i
      invariant tx.TxView() == Advance(tx.config.preset, old(tx.TxView()), i)
      invariant rx.RxView() == Run(rx.config, old(rx.RxView()), old(tx.TxView()), errors[..i])
    {
      var _ := Pass(tx, rx, errors[i]);
      i := i + 1;
      assert errors[..i][..i - 1] == errors[..i - 1];
    }
    assert errors[..i] == errors;
  }

  /** Clean bits until the receiver is in sync. */
  method Synchronise(tx: Tester, rx: Tester) returns (n: nat)
    requires Connected(tx, rx) && tx.limit == 0 && rx.resync == 1
    modifies tx`txReg, tx`txBits, rx`rxReg, rx`resync, rx`resyncBadBits, rx`resyncCnt, rx`measurementStep,
             rx`totalBits, rx`badBits, rx`resyncs, rx.counters, rx.counters.decadePtr, rx.counters.decadeBad
    ensures Connected(tx, rx) && Aligned(rx.config.preset, rx.RxView().reg, tx.TxView())
    ensures var p := rx.config.preset; p.ResyncTime() <= n <= p.Length() + p.ResyncTime() - 1
    ensures rx.RxView() == old(rx.RxView()).(reg := rx.RxView().reg, resync := 0)
  {
    ghost var last := SyncsInTime(rx.config, rx.RxView(), tx.TxView());
    n := Seek(tx, rx, last);
  }

  lemma ViewsAreValid(tx: Tester, rx: Tester)
    requires Connected(tx, rx)
    ensures tx.config == rx.config && rx.RxView().Valid(rx.config) && IsRegister(rx.config.preset, tx.TxView())
  {
  }

  /** The loop, for a sender and a receiver that are bound to synchronise. */
  method Seek(tx: Tester, rx: Tester, ghost last: nat) returns (n: nat)
    requires Connected(tx, rx) && tx.limit == 0
    requires forall k :: 0 <= k < last ==> Run(rx.config, rx.RxView(), tx.TxView(), Zeros(k)).resync > 0
    requires Run(rx.config, rx.RxView(), tx.TxView(), Zeros(last)).resync == 0
    modifies tx`txReg, tx`txBits, rx`rxReg, rx`resync, rx`resyncBadBits, rx`resyncCnt, rx`measurementStep,
             rx`totalBits, rx`badBits, rx`resyncs, rx.counters, rx.counters.decadePtr, rx.counters.decadeBad
    ensures Connected(tx, rx) && n == last && tx.TxView() == Advance(tx.config.preset, old(tx.TxView()), n)
    ensures rx.RxView() == Run(rx.config, old(rx.RxView()), old(tx.TxView()), Zeros(n))
  {
    hide Bert.PutBit, Next, Lsb, LineBit, Run, Zeros, Connected;
    ViewsAreValid(tx, rx);
    ghost var start, sender := rx.RxView(), tx.TxView();
    n := 0;
    RunNothing(rx.config, start, sender);
    while rx.resync > 0
      invariant 0 <= n <= last && Connected(tx, rx) && tx.TxView() == Advance(rx.config.preset, sender, n)
      invariant rx.RxView() == Run(rx.config, start, sender, Zeros(n))
      decreases last - n
    {
      RunClean(rx.config, start, sender, n);
      var _ := Pass(tx, rx, false);
      n := n + 1;
    }
  }

  lemma RunNothing(c: Config, s: Rx, tx: seq<bool>)
    requires s.Valid(c) && IsRegister(c.preset, tx)
    ensures Run(c, s, tx, Zeros(0)) == s && Advance(c.preset, tx, 0) == tx
  {
    assert Zeros(0) == [];
  }

  /**
   * A measurement: two testers synchronise over a clean line, and then count the errors of a noisy one. Sync is kept if
   * and only if every whole measuring period has fewer errors than the threshold; and then all the errors are counted,
   * and nothing else is.
   */
  method Measurement(config: Config, errors: seq<bool>) returns (rx: Tester, ghost sender: seq<bool>)
    ensures rx.Valid() && rx.config == config && IsRegister(config.preset, sender)
    ensures rx.resyncs == 0 <==> AllBelow(config, errors)
    ensures AllBelow(config, errors) ==>
      rx.resync == 0 && HasCounted(config, rx.RxView(), sender, |errors|, Weight(errors), errors)
  {
    var tx := new Tester(config, 0);
    rx := new Tester(config, 0);
    var n := Synchronise(tx, rx);
    ghost var synced, start := rx.RxView(), tx.TxView();
    PassAll(tx, rx, errors);
    sender := tx.TxView();
    Measured(config, synced, start, errors);
  }

  lemma Measured(c: Config, s: Rx, tx: seq<bool>, errors: seq<bool>)
    requires s.Valid(c) && IsRegister(c.preset, tx) && Aligned(c.preset, s.reg, tx)
    requires s == Initial(c).(reg := s.reg, resync := 0)
    ensures var r := Run(c, s, tx, errors);
      && (r.resyncs == 0 <==> AllBelow(c, errors))
      && (AllBelow(c, errors) ==>
            r.resync == 0
            && HasCounted(c, r, Advance(c.preset, tx, |errors|), |errors|, Weight(errors), errors))
  {
    hide Run, Aligned, AllBelow, Weight, Odometer, HasCounted;
    StartsFresh(c, s, tx);
    LossIsCounted(c, s, tx, errors);
    if AllBelow(c, errors) {
      KeptIff(c, s, tx, errors);
      InitialIsOdometer();
      assert errors[..|errors|] == errors && [] + errors == errors;
      CountsAllFlips(c, s, tx, [], errors);
    }
  }
}
