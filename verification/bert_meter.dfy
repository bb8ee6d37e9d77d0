/** The decadic error counters of src/bert.c, as an odometer over the bits counted in sync. */
module BertMeter {
  import opened Arith
  import opened Bits

  const LOW: nat := 2
  const HIGH: nat := 7
  const DECADES: nat := 9
  const SNAPSHOTS: nat := 10

  type Snapshots = s: seq<nat> | |s| == 10 witness [0, 0, 0, 0, 0, 0, 0, 0, 0, 0]

  /** decade_ptr, decade_bad and error_rate. */
  datatype Meter = Meter(ptr: seq<nat>, bad: seq<Snapshots>, errorRate: nat) {
    predicate Valid() {
      |ptr| == DECADES && |bad| == DECADES && forall i :: 0 <= i < DECADES ==> ptr[i] < SNAPSHOTS
    }
  }

  /** The counters as bert_init leaves them. */
  function InitialMeter(): (m: Meter)
    ensures m.Valid()
  {
    Meter(seq(DECADES, _ => 0), seq(DECADES, _ => [0, 0, 0, 0, 0, 0, 0, 0, 0, 0]), HIGH + 1)
  }

  // ----- the code, on values

  /** An error in the current snapshot of the lowest decade. */
  function Mark(m: Meter): (r: Meter)
    requires m.Valid()
    ensures r.Valid()
  {
    m.(bad := m.bad[LOW := m.bad[LOW][m.ptr[LOW] := m.bad[LOW][m.ptr[LOW]] + 1]])
  }

  /** A decade moves on to its next snapshot, which starts at zero. */
  function Advanced(m: Meter, i: nat): (r: Meter)
    requires m.Valid() && i < DECADES && m.ptr[i] + 1 < SNAPSHOTS
    ensures r.Valid()
  {
    m.(ptr := m.ptr[i := m.ptr[i] + 1], bad := m.bad[i := m.bad[i][m.ptr[i] + 1 := 0]])
  }

  /** A full decade wraps to its first snapshot, and its sum becomes a snapshot of the next. */
  function Wrapped(m: Meter, i: nat): (r: Meter)
    requires m.Valid() && LOW <= i <= HIGH
    ensures r.Valid()
  {
    TotalOfNats(m.bad[i]);
    var wrapped := m.bad[i := m.bad[i][0 := 0]];
    m.(ptr := m.ptr[i := 0],
       bad := if i < HIGH then wrapped[i + 1 := wrapped[i + 1][m.ptr[i + 1] := Total(m.bad[i])]] else wrapped)
  }

  /** assess_error_rate from decade i on; test holds until some decade has overflowed. */
  function AssessFrom(m: Meter, i: nat, test: bool): (r: Meter)
    requires m.Valid() && LOW <= i <= HIGH + 1
    ensures r.Valid()
    decreases HIGH + 1 - i
  {
    if i > HIGH then
      if test then m.(errorRate := i) else m
    else if m.ptr[i] + 1 < SNAPSHOTS then Advanced(m, i)
    else
      var overflow := test && Total(m.bad[i]) > 10;
      AssessFrom(Wrapped(m, i).(errorRate := if overflow then i else m.errorRate), i + 1, test && !overflow)
  }

  function Assess(m: Meter): (r: Meter)
    requires m.Valid()
    ensures r.Valid()
  {
    AssessFrom(m, LOW, true)
  }

  // ----- what the counters mean

  /** The number of errors among the first n counted bits. */
  function ErrorsTo(history: seq<bool>, n: nat): nat {
    Weight(history[..if n < |history| then n else |history|])
  }

  /** The number of errors among the last n counted bits. */
  function LastErrors(history: seq<bool>, n: nat): nat
    requires n <= |history|
  {
    Weight(history[|history| - n..])
  }

  function Power10(i: nat): (p: nat)
    ensures p > 0
  {
    if i == 0 then 1 else 10 * Power10(i - 1)
  }

  /** n without its last i decimal digits. */
  function Digits(n: nat, i: nat): nat {
    if i == 0 then n else Digits(n, i - 1) / 10
  }

  /** The last i decimal digits of n are zero. */
  predicate Carry(n: nat, i: nat) {
    i == 0 || (Carry(n, i - 1) && Digits(n, i - 1) % 10 == 0)
  }

  /** The errors of group b of 10^i counted bits: bits b * 10^i up to (b + 1) * 10^i. */
  function Group(history: seq<bool>, i: nat, b: nat): int {
    ErrorsTo(history, (b + 1) * Power10(i)) - ErrorsTo(history, b * Power10(i))
  }

  lemma {:induction false} DigitsStep(n: nat, i: nat)
    ensures Digits(n + 1, i) == Digits(n, i) + if Carry(n + 1, i) then 1 else 0
  {
    if i == 0 {
    } else {
      DigitsStep(n, i - 1);
    }
  }

  lemma {:induction false} DigitsBound(n: nat, i: nat)
    ensures Digits(n, i) * Power10(i) <= n
  {
    if i == 0 {
    } else {
      DigitsBound(n, i - 1);
      TenTimes(Digits(n, i - 1), Power10(i - 1));
    }
  }

  lemma TenTimes(d: nat, p: nat)
    ensures (d / 10) * (10 * p) <= d * p
  {
    assert (d / 10) * (10 * p) == (10 * (d / 10)) * p;
    assert (10 * (d / 10)) * p <= d * p;
  }

  lemma ErrorsToSnoc(history: seq<bool>, e: bool, n: nat)
    ensures n <= |history| ==> ErrorsTo(history + [e], n) == ErrorsTo(history, n)
    ensures n == |history| + 1 ==> ErrorsTo(history + [e], n) == ErrorsTo(history, |history|) + if e then 1 else 0
  {
    assert (history + [e])[..|history|] == history == history[..|history|];
    if n <= |history| {
      assert (history + [e])[..n] == history[..n];
    } else {
      assert (history + [e])[..|history| + 1] == history + [e];
    }
  }

  lemma LastErrorsIs(history: seq<bool>, n: nat)
    requires n <= |history|
    ensures LastErrors(history, n) == ErrorsTo(history, |history|) - ErrorsTo(history, |history| - n)
  {
    var k := |history| - n;
    WeightOf(history[..k], history[k..]);
    assert history[..k] + history[k..] == history == history[..|history|];
  }

  /** Complete groups do not change as more bits are counted. */
  lemma GroupStable(history: seq<bool>, e: bool, i: nat, b: nat)
    requires b < Digits(|history|, i)
    ensures Group(history + [e], i, b) == Group(history, i, b)
  {
    var p := Power10(i);
    DigitsBound(|history|, i);
    GroupEnd(b, Digits(|history|, i), p);
    ErrorsToSnoc(history, e, b * p);
    ErrorsToSnoc(history, e, (b + 1) * p);
  }

  lemma GroupEnd(b: nat, k: nat, p: nat)
    requires b < k
    ensures b * p <= (b + 1) * p <= k * p
  {
  }

  /** Ten consecutive groups make one of the next decade. */
  lemma {:induction false} SumOfGroups(history: seq<bool>, i: nat, b: nat, s: seq<nat>)
    requires |s| <= 10
    requires forall j :: 0 <= j < |s| ==> s[j] == Group(history, i, 10 * b + j)
    ensures Total(s) == ErrorsTo(history, (10 * b + |s|) * Power10(i)) - ErrorsTo(history, (10 * b) * Power10(i))
  {
    if s == [] {
    } else {
      SumOfGroups(history, i, b, s[..|s| - 1]);
    }
  }

  lemma SumIsGroup(history: seq<bool>, i: nat, b: nat, s: Snapshots)
    requires forall j :: 0 <= j < 10 ==> s[j] == Group(history, i, 10 * b + j)
    ensures Total(s) == Group(history, i + 1, b)
  {
    hide ErrorsTo, Total;
    SumOfGroups(history, i, b, s);
    TenGroups(b, Power10(i));
  }

  lemma TenGroups(b: nat, p: nat)
    ensures (10 * b) * p == b * (10 * p) && (10 * b + 10) * p == (b + 1) * (10 * p)
  {
  }

  // ----- the odometer invariant

  /** Decade i shows k complete groups: k's last digit, and the groups since its last wrap. */
  predicate Shows(m: Meter, history: seq<bool>, i: nat, k: nat)
    requires m.Valid() && i < DECADES
  {
    && m.ptr[i] == k % 10
    && forall j :: 0 <= j < k % 10 ==> m.bad[i][j] == Group(history, i, k - k % 10 + j)
  }

  /** As Shows, and the snapshot in progress is group k. */
  predicate Completes(m: Meter, history: seq<bool>, i: nat, k: nat)
    requires m.Valid() && i < DECADES
  {
    Shows(m, history, i, k) && m.bad[i][k % 10] == Group(history, i, k)
  }

  predicate Done(m: Meter, history: seq<bool>, d: nat)
    requires m.Valid() && d < DECADES
  {
    Shows(m, history, d, Digits(|history|, d))
  }

  /** Every decade shows the digit and the groups of the bits counted so far. */
  predicate Odometer(m: Meter, history: seq<bool>) {
    && m.Valid()
    && (forall i :: LOW <= i <= HIGH ==> Done(m, history, i))
    && m.bad[LOW][m.ptr[LOW]]
       == ErrorsTo(history, |history|) - ErrorsTo(history, Digits(|history|, LOW) * Power10(LOW))
  }

  lemma ShowsStable(m: Meter, history: seq<bool>, e: bool, i: nat)
    requires m.Valid() && i < DECADES && Shows(m, history, i, Digits(|history|, i))
    ensures Shows(m, history + [e], i, Digits(|history|, i))
  {
    var k := Digits(|history|, i);
    forall j | 0 <= j < k % 10 ensures m.bad[i][j] == Group(history + [e], i, k - k % 10 + j) {
      GroupStable(history, e, i, k - k % 10 + j);
    }
  }

  /** Decade i wraps now, with more than ten errors in the last 10^(i + 1) counted bits. */
  predicate Overflows(history: seq<bool>, i: nat) {
    var n := Power10(i + 1);
    n <= |history| && |history| % n == 0 && LastErrors(history, n) > 10
  }

  /** The lowest decade from i on that wraps with more than ten errors in its 10^(i + 1) bits. */
  function FirstOver(history: seq<bool>, i: nat): (r: nat)
    requires i <= HIGH + 1
    ensures i <= r <= HIGH + 1
    decreases HIGH + 1 - i
  {
    if i > HIGH then HIGH + 1
    else if Overflows(history, i) then i
    else FirstOver(history, i + 1)
  }

  /** The rate that an assessment which starts at decade i reports. */
  function RateFrom(history: seq<bool>, i: nat, old_: nat): nat
    requires i <= HIGH + 1
  {
    var r := FirstOver(history, i);
    if r <= HIGH || |history| % Power10(HIGH + 1) == 0 then r else old_
  }

  /** Decade d still shows the counts before the last bit. */
  predicate Waiting(m: Meter, history: seq<bool>, d: nat)
    requires m.Valid() && d < DECADES && |history| > 0
  {
    Shows(m, history, d, Digits(|history| - 1, d))
  }

  /** Before decade i is assessed: lower decades are done, decade i completes a group, higher ones wait. */
  predicate Midway(m: Meter, history: seq<bool>, i: nat)
    requires m.Valid() && LOW <= i <= HIGH + 1 && |history| > 0
  {
    && Carry(|history|, i)
    && (forall d :: LOW <= d < i ==> Done(m, history, d))
    && (i <= HIGH ==> Digits(|history|, i) > 0 && Completes(m, history, i, Digits(|history|, i) - 1))
    && (forall d :: i < d <= HIGH ==> Waiting(m, history, d))
    && (i > LOW ==> m.bad[LOW][0] == 0 && m.ptr[LOW] == 0)
  }

  /** A decade whose counters did not move shows what it showed. */
  lemma Untouched(m: Meter, r: Meter, history: seq<bool>, d: nat)
    requires m.Valid() && r.Valid() && d < DECADES && |history| > 0
    requires r.ptr[d] == m.ptr[d] && r.bad[d] == m.bad[d]
    ensures Done(m, history, d) ==> Done(r, history, d)
    ensures Waiting(m, history, d) ==> Waiting(r, history, d)
  {
  }

  /** Without a carry, a waiting decade is done. */
  lemma WaitingIsDone(m: Meter, history: seq<bool>, i: nat, d: nat)
    requires m.Valid() && d < DECADES && |history| > 0 && i <= d && !Carry(|history|, i)
    requires Waiting(m, history, d)
    ensures Done(m, history, d)
  {
    NoCarryAbove(|history|, i, d);
    DigitsStep(|history| - 1, d);
  }

  lemma NoCarryAbove(n: nat, i: nat, d: nat)
    requires i <= d && !Carry(n, i)
    ensures !Carry(n, d)
    decreases d
  {
    if i < d {
      NoCarryAbove(n, i, d - 1);
    }
  }

  /** A decade that does not wrap ends the assessment. */
  lemma AdvancedIsOdometer(m: Meter, history: seq<bool>, i: nat)
    requires m.Valid() && LOW <= i <= HIGH && |history| > 0 && Midway(m, history, i)
    requires m.ptr[i] + 1 < SNAPSHOTS
    ensures forall d :: LOW <= d <= HIGH ==> Done(Advanced(m, i), history, d)
    ensures !Carry(|history|, i + 1)
    ensures Advanced(m, i).bad[LOW][Advanced(m, i).ptr[LOW]] == 0
  {
    var r := Advanced(m, i);
    AdvancedShows(m, history, i, Digits(|history|, i) - 1);
    forall d | LOW <= d <= HIGH ensures Done(r, history, d) {
      if d != i {
        if d > i {
          WaitingIsDone(m, history, i + 1, d);
        }
        Untouched(m, r, history, d);
      }
    }
  }

  lemma AdvancedShows(m: Meter, history: seq<bool>, i: nat, k: nat)
    requires m.Valid() && i < DECADES && Completes(m, history, i, k) && m.ptr[i] + 1 < SNAPSHOTS
    ensures Shows(Advanced(m, i), history, i, k + 1) && (k + 1) % 10 != 0
  {
    hide Group;
    assert (k + 1) % 10 == k % 10 + 1;
  }

  /** A decade that wraps completes a group of the next one. */
  lemma WrappedIsMidway(m: Meter, history: seq<bool>, i: nat)
    requires m.Valid() && LOW <= i <= HIGH && |history| > 0 && Midway(m, history, i)
    requires m.ptr[i] + 1 == SNAPSHOTS
    ensures Midway(Wrapped(m, i), history, i + 1)
    ensures Digits(|history|, i + 1) > 0 && Total(m.bad[i]) == Group(history, i + 1, Digits(|history|, i + 1) - 1)
  {
    hide Total, Group, Wrapped, Shows, Completes;
    var r, k := Wrapped(m, i), Digits(|history|, i);
    CompleteSum(m, history, i, k);
    DigitsStep(|history| - 1, i + 1);
    WrappedShows(m, history, i, k);
    forall d | LOW <= d <= HIGH ensures d < i ==> Done(r, history, d) ensures d > i + 1 ==> Waiting(r, history, d) {
      if d < i || d > i + 1 {
        WrappedElsewhere(m, i, d);
        Untouched(m, r, history, d);
      }
    }
    WrappedElsewhere(m, i, LOW);
    if i < HIGH {
      assert Waiting(m, history, i + 1);
      FilledCompletes(m, history, i, Digits(|history|, i + 1) - 1);
    }
  }

  lemma WrappedElsewhere(m: Meter, i: nat, d: nat)
    requires m.Valid() && LOW <= i <= HIGH && d < DECADES
    ensures d < i || d > i + 1 ==> Wrapped(m, i).ptr[d] == m.ptr[d] && Wrapped(m, i).bad[d] == m.bad[d]
    ensures d == i ==> Wrapped(m, i).ptr[d] == 0 && Wrapped(m, i).bad[d][0] == 0
  {
  }

  lemma WrappedShows(m: Meter, history: seq<bool>, i: nat, k: nat)
    requires m.Valid() && LOW <= i <= HIGH && k % 10 == 0
    ensures Shows(Wrapped(m, i), history, i, k)
  {
  }

  lemma CompleteSum(m: Meter, history: seq<bool>, i: nat, k: nat)
    requires m.Valid() && i < DECADES && k > 0 && Completes(m, history, i, k - 1) && m.ptr[i] + 1 == SNAPSHOTS
    ensures k % 10 == 0 && k / 10 > 0 && Total(m.bad[i]) == Group(history, i + 1, k / 10 - 1)
  {
    assert k % 10 == 0 && k - 1 - (k - 1) % 10 == 10 * (k / 10 - 1);
    SumIsGroup(history, i, k / 10 - 1, m.bad[i]);
  }

  lemma FilledCompletes(m: Meter, history: seq<bool>, i: nat, k: nat)
    requires m.Valid() && LOW <= i < HIGH && Shows(m, history, i + 1, k) && Total(m.bad[i]) == Group(history, i + 1, k)
    ensures Completes(Wrapped(m, i), history, i + 1, k)
  {
  }

  lemma {:induction false} AssessIsOdometer(m: Meter, history: seq<bool>, i: nat, test: bool)
    requires m.Valid() && LOW <= i <= HIGH + 1 && |history| > 0 && Midway(m, history, i)
    ensures var r := AssessFrom(m, i, test);
      && (forall d :: LOW <= d <= HIGH ==> Done(r, history, d))
      && r.bad[LOW][r.ptr[LOW]] == 0
      && r.errorRate == if test then RateFrom(history, i, m.errorRate) else m.errorRate
    decreases HIGH + 1 - i
  {
    hide Total, Group, Digits, Power10, LastErrors, Wrapped, Shows, Completes;
    if i > HIGH {
      MidwayAtAnyRate(m, history, i, i);
      CarryIff(|history|, HIGH + 1);
    } else if m.ptr[i] + 1 < SNAPSHOTS {
      AdvancedIsOdometer(m, history, i);
      RateWithoutCarry(history, i, m.errorRate);
    } else {
      var overflow := test && Total(m.bad[i]) > 10;
      var rate := if overflow then i else m.errorRate;
      WrappedIsMidway(m, history, i);
      MidwayAtAnyRate(Wrapped(m, i), history, i + 1, rate);
      AssessIsOdometer(Wrapped(m, i).(errorRate := rate), history, i + 1, test && !overflow);
      TotalOfNats(m.bad[i]);
      RateStep(history, i, m.errorRate, Total(m.bad[i]));
    }
  }

  lemma RateStep(history: seq<bool>, i: nat, rate: nat, sum: nat)
    requires LOW <= i <= HIGH && Carry(|history|, i + 1)
    requires Digits(|history|, i + 1) > 0 && sum == Group(history, i + 1, Digits(|history|, i + 1) - 1)
    ensures RateFrom(history, i, rate) == if sum > 10 then i else RateFrom(history, i + 1, rate)
  {
    hide Carry, Digits, Group, Power10, LastErrors;
    LastGroup(history, i + 1);
    CarryIff(|history|, i + 1);
  }

  lemma MidwayAtAnyRate(m: Meter, history: seq<bool>, i: nat, rate: nat)
    requires m.Valid() && LOW <= i <= HIGH + 1 && |history| > 0 && Midway(m, history, i)
    ensures Midway(m.(errorRate := rate), history, i)
  {
    var r := m.(errorRate := rate);
    forall d | LOW <= d <= HIGH ensures d < i ==> Done(r, history, d) ensures i < d ==> Waiting(r, history, d) {
      if d < i || i < d {
        Untouched(m, r, history, d);
      }
    }
  }

  /** Without a carry no further decade wraps. */
  lemma NoOverflowAbove(history: seq<bool>, i: nat, d: nat)
    requires !Carry(|history|, i + 1) && i <= d <= HIGH + 1
    ensures FirstOver(history, d) == HIGH + 1
    decreases HIGH + 1 - d
  {
    if d <= HIGH {
      NoCarryAbove(|history|, i + 1, d + 1);
      CarryIff(|history|, d + 1);
      NoOverflowAbove(history, i, d + 1);
    }
  }

  lemma RateWithoutCarry(history: seq<bool>, i: nat, rate: nat)
    requires LOW <= i <= HIGH && !Carry(|history|, i + 1)
    ensures RateFrom(history, i, rate) == rate
  {
    NoOverflowAbove(history, i, i);
    NoCarryAbove(|history|, i + 1, HIGH + 1);
    CarryIff(|history|, HIGH + 1);
  }

  // ----- counting one bit

  /** The counters with the error flag of one more bit. */
  function Marked(m: Meter, e: bool): (r: Meter)
    requires m.Valid()
    ensures r.Valid()
  {
    if e then Mark(m) else m
  }

  /** One bit counted in sync: bert_put_bit marks an error at once, and assesses when one is due. */
  function Counted(m: Meter, due: bool, e: bool): (r: Meter)
    requires m.Valid()
    ensures r.Valid()
  {
    if due then Assess(Marked(m, e)) else Marked(m, e)
  }

  /** The counters stay an odometer, and the reported rate is the one its windows give. */
  lemma CountedIsOdometer(m: Meter, history: seq<bool>, due: bool, e: bool)
    requires Odometer(m, history) && due == ((|history| + 1) % 100 == 0)
    ensures Odometer(Counted(m, due, e), history + [e])
    ensures Counted(m, due, e).errorRate
         == if due then RateFrom(history + [e], LOW, m.errorRate) else m.errorRate
  {
    hide Mark, Done, Carry, Digits, ErrorsTo, Power10, AssessFrom, RateFrom, Midway;
    MarkKeepsRate(m);
    if due {
      MarkedIsMidway(m, history, e);
      AssessIsOdometer(Marked(m, e), history + [e], LOW, true);
      WholeHundreds(history + [e]);
    } else {
      MarkedIsDone(m, history, e);
    }
  }

  lemma MarkKeepsRate(m: Meter)
    requires m.Valid()
    ensures Mark(m).errorRate == m.errorRate
  {
  }

  /** At a multiple of 100 bits the snapshot in progress starts afresh. */
  lemma WholeHundreds(history: seq<bool>)
    requires |history| % 100 == 0
    ensures ErrorsTo(history, Digits(|history|, LOW) * Power10(LOW)) == ErrorsTo(history, |history|)
  {
    hide ErrorsTo;
    TwoDigits(|history|);
  }

  /** When an assessment is due, the lowest decade completes a group. */
  lemma MarkedIsMidway(m: Meter, history: seq<bool>, e: bool)
    requires Odometer(m, history) && (|history| + 1) % 100 == 0
    ensures Midway(Marked(m, e), history + [e], LOW)
  {
    hide Mark, Digits, Power10, ErrorsTo, Carry;
    MarkedShows(m, history, e);
    HundredMore(|history|);
    var after, k := history + [e], Digits(|history|, LOW);
    assert Waiting(Marked(m, e), after, LOW) && |after| - 1 == |history|;
    assert Completes(Marked(m, e), after, LOW, k);
  }

  lemma HundredMore(n: nat)
    requires (n + 1) % 100 == 0
    ensures Digits(n + 1, LOW) == Digits(n, LOW) + 1 && Carry(n + 1, LOW)
    ensures (Digits(n, LOW) + 1) * Power10(LOW) == n + 1
  {
    TwoDigits(n);
    TwoDigits(n + 1);
  }

  /** Between assessments the waiting decades are done. */
  lemma MarkedIsDone(m: Meter, history: seq<bool>, e: bool)
    requires Odometer(m, history) && (|history| + 1) % 100 != 0
    ensures Odometer(Marked(m, e), history + [e])
  {
    hide Mark, Digits, Power10, ErrorsTo, Carry;
    MarkedShows(m, history, e);
    TwoDigits(|history| + 1);
    forall d | LOW <= d <= HIGH ensures Done(Marked(m, e), history + [e], d) {
      WaitingIsDone(Marked(m, e), history + [e], LOW, d);
    }
    DigitsStep(|history|, LOW);
  }

  /** After the error mark, every decade still shows the groups, and the snapshot counts the new bit. */
  lemma MarkedShows(m: Meter, history: seq<bool>, e: bool)
    requires Odometer(m, history)
    ensures var marked := Marked(m, e);
      && (forall d :: LOW <= d <= HIGH ==> Waiting(marked, history + [e], d))
      && marked.bad[LOW][marked.ptr[LOW]]
         == ErrorsTo(history + [e], |history| + 1) - ErrorsTo(history + [e], Digits(|history|, LOW) * Power10(LOW))
  {
    hide ErrorsTo, Group, Power10, Digits, Shows, Waiting, Marked;
    forall d | LOW <= d <= HIGH ensures Waiting(Marked(m, e), history + [e], d) {
      assert Done(m, history, d);
      MarkedWaits(m, history, e, d);
    }
    DigitsBound(|history|, LOW);
    MarkedSnapshot(m, e);
    ErrorsToSnoc(history, e, Digits(|history|, LOW) * Power10(LOW));
    ErrorsToSnoc(history, e, |history| + 1);
  }

  lemma MarkedWaits(m: Meter, history: seq<bool>, e: bool, d: nat)
    requires m.Valid() && d < DECADES && Done(m, history, d)
    ensures Waiting(Marked(m, e), history + [e], d)
  {
    hide Shows, Mark, Digits;
    ShowsStable(m, history, e, d);
    MarkKeepsShows(m, history + [e], d, Digits(|history|, d));
    assert |history + [e]| - 1 == |history|;
  }

  lemma MarkedSnapshot(m: Meter, e: bool)
    requires m.Valid()
    ensures Marked(m, e).ptr == m.ptr
    ensures Marked(m, e).bad[LOW][m.ptr[LOW]] == m.bad[LOW][m.ptr[LOW]] + if e then 1 else 0
  {
  }

  lemma MarkKeepsShows(m: Meter, history: seq<bool>, d: nat, k: nat)
    requires m.Valid() && d < DECADES && Shows(m, history, d, k)
    ensures Shows(Mark(m), history, d, k)
  {
  }

  lemma TwoDigits(n: nat)
    ensures Digits(n, LOW) == n / 100 && Power10(LOW) == 100
    ensures Carry(n, LOW) <==> n % 100 == 0
  {
    assert Digits(n, 1) == n / 10;
    assert Digits(n, 2) == n / 10 / 10;
    assert Carry(n, 1) <==> n % 10 == 0;
    assert Carry(n, 2) <==> n % 10 == 0 && (n / 10) % 10 == 0;
  }

  /** When decade i - 1 wraps, the group it completes is the last 10^i counted bits. */
  lemma LastGroup(history: seq<bool>, i: nat)
    requires Carry(|history|, i) && Digits(|history|, i) > 0
    ensures |history| >= Power10(i)
    ensures Group(history, i, Digits(|history|, i) - 1) == LastErrors(history, Power10(i))
  {
    CarryIsMultiple(|history|, i);
    hide Digits, Power10, ErrorsTo, LastErrors, Carry;
    LastBlock(history, Power10(i), Digits(|history|, i) - 1);
  }

  lemma LastBlock(history: seq<bool>, p: nat, b: nat)
    requires (b + 1) * p == |history|
    ensures p <= |history|
    ensures ErrorsTo(history, (b + 1) * p) - ErrorsTo(history, b * p) == LastErrors(history, p)
  {
    hide *;
    assert (b + 1) * p == b * p + p;
    LastErrorsIs(history, p);
  }

  lemma {:induction false} CarryIsMultiple(n: nat, i: nat)
    requires Carry(n, i)
    ensures Digits(n, i) * Power10(i) == n
  {
    if i == 0 {
    } else {
      CarryIsMultiple(n, i - 1);
      var d, p := Digits(n, i), Power10(i - 1);
      assert (10 * d) * p == d * (10 * p);
    }
  }

  /** Decade i is reached by an assessment exactly at the multiples of 10^i counted bits. */
  lemma {:induction false} CarryIff(n: nat, i: nat)
    ensures Carry(n, i) <==> n % Power10(i) == 0
  {
    if Carry(n, i) {
      CarryIsMultiple(n, i);
      MultipleOf(n, Digits(n, i), Power10(i));
    }
    if i > 0 && n % Power10(i) == 0 {
      var q, p := n / Power10(i), Power10(i - 1);
      TenTimesMultiple(n, q, p);
      CarryIff(n, i - 1);
      CarryIsMultiple(n, i - 1);
      SameFactor(Digits(n, i - 1), 10 * q, p);
    }
  }

  lemma MultipleOf(n: nat, d: nat, p: nat)
    requires p > 0 && n == d * p
    ensures n % p == 0
  {
    var q := n / p;
    assert p * (d - q) == n % p;
    Multiples(p, d - q);
  }

  lemma TenTimesMultiple(n: nat, q: nat, p: nat)
    requires p > 0 && q == n / (10 * p) && n % (10 * p) == 0
    ensures n == (10 * q) * p && n % p == 0
  {
    assert n == q * (10 * p);
    assert q * (10 * p) == (10 * q) * p;
    MultipleOf(n, 10 * q, p);
  }

  lemma SameFactor(a: nat, b: nat, p: nat)
    requires p > 0 && a * p == b * p
    ensures a == b
  {
    assert (a - b) * p == 0;
  }

  // ----- a decade's turn

  /** The counters, and what is left of the test, when an assessment has wrapped the decades from LOW up to i. */
  function LoopAt(m: Meter, i: nat): (r: (Meter, bool))
    requires m.Valid() && LOW <= i <= HIGH + 1
    ensures r.0.Valid()
  {
    if i == LOW then (m, true)
    else
      var (p, test) := LoopAt(m, i - 1);
      var overflow := test && Total(p.bad[i - 1]) > 10;
      (Wrapped(p, i - 1).(errorRate := if overflow then i - 1 else p.errorRate), test && !overflow)
  }

  lemma {:induction false} LoopIsMidway(m: Meter, history: seq<bool>, i: nat)
    requires m.Valid() && LOW <= i <= HIGH + 1 && |history| > 0
    requires Midway(m, history, LOW) && Carry(|history|, i)
    ensures Midway(LoopAt(m, i).0, history, i)
    ensures Assess(m) == AssessFrom(LoopAt(m, i).0, i, LoopAt(m, i).1)
  {
    if i == LOW {
    } else {
      LoopIsMidway(m, history, i - 1);
      LoopStep(LoopAt(m, i - 1).0, history, i - 1, LoopAt(m, i - 1).1);
    }
  }

  lemma LoopStep(m: Meter, history: seq<bool>, i: nat, test: bool)
    requires m.Valid() && LOW <= i <= HIGH && |history| > 0
    requires Midway(m, history, i) && Carry(|history|, i + 1)
    ensures var overflow := test && Total(m.bad[i]) > 10;
      var r := Wrapped(m, i).(errorRate := if overflow then i else m.errorRate);
      Midway(r, history, i + 1) && AssessFrom(m, i, test) == AssessFrom(r, i + 1, test && !overflow)
  {
    hide Total, Wrapped, Group, Digits;
    var overflow := test && Total(m.bad[i]) > 10;
    WrapsAtCarry(m, history, i);
    WrappedIsMidway(m, history, i);
    MidwayAtAnyRate(Wrapped(m, i), history, i + 1, if overflow then i else m.errorRate);
  }

  lemma WrapsAtCarry(m: Meter, history: seq<bool>, i: nat)
    requires m.Valid() && LOW <= i <= HIGH && |history| > 0 && Midway(m, history, i)
    ensures m.ptr[i] + 1 == SNAPSHOTS <==> Carry(|history|, i + 1)
  {
    hide Digits, Group;
  }

  /**
   * An assessment reaches decade i at the multiples of 10^i counted bits, and wraps it at those of 10^(i + 1),
   * when the ten snapshots it sums are the errors of the last 10^(i + 1) counted bits.
   */
  lemma Rollover(m: Meter, history: seq<bool>, e: bool, i: nat)
    requires Odometer(m, history) && LOW <= i <= HIGH && (|history| + 1) % Power10(i) == 0
    ensures var (r, test) := LoopAt(Marked(m, e), i);
      && Assess(Marked(m, e)) == AssessFrom(r, i, test)
      && (r.ptr[i] + 1 == SNAPSHOTS <==> (|history| + 1) % Power10(i + 1) == 0)
      && (r.ptr[i] + 1 == SNAPSHOTS ==>
            Power10(i + 1) <= |history| + 1 && Total(r.bad[i]) == LastErrors(history + [e], Power10(i + 1)))
  {
    var after := history + [e];
    hide Done, Midway, Total, Group, Digits, LastErrors, LoopAt, Carry, Power10, AssessFrom, Marked;
    CarryIff(|after|, i);
    CarryIff(|after|, i + 1);
    CarriesHundred(|after|, i);
    MarkedIsMidway(m, history, e);
    LoopIsMidway(Marked(m, e), after, i);
    WrapsAtCarry(LoopAt(Marked(m, e), i).0, after, i);
    if Carry(|after|, i + 1) {
      WrappedIsMidway(LoopAt(Marked(m, e), i).0, after, i);
      LastGroup(after, i + 1);
    }
  }

  lemma CarriesHundred(n: nat, i: nat)
    requires LOW <= i && Carry(n, i)
    ensures n % 100 == 0
  {
    if !Carry(n, LOW) {
      NoCarryAbove(n, LOW, i);
    }
    TwoDigits(n);
  }

  // ----- the counters over whole histories

  /** The counters after these error flags, from bert_init on. */
  function Metered(history: seq<bool>): (m: Meter)
    ensures m.Valid()
  {
    if history == [] then InitialMeter()
    else
      var n := |history| - 1;
      Counted(Metered(history[..n]), |history| % 100 == 0, history[n])
  }

  lemma InitialIsOdometer()
    ensures Odometer(InitialMeter(), [])
  {
    hide Power10;
    forall i: nat ensures Digits(0, i) == 0 {
      NoDigits(i);
    }
  }

  lemma {:induction false} NoDigits(i: nat)
    ensures Digits(0, i) == 0
  {
    if i > 0 {
      NoDigits(i - 1);
    }
  }

  lemma {:induction false} MeteredIsOdometer(history: seq<bool>)
    ensures Odometer(Metered(history), history)
    ensures history != [] ==>
      var rate := Metered(history[..|history| - 1]).errorRate;
      Metered(history).errorRate == if |history| % 100 == 0 then RateFrom(history, LOW, rate) else rate
  {
    if history == [] {
      InitialIsOdometer();
    } else {
      var before, e := history[..|history| - 1], history[|history| - 1];
      hide Odometer, Counted, RateFrom;
      MeteredIsOdometer(before);
      CountedIsOdometer(Metered(before), before, |history| % 100 == 0, e);
      assert before + [e] == history;
    }
  }

  /** An assessment changes the rate to decade i exactly if i is the lowest decade that overflows. */
  lemma RateIs(history: seq<bool>, i: nat, old_: nat)
    requires LOW <= i <= HIGH && old_ != i
    ensures RateFrom(history, LOW, old_) == i
       <==> Overflows(history, i) && forall d :: LOW <= d < i ==> !Overflows(history, d)
  {
    hide Overflows, Power10;
    FirstOverIs(history, LOW, i);
  }

  lemma {:induction false} FirstOverIs(history: seq<bool>, a: nat, i: nat)
    requires a <= i <= HIGH
    ensures FirstOver(history, a) == i <==> Overflows(history, i) && forall d :: a <= d < i ==> !Overflows(history, d)
    decreases i - a
  {
    hide Overflows;
    if a < i {
      FirstOverIs(history, a + 1, i);
    }
  }

  /** The lowest window tumbles: between the multiples of 1000 counted bits the rate stands, whatever the errors. */
  lemma {:induction false} RateStands(history: seq<bool>, more: seq<bool>)
    requires |history| % 1000 == 0 && |more| < 1000
    ensures Metered(history + more).errorRate == Metered(history).errorRate
  {
    hide Metered;
    if more == [] {
      assert history + more == history;
    } else {
      RateStands(history, more[..|more| - 1]);
      NoMultiple(|history|, |more|);
      assert (history + more)[..|history + more| - 1] == history + more[..|more| - 1];
      BitWithinWindow(history + more);
    }
  }

  lemma NoMultiple(a: nat, b: nat)
    requires a % 1000 == 0 && 0 < b < 1000
    ensures (a + b) % 1000 != 0
  {
  }

  lemma BitWithinWindow(history: seq<bool>)
    requires |history| % 1000 != 0
    ensures Metered(history).errorRate == Metered(history[..|history| - 1]).errorRate
  {
    hide RateFrom, Metered, Odometer;
    MeteredIsOdometer(history);
    NoThousand(history, Metered(history[..|history| - 1]).errorRate);
  }

  lemma NoThousand(history: seq<bool>, rate: nat)
    requires |history| % 1000 != 0
    ensures RateFrom(history, LOW, rate) == rate
  {
    hide RateFrom;
    assert Power10(3) == 1000 by {
      assert Power10(2) == 100;
    }
    CarryIff(|history|, 3);
    RateWithoutCarry(history, LOW, rate);
  }

  /** The first 1000 counted bits raise the rate to 1 in 100 if and only if more than ten of them are bad. */
  lemma FirstWindow(history: seq<bool>)
    requires |history| == 1000
    ensures Metered(history).errorRate == if Weight(history) > 10 then LOW else HIGH + 1
  {
    hide Metered, Odometer, RateFrom, Weight;
    assert history[..999] == [] + history[..999];
    RateStands([], history[..999]);
    assert Metered([]) == InitialMeter() by {
      NothingMetered();
    }
    MeteredIsOdometer(history);
    ThousandBits(history);
  }

  lemma NothingMetered()
    ensures Metered([]) == InitialMeter()
  {
  }

  lemma ThousandBits(history: seq<bool>)
    requires |history| == 1000
    ensures RateFrom(history, LOW, HIGH + 1) == if Weight(history) > 10 then LOW else HIGH + 1
  {
    hide Weight;
    assert Power10(3) == 1000 by {
      assert Power10(2) == 100;
    }
    assert history[0..] == history;
    assert Overflows(history, LOW) <==> Weight(history) > 10;
    RateIs(history, LOW, HIGH + 1);
    if !Overflows(history, LOW) {
      NotTenThousand(1000);
      assert RateFrom(history, LOW, HIGH + 1) == RateFrom(history, LOW + 1, HIGH + 1) by {
        hide Power10;
      }
      RateWithoutCarry(history, LOW + 1, HIGH + 1);
    }
  }

  lemma NotTenThousand(n: nat)
    requires n == 1000
    ensures !Carry(n, 4)
  {
    CarryIff(n, 4);
    assert Power10(3) == 1000 by {
      assert Power10(2) == 100;
    }
  }

  lemma {:induction false} CountRun(n: nat)
    ensures Weight(Zeros(n)) == 0 && Weight(Ones(n)) == n
  {
    if n > 0 {
      CountRun(n - 1);
      assert Zeros(n)[..n - 1] == Zeros(n - 1) && Ones(n)[..n - 1] == Ones(n - 1);
    }
  }

  /** Ten errors in 1000 bits are not reported, eleven are. */
  lemma TenErrors()
    ensures Weight(Zeros(990) + Ones(10)) == 10 && Metered(Zeros(990) + Ones(10)).errorRate == HIGH + 1
    ensures Weight(Zeros(989) + Ones(11)) == 11 && Metered(Zeros(989) + Ones(11)).errorRate == LOW
  {
    hide *;
    RunOfErrors(990, 10);
    RunOfErrors(989, 11);
    FirstWindow(Zeros(990) + Ones(10));
    FirstWindow(Zeros(989) + Ones(11));
  }

  lemma RunOfErrors(a: nat, b: nat)
    ensures Weight(Zeros(a) + Ones(b)) == b
  {
    CountRun(a);
    CountRun(b);
    WeightOf(Zeros(a), Ones(b));
  }

  /** A hundred errors in a row, and in the last 1000 bits, are not reported between two windows. */
  lemma NotSliding()
    ensures var history := Zeros(1000) + Ones(100);
      LastErrors(history, 1000) == 100 && Metered(history).errorRate == HIGH + 1
  {
    hide Metered, Odometer, RateFrom, Weight, Zeros, Ones;
    var history := Zeros(1000) + Ones(100);
    RateStands(Zeros(1000), Ones(100));
    CountRun(1000);
    FirstWindow(Zeros(1000));
    assert history[100..] == Zeros(900) + Ones(100) by {
      ZerosTail(1000, 100);
    }
    RunOfErrors(900, 100);
  }

  lemma ZerosTail(n: nat, k: nat)
    requires k <= n
    ensures Zeros(n)[k..] == Zeros(n - k)
  {
  }
}
