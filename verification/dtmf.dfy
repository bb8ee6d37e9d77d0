/** The block loop and the hit debouncer of src/dtmf.c; the tone detector itself is opaque. */
module Dtmf {

  const BLOCK: nat := 102       // DTMF_SAMPLES_PER_BLOCK
  const MAX_DIGITS: nat := 128  // MAX_DTMF_DIGITS

  // ----- the debouncer

  /** The digit being received and the last hit, as kept in a dtmf_rx_state_t; 0 is none. */
  datatype Key = Key(inDigit: nat, lastHit: nat)

  const IDLE := Key(0, 0)

  /** Both this hit and the last one differ from the current digit. */
  predicate Changed(k: Key, hit: nat) {
    hit != k.inDigit && k.lastHit != k.inDigit
  }

  /** The hit as it is after the test for a change: kept only if two hits agree. */
  function Settled(k: Key, hit: nat): nat {
    if Changed(k, hit) then if hit != 0 && hit == k.lastHit then hit else 0 else hit
  }

  function Debounce(k: Key, hit: nat): Key {
    Key(if Changed(k, hit) then Settled(k, hit) else k.inDigit, Settled(k, hit))
  }

  /** A block declares the start of a digit. */
  predicate Declares(k: Key, hit: nat) {
    Changed(k, hit) && Settled(k, hit) != 0
  }

  /** The debouncer before block n of a sequence of raw hits. */
  function Before(hits: seq<nat>, n: nat): Key
    requires n <= |hits|
  {
    if n == 0 then IDLE else Debounce(Before(hits, n - 1), hits[n - 1])
  }

  /** The last hit is that of the last block, unless it was discarded, which leaves no digit. */
  lemma LastHit(hits: seq<nat>, n: nat)
    requires 0 < n <= |hits|
    ensures var k := Before(hits, n); k.lastHit == hits[n - 1] || k == IDLE
  {
  }

  /** A digit is declared only by the second of two successive blocks that hit it. */
  lemma DeclaredAfterTwo(hits: seq<nat>, n: nat)
    requires n < |hits| && Declares(Before(hits, n), hits[n])
    ensures n >= 1 && hits[n - 1] == hits[n] != 0 && Before(hits, n + 1) == Key(hits[n], hits[n])
  {
    if n > 0 {
      LastHit(hits, n);
    }
  }

  /** With no digit in progress: the blocks with hits since the last gap, or since the last digit ended. */
  function Pending(hits: seq<nat>, n: nat): nat
    requires n <= |hits|
  {
    if n == 0 || hits[n - 1] == 0 || Before(hits, n - 1).inDigit != 0 then 0 else Pending(hits, n - 1) + 1
  }

  /** In a digit the last hit is the raw one. Otherwise hits are taken in pairs, and only an odd one is remembered. */
  lemma {:induction false} LastHitIs(hits: seq<nat>, n: nat)
    requires n <= |hits|
    ensures var k := Before(hits, n);
      k.lastHit == if k.inDigit == 0 && Pending(hits, n) % 2 == 0 then 0 else if n == 0 then 0 else hits[n - 1]
    decreases n
  {
    if n > 0 {
      LastHitIs(hits, n - 1);
    }
  }

  /**
   * Block n starts a digit: it is the second of two equal hits that differ from any digit in progress and, if none is,
   * form one of the pairs in which the hits since the last gap are taken.
   */
  predicate Starts(hits: seq<nat>, n: nat)
    requires n < |hits|
  {
    var d := Before(hits, n).inDigit;
    n > 0 && hits[n - 1] == hits[n] != 0 && hits[n] != d && (d == 0 ==> Pending(hits, n) % 2 == 1)
  }

  lemma DeclaredIff(hits: seq<nat>, n: nat)
    requires n < |hits|
    ensures Declares(Before(hits, n), hits[n]) <==> Starts(hits, n)
  {
    LastHitIs(hits, n);
  }

  /** The digits that the first n blocks start. */
  function Started(hits: seq<nat>, n: nat): (digits: seq<nat>)
    requires n <= |hits|
    ensures |digits| <= n
  {
    if n == 0 then [] else Started(hits, n - 1) + if Starts(hits, n - 1) then [hits[n - 1]] else []
  }

  lemma {:induction false} PrefixSame(hits: seq<nat>, more: seq<nat>, n: nat)
    requires hits <= more && n <= |hits|
    ensures Before(more, n) == Before(hits, n) && Pending(more, n) == Pending(hits, n)
    ensures Started(more, n) == Started(hits, n)
    ensures n < |hits| ==> Starts(more, n) == Starts(hits, n)
    decreases n
  {
    hide Debounce;
    if n > 0 {
      PrefixSame(hits, more, n - 1);
    }
  }

  /** A digit ends exactly at the second of two successive blocks that do not hit it. */
  lemma EndsIff(hits: seq<nat>, n: nat)
    requires n < |hits| && Before(hits, n).inDigit != 0
    ensures var d := Before(hits, n).inDigit;
      n > 0 && (Before(hits, n + 1).inDigit != d <==> hits[n - 1] != d && hits[n] != d)
  {
    LastHitIs(hits, n);
  }

  /** While a digit lasts, it is not declared again. */
  lemma {:induction false} FirstEnd(hits: seq<nat>, m: nat, n: nat) returns (k: nat)
    requires m <= n < |hits| && Before(hits, m).inDigit != 0 && Before(hits, n).inDigit != Before(hits, m).inDigit
    ensures m <= k < n
    ensures Before(hits, k).inDigit == Before(hits, m).inDigit && Before(hits, k + 1).inDigit != Before(hits, m).inDigit
    decreases n - m
  {
    if Before(hits, n - 1).inDigit == Before(hits, m).inDigit {
      k := n - 1;
    } else {
      k := FirstEnd(hits, m, n - 1);
    }
  }

  /** Between two declarations of one digit there are two successive blocks that do not hit it. */
  lemma DeclarationsAreSeparated(hits: seq<nat>, m: nat, n: nat) returns (k: nat)
    requires m < n < |hits| && hits[m] == hits[n]
    requires Declares(Before(hits, m), hits[m]) && Declares(Before(hits, n), hits[n])
    ensures m < k && k + 1 < n && hits[k] != hits[n] && hits[k + 1] != hits[n]
  {
    DeclaredAfterTwo(hits, m);
    var e := FirstEnd(hits, m + 1, n);
    EndsIff(hits, e);
    assert e != m + 1;
    k := e - 1;
  }

  // ----- the patterns that dtmf.c lists

  /**
   * Two equal hits start a digit, at one of them, exactly when the hit before them was that of the digit in progress
   * or the same as they are; or, with no digit in progress, when an even number of hits was pending.
   */
  lemma TwoHitsStart(hits: seq<nat>, n: nat)
    requires 0 < n < |hits| && hits[n - 1] == hits[n] != 0 && hits[n] != Before(hits, n - 1).inDigit
    ensures var d, b := Before(hits, n - 1).inDigit, hits[n];
      Declares(Before(hits, n - 1), b) || Declares(Before(hits, n), b) <==>
        if d == 0 then Pending(hits, n - 1) % 2 == 0 || (n > 1 && hits[n - 2] == b)
        else n > 1 && (hits[n - 2] == d || hits[n - 2] == b)
  {
    LastHitIs(hits, n - 1);
    OfTwoHits(Before(hits, n - 1), hits[n]);
  }

  lemma OfTwoHits(k: Key, b: nat)
    requires b != 0 && b != k.inDigit
    ensures Declares(k, b) || Declares(Debounce(k, b), b) <==> k.lastHit == k.inDigit || k.lastHit == b
  {
  }

  /** Three equal hits always do, whatever came before. */
  lemma ThreeHitsSuffice(k: Key, d: nat)
    requires d != 0
    ensures Debounce(Debounce(Debounce(k, d), d), d) == Key(d, d)
  {
  }

  /** The list in dtmf.c says that the hits A, B, B start B. From idle they do not: A and B only cancel out. */
  lemma AbbDoesNotStart(a: nat, b: nat)
    requires a != 0 && b != 0 && a != b
    ensures !Declares(IDLE, a) && !Declares(Debounce(IDLE, a), b) && !Declares(Debounce(Debounce(IDLE, a), b), b)
    ensures Declares(Debounce(Debounce(Debounce(IDLE, a), b), b), b)
  {
  }

  /** It also says that in a digit B the hits C, D, D start D. They end B, but D needs a third hit. */
  lemma CddDoesNotStart(b: nat, c: nat, d: nat)
    requires b != 0 && c != 0 && d != 0 && b != c && c != d && b != d
    ensures var k := Debounce(Key(b, b), c); !Declares(k, d) && Debounce(k, d) == IDLE && !Declares(IDLE, d)
    ensures Declares(Debounce(IDLE, d), d)
  {
  }

  /** From idle, the hits A, B, C, C start C, although the hit before C, C was neither none nor C: A, B is a pair. */
  lemma AbccStarts(a: nat, b: nat, c: nat)
    requires a != 0 && b != 0 && c != 0 && a != b
    ensures Debounce(Debounce(IDLE, a), b) == IDLE && Declares(Debounce(IDLE, c), c)
  {
  }

  /** The other patterns of the list hold: from idle with a gap, */
  lemma IdlePatterns(a: nat, b: nat)
    requires b != 0
    ensures !Declares(IDLE, a) && Debounce(Debounce(IDLE, a), 0) == IDLE  // A or B, then a gap, leaves nothing
    ensures !Declares(IDLE, b) && Declares(Debounce(IDLE, b), b)          // then B, B start B
  {
  }

  /** and in a digit B. */
  lemma InDigitPatterns(b: nat, c: nat)
    requires b != 0 && c != b
    ensures Debounce(Debounce(Key(b, b), c), b) == Key(b, b)                       // one miss is ridden over
    ensures Debounce(Debounce(Key(b, b), 0), 0) == IDLE                            // two gaps end it
    ensures Debounce(Debounce(Key(b, b), c), 0) == IDLE
    ensures c != 0 ==> Declares(Debounce(Key(b, b), c), c)                         // two hits of another replace it
    ensures Debounce(Debounce(Key(b, b), c), c) == Key(c, c)
  {
  }

  /** In a digit B, A and C end it, and B, B start it again. */
  lemma EndsAndStartsAgain(a: nat, b: nat, c: nat)
    requires b != 0 && a != b && c != b && (a != c || a == 0)
    ensures !Declares(Key(b, b), a) && !Declares(Debounce(Key(b, b), a), c)
    ensures Debounce(Debounce(Key(b, b), a), c) == IDLE
    ensures !Declares(IDLE, b) && Declares(Debounce(IDLE, b), b)
  {
  }

  // ----- blocks of samples

  /** A tone detector: it adds up samples, judges a block, and starts the next one. */
  datatype Tones<!Acc> = Tones(add: (Acc, int) -> Acc, verdict: Acc -> nat, restart: Acc -> Acc)

  /** The changing part of a dtmf_rx_state_t that is polled with dtmf_rx_get. */
  datatype State<Acc> = State(acc: Acc, current: nat, key: Key, digits: seq<nat>, lost: nat)

  /** The end of a block. */
  function EndBlock<Acc>(t: Tones<Acc>, s: State<Acc>): State<Acc> {
    var hit := t.verdict(s.acc);
    var full := |s.digits| >= MAX_DIGITS;
    var declared := Declares(s.key, hit);
    State(t.restart(s.acc), 0, Debounce(s.key, hit),
          if declared && !full then s.digits + [hit] else s.digits,
          if declared && full then s.lost + 1 else s.lost)
  }

  /** One sample. */
  function Sample<Acc>(t: Tones<Acc>, s: State<Acc>, x: int): State<Acc> {
    var u := s.(acc := t.add(s.acc, x), current := s.current + 1);
    if u.current < BLOCK then u else EndBlock(t, u)
  }

  /** Any number of samples: what a call should do, however it is split. */
  function Samples<Acc>(t: Tones<Acc>, s: State<Acc>, amp: seq<int>): State<Acc>
    decreases |amp|
  {
    if amp == [] then s else Samples(t, Sample(t, s, amp[0]), amp[1..])
  }

  lemma {:induction false} SamplesAppend<Acc>(t: Tones<Acc>, s: State<Acc>, a: seq<int>, b: seq<int>)
    ensures Samples(t, s, a + b) == Samples(t, Samples(t, s, a), b)
    decreases |a|
  {
    hide Sample;
    if a == [] {
      assert a + b == b;
    } else {
      assert (a + b)[1..] == a[1..] + b;
      SamplesAppend(t, Sample(t, s, a[0]), a[1..], b);
    }
  }

  /** The samples of a list of calls. */
  function Joined(calls: seq<seq<int>>): seq<int> {
    if calls == [] then [] else calls[0] + Joined(calls[1..])
  }

  function Calls<Acc>(t: Tones<Acc>, s: State<Acc>, calls: seq<seq<int>>): State<Acc>
    decreases |calls|
  {
    if calls == [] then s else Calls(t, Samples(t, s, calls[0]), calls[1..])
  }

  /** The digits, and all the rest of the state, are the same for every splitting of the samples into calls. */
  lemma {:induction false} SplittingDoesNotMatter<Acc>(t: Tones<Acc>, s: State<Acc>, calls: seq<seq<int>>)
    ensures Calls(t, s, calls) == Samples(t, s, Joined(calls))
    decreases |calls|
  {
    hide Samples;
    if calls == [] {
      NoSamples(t, s);
    } else {
      SamplesAppend(t, s, calls[0], Joined(calls[1..]));
      SplittingDoesNotMatter(t, Samples(t, s, calls[0]), calls[1..]);
    }
  }

  lemma NoSamples<Acc>(t: Tones<Acc>, s: State<Acc>)
    ensures Samples(t, s, []) == s
  {
  }

  class Receiver<Acc> {
    const t: Tones<Acc>
    var acc: Acc
    var currentSample: nat
    var inDigit: nat
    var lastHit: nat
    var digits: seq<nat>
    var lostDigits: nat

    function Value(): State<Acc>
      reads this
    {
      State(acc, currentSample, Key(inDigit, lastHit), digits, lostDigits)
    }

    predicate Valid()
      reads this
    {
      currentSample < BLOCK && |digits| <= MAX_DIGITS
    }

    /** dtmf_rx_init. */
    constructor (t: Tones<Acc>, start: Acc)
      ensures Valid() && this.t == t && Value() == State(start, 0, IDLE, [], 0)
    {
      this.t, acc := t, start;
      currentSample, inDigit, lastHit, digits, lostDigits := 0, 0, 0, [], 0;
    }

    /** dtmf_rx: the samples up to the end of each block, and then the block. */
    method Rx(amp: seq<int>)
      requires Valid()
      modifies this
      ensures Valid() && Value() == Samples(t, old(Value()), amp)
    {
      hide Sample, EndBlock;
      var sample := 0;
      assert amp[0..] == amp;
      while sample < |amp|
        invariant 0 <= sample <= |amp| && Valid()
        invariant Samples(t, Value(), amp[sample..]) == Samples(t, old(Value()), amp)
      {
        var limit := if |amp| - sample >= BLOCK - currentSample then sample + (BLOCK - currentSample) else |amp|;
        assert amp[sample..] == amp[sample..limit] + amp[limit..];
        SamplesAppend(t, Value(), amp[sample..limit], amp[limit..]);
        ghost var s := Value();
        AddSamples(amp[sample..limit]);
        WithinBlock(t, s, amp[sample..limit]);
        if currentSample >= BLOCK {
          FinishBlock();
        }
        sample := limit;
      }
    }

    /** The unrolled loop: samples that do not go beyond the block. */
    method AddSamples(part: seq<int>)
      requires currentSample + |part| <= BLOCK
      modifies `acc, `currentSample
      ensures Value() == old(Value()).(acc := Added(t, old(acc), part), current := old(currentSample) + |part|)
    {
      var j := 0;
      assert part[0..] == part;
      while j < |part|
        modifies `acc
        invariant 0 <= j <= |part| && Added(t, acc, part[j..]) == Added(t, old(acc), part)
      {
        assert part[j..][1..] == part[j + 1..];
        acc := t.add(acc, part[j]);
        j := j + 1;
      }
      currentSample := currentSample + |part|;
    }

    /** The hit test at the end of a block. */
    method FinishBlock()
      requires |digits| <= MAX_DIGITS
      modifies this
      ensures Value() == EndBlock(t, old(Value())) && Valid()
    {
      var hit := t.verdict(acc);
      if hit != inDigit && lastHit != inDigit {
        hit := if hit != 0 && hit == lastHit then hit else 0;
        if hit != 0 {
          if |digits| < MAX_DIGITS {
            digits := digits + [hit];
          } else {
            lostDigits := lostDigits + 1;
          }
        }
        inDigit := hit;
      }
      lastHit := hit;
      acc := t.restart(acc);
      currentSample := 0;
    }

    /** dtmf_rx_get: takes the oldest digits. */
    method Get(max: nat) returns (got: seq<nat>)
      requires Valid()
      modifies `digits
      ensures Valid() && got + digits == old(digits) && |got| == if max > |old(digits)| then |old(digits)| else max
    {
      var n := if max > |digits| then |digits| else max;
      got := digits[..n];
      digits := digits[n..];
    }
  }

  function Added<Acc>(t: Tones<Acc>, acc: Acc, part: seq<int>): Acc
    decreases |part|
  {
    if part == [] then acc else Added(t, t.add(acc, part[0]), part[1..])
  }

  /** The samples up to the end of a block only add up; the last of them ends it. */
  lemma {:induction false} WithinBlock<Acc>(t: Tones<Acc>, s: State<Acc>, part: seq<int>)
    requires s.current < BLOCK && s.current + |part| <= BLOCK && part != []
    ensures var u := s.(acc := Added(t, s.acc, part), current := s.current + |part|);
      Samples(t, s, part) == if u.current < BLOCK then u else EndBlock(t, u)
    decreases |part|
  {
    hide EndBlock;
    if |part| == 1 {
      assert part[1..] == [];
    } else {
      WithinBlock(t, Sample(t, s, part[0]), part[1..]);
    }
  }

  // ----- the digits of a sequence of samples

  /** The verdicts of the whole blocks of these samples, of which the first is added to acc. */
  function Hits<Acc>(t: Tones<Acc>, acc: Acc, amp: seq<int>): (hits: seq<nat>)
    decreases |amp|
  {
    if |amp| < BLOCK then []
    else
      var sum := Added(t, acc, amp[..BLOCK]);
      [t.verdict(sum)] + Hits(t, t.restart(sum), amp[BLOCK..])
  }

  /** The samples after the last whole block, and what they are added to. */
  function Tail(amp: seq<int>): (r: seq<int>)
    ensures |r| < BLOCK
    decreases |amp|
  {
    if |amp| < BLOCK then amp else Tail(amp[BLOCK..])
  }

  function TailStart<Acc>(t: Tones<Acc>, acc: Acc, amp: seq<int>): Acc
    decreases |amp|
  {
    if |amp| < BLOCK then acc else TailStart(t, t.restart(Added(t, acc, amp[..BLOCK])), amp[BLOCK..])
  }

  lemma {:induction false} AddedSnoc<Acc>(t: Tones<Acc>, acc: Acc, part: seq<int>, x: int)
    ensures Added(t, acc, part + [x]) == t.add(Added(t, acc, part), x)
    decreases |part|
  {
    if part == [] {
      assert (part + [x])[1..] == [];
    } else {
      assert (part + [x])[1..] == part[1..] + [x];
      AddedSnoc(t, t.add(acc, part[0]), part[1..], x);
    }
  }

  lemma AddedNothing<Acc>(t: Tones<Acc>, acc: Acc)
    ensures Added(t, acc, []) == acc
  {
  }

  /** One more sample joins the last block, or completes it. */
  lemma {:induction false} HitsSnoc<Acc>(t: Tones<Acc>, acc: Acc, amp: seq<int>, x: int)
    ensures var sum := Added(t, TailStart(t, acc, amp), Tail(amp) + [x]);
      if |Tail(amp)| + 1 < BLOCK then
        && Hits(t, acc, amp + [x]) == Hits(t, acc, amp) && Tail(amp + [x]) == Tail(amp) + [x]
        && TailStart(t, acc, amp + [x]) == TailStart(t, acc, amp)
      else
        && Hits(t, acc, amp + [x]) == Hits(t, acc, amp) + [t.verdict(sum)] && Tail(amp + [x]) == []
        && TailStart(t, acc, amp + [x]) == t.restart(sum)
    decreases |amp|
  {
    hide Added;
    if |amp| < BLOCK {
      if |amp| + 1 == BLOCK {
        assert (amp + [x])[..BLOCK] == amp + [x] && (amp + [x])[BLOCK..] == [];
      }
    } else {
      assert (amp + [x])[..BLOCK] == amp[..BLOCK] && (amp + [x])[BLOCK..] == amp[BLOCK..] + [x];
      HitsSnoc(t, t.restart(Added(t, acc, amp[..BLOCK])), amp[BLOCK..], x);
    }
  }

  /** The digits that these samples start. */
  function Spelt<Acc>(t: Tones<Acc>, start: Acc, amp: seq<int>): seq<nat> {
    var hits := Hits(t, start, amp);
    Started(hits, |hits|)
  }

  /** The state has heard exactly these samples since start. */
  ghost predicate Heard<Acc>(t: Tones<Acc>, start: Acc, amp: seq<int>, s: State<Acc>) {
    var hits := Hits(t, start, amp);
    && s.key == Before(hits, |hits|) && s.current == |Tail(amp)|
    && s.acc == Added(t, TailStart(t, start, amp), Tail(amp))
  }

  /** A queue of at most 128 digits takes what fits, and counts the others. */
  predicate Took<Acc>(s: State<Acc>, r: State<Acc>, digits: seq<nat>) {
    var n := if |s.digits| + |digits| <= MAX_DIGITS then |digits| else MAX_DIGITS - |s.digits|;
    n >= 0 && r.digits == s.digits + digits[..n] && r.lost == s.lost + |digits| - n
  }

  lemma HearsOne<Acc>(t: Tones<Acc>, start: Acc, amp: seq<int>, s: State<Acc>, x: int) returns (digits: seq<nat>)
    requires Heard(t, start, amp, s) && |s.digits| <= MAX_DIGITS
    ensures Heard(t, start, amp + [x], Sample(t, s, x))
    ensures Spelt(t, start, amp + [x]) == Spelt(t, start, amp) + digits && |digits| <= 1
    ensures Took(s, Sample(t, s, x), digits)
  {
    var hits := Hits(t, start, amp);
    HitsSnoc(t, start, amp, x);
    AddedSnoc(t, TailStart(t, start, amp), Tail(amp), x);
    hide Hits, Tail, TailStart, Added, Debounce, Declares, Pending;
    digits := [];
    if |Tail(amp)| + 1 < BLOCK {
      assert Spelt(t, start, amp) + [] == Spelt(t, start, amp);
    } else {
      var more := Hits(t, start, amp + [x]);
      AddedNothing(t, TailStart(t, start, amp + [x]));
      PrefixSame(hits, more, |hits|);
      DeclaredIff(more, |hits|);
      if Starts(more, |hits|) {
        digits := [more[|hits|]];
      }
    }
  }

  /** What any further samples add: the digits their blocks start, as far as the queue has room. */
  lemma {:induction false} HearsAll<Acc>(t: Tones<Acc>, start: Acc, past: seq<int>, s: State<Acc>, amp: seq<int>)
    returns (digits: seq<nat>)
    requires Heard(t, start, past, s) && |s.digits| <= MAX_DIGITS
    ensures Heard(t, start, past + amp, Samples(t, s, amp))
    ensures Spelt(t, start, past + amp) == Spelt(t, start, past) + digits
    ensures Took(s, Samples(t, s, amp), digits)
  {
    hide Heard, Spelt, Sample;
    if amp == [] {
      digits := [];
      NoSamples(t, s);
      assert past + amp == past && Spelt(t, start, past) + [] == Spelt(t, start, past);
    } else {
      var n := |amp| - 1;
      var r := Samples(t, s, amp[..n]);
      digits := HearsAll(t, start, past, s, amp[..n]);
      var one := HearsOne(t, start, past + amp[..n], r, amp[n]);
      SamplesSnoc(t, s, amp);
      assert past + amp == (past + amp[..n]) + [amp[n]];
      assert (Spelt(t, start, past) + digits) + one == Spelt(t, start, past) + (digits + one);
      TookTwice(s, r, Samples(t, s, amp), digits, one);
      digits := digits + one;
    }
  }

  lemma SamplesSnoc<Acc>(t: Tones<Acc>, s: State<Acc>, amp: seq<int>)
    requires amp != []
    ensures Samples(t, s, amp) == Sample(t, Samples(t, s, amp[..|amp| - 1]), amp[|amp| - 1])
  {
    var n := |amp| - 1;
    SamplesAppend(t, s, amp[..n], [amp[n]]);
    OneSample(t, Samples(t, s, amp[..n]), amp[n]);
    assert amp[..n] + [amp[n]] == amp;
  }

  lemma OneSample<Acc>(t: Tones<Acc>, s: State<Acc>, x: int)
    ensures Samples(t, s, [x]) == Sample(t, s, x)
  {
    hide Sample;
    assert [x][1..] == [];
  }

  lemma TookTwice<Acc>(s: State<Acc>, r: State<Acc>, u: State<Acc>, a: seq<nat>, b: seq<nat>)
    requires Took(s, r, a) && Took(r, u, b)
    ensures Took(s, u, a + b)
  {
    var n := if |s.digits| + |a + b| <= MAX_DIGITS then |a + b| else MAX_DIGITS - |s.digits|;
    if |s.digits| + |a| <= MAX_DIGITS {
      assert a[..|a|] == a && (a + b)[..n] == a + b[..n - |a|];
    } else {
      assert (a + b)[..n] == a[..n] && b[..0] == [];
    }
  }

  /**
   * From dtmf_rx_init on, the digits waiting are the first 128 of those that the blocks of all samples start, in order,
   * and the others are counted as lost.
   */
  lemma DigitsOf<Acc>(t: Tones<Acc>, start: Acc, amp: seq<int>)
    ensures var s, all := Samples(t, State(start, 0, IDLE, [], 0), amp), Spelt(t, start, amp);
      && s.digits == all[..if |all| <= MAX_DIGITS then |all| else MAX_DIGITS] && s.lost == |all| - |s.digits|
      && Heard(t, start, amp, s)
  {
    var s := State(start, 0, IDLE, [], 0);
    HeardNothing(t, start);
    hide Heard, Spelt, Samples;
    var digits := HearsAll(t, start, [], s, amp);
    assert [] + amp == amp && [] + digits == digits;
  }

  lemma HeardNothing<Acc>(t: Tones<Acc>, start: Acc)
    ensures Heard(t, start, [], State(start, 0, IDLE, [], 0)) && Spelt(t, start, []) == []
  {
  }

  // ----- polling

  datatype Event = Audio(amp: seq<int>) | Poll(max: nat)

  /** The receiver and the digits handed out, after calls of dtmf_rx and dtmf_rx_get. */
  function Session<Acc>(t: Tones<Acc>, start: Acc, events: seq<Event>): (State<Acc>, seq<nat>) {
    if events == [] then (State(start, 0, IDLE, [], 0), [])
    else
      var (s, got) := Session(t, start, events[..|events| - 1]);
      match events[|events| - 1]
      case Audio(amp) => (Samples(t, s, amp), got)
      case Poll(max) => (s.(digits := s.digits[Polled(s.digits, max)..]), got + s.digits[..Polled(s.digits, max)])
  }

  function Polled(digits: seq<nat>, max: nat): (n: nat)
    ensures n <= |digits|
  {
    if max > |digits| then |digits| else max
  }

  /** All samples of a session. */
  function Sound(events: seq<Event>): seq<int> {
    if events == [] then []
    else Sound(events[..|events| - 1]) + if events[|events| - 1].Audio? then events[|events| - 1].amp else []
  }

  /** The places of the digits that were not lost. */
  predicate Picks(places: seq<nat>, n: nat) {
    && (forall i :: 0 <= i < |places| ==> places[i] < n)
    && (forall i, j :: 0 <= i < j < |places| ==> places[i] < places[j])
  }

  function Picked(all: seq<nat>, places: seq<nat>): (r: seq<nat>)
    requires forall i :: 0 <= i < |places| ==> places[i] < |all|
    ensures |r| == |places|
  {
    seq(|places|, i requires 0 <= i < |places| => all[places[i]])
  }

  /**
   * However audio and polls alternate: the digits handed out and then those waiting are digits that the blocks of the
   * whole sound start, in order; all the others are counted as lost, and with none lost they are all of them.
   */
  lemma {:induction false} SessionDigits<Acc>(t: Tones<Acc>, start: Acc, events: seq<Event>) returns (places: seq<nat>)
    ensures var (s, got) := Session(t, start, events); var all := Spelt(t, start, Sound(events));
      && Heard(t, start, Sound(events), s) && |s.digits| <= MAX_DIGITS
      && Picks(places, |all|) && got + s.digits == Picked(all, places)
      && |got| + |s.digits| + s.lost == |all|
      && (s.lost == 0 ==> got + s.digits == all)
  {
    hide Heard, Spelt, Samples;
    if events == [] {
      places := [];
      HeardNothing(t, start);
    } else {
      var before, last := events[..|events| - 1], events[|events| - 1];
      var (s, got) := Session(t, start, before);
      var all := Spelt(t, start, Sound(before));
      places := SessionDigits(t, start, before);
      match last
      case Audio(amp) =>
        var digits := HearsAll(t, start, Sound(before), s, amp);
        places := MorePlaces(all, digits, places, s, Samples(t, s, amp), got);
      case Poll(max) =>
        PollKeeps(t, start, Sound(before), s, Polled(s.digits, max));
        assert Sound(before) + [] == Sound(before);
        assert s.digits == s.digits[..Polled(s.digits, max)] + s.digits[Polled(s.digits, max)..];
        assert got + s.digits == (got + s.digits[..Polled(s.digits, max)]) + s.digits[Polled(s.digits, max)..];
    }
  }

  lemma PollKeeps<Acc>(t: Tones<Acc>, start: Acc, amp: seq<int>, s: State<Acc>, n: nat)
    requires Heard(t, start, amp, s) && n <= |s.digits|
    ensures Heard(t, start, amp, s.(digits := s.digits[n..]))
  {
  }

  /** The digits that fit are the next ones. */
  lemma MorePlaces<Acc>(all: seq<nat>, digits: seq<nat>, places: seq<nat>, s: State<Acc>, r: State<Acc>, got: seq<nat>)
    returns (more: seq<nat>)
    requires Picks(places, |all|) && got + s.digits == Picked(all, places)
    requires |s.digits| <= MAX_DIGITS && Took(s, r, digits)
    requires |got| + |s.digits| + s.lost == |all| && (s.lost == 0 ==> got + s.digits == all)
    ensures Picks(more, |all + digits|) && got + r.digits == Picked(all + digits, more) && |r.digits| <= MAX_DIGITS
    ensures |got| + |r.digits| + r.lost == |all + digits| && (r.lost == 0 ==> got + r.digits == all + digits)
  {
    var n := |r.digits| - |s.digits|;
    more := places + seq(n, i requires 0 <= i < n => |all| + i);
    assert got + r.digits == (got + s.digits) + digits[..n];
    assert digits[..|digits|] == digits;
  }

  /** A receiver from dtmf_rx_init, driven with dtmf_rx and dtmf_rx_get: the digits that the caller is handed. */
  method Receive<Acc>(t: Tones<Acc>, start: Acc, events: seq<Event>)
    returns (rx: Receiver<Acc>, got: seq<nat>, ghost places: seq<nat>)
    ensures rx.Valid() && (rx.Value(), got) == Session(t, start, events)
    ensures var all := Spelt(t, start, Sound(events));
      && Picks(places, |all|) && got + rx.digits == Picked(all, places)
      && rx.lostDigits == |all| - |got| - |rx.digits| && (rx.lostDigits == 0 ==> got + rx.digits == all)
  {
    hide Spelt, Samples;
    rx := new Receiver(t, start);
    got := [];
    for n := 0 to |events|
      invariant rx.Valid() && rx.t == t && fresh(rx) && (rx.Value(), got) == Session(t, start, events[..n])
    {
      assert events[..n + 1][..n] == events[..n];
      match events[n] {
        case Audio(amp) => rx.Rx(amp);
        case Poll(max) =>
          ghost var s := rx.Value();
          var some := rx.Get(max);
          assert some == s.digits[..Polled(s.digits, max)] && rx.digits == s.digits[Polled(s.digits, max)..];
          got := got + some;
      }
    }
    assert events[..|events|] == events;
    places := SessionDigits(t, start, events);
  }
}
