/** Every run of the redundancy scheme: senders and receivers joined by a lossy FIFO path. */
module Rfc2198Run {
  import opened Options
  import opened Rfc2198Sim

  datatype Event =
    | Put(payload: Payload) // rfc2198_sim_put, with the next sequence number
    | Lose(i: nat)          // the path drops the i-th bundle in flight
    | Get                   // rfc2198_sim_get

  /** A global state. A bundle in flight is named by its number; arrived records those consumed. */
  datatype State = State(
    sent: seq<Payload>, channel: seq<nat>, next: nat, queue: seq<Delivery>,
    log: seq<Delivery>, arrived: seq<nat>)

  const INITIAL := State([], [], 0, [], [], [])

  predicate Below(xs: seq<nat>, n: nat) {
    forall i :: 0 <= i < |xs| ==> xs[i] < n
  }

  function Step(depth: nat, s: State, e: Event): State
    requires depth >= 1
    requires Below(s.channel, |s.sent|)
  {
    match e
    case Put(payload) => s.(sent := s.sent + [payload], channel := s.channel + [|s.sent|])
    case Lose(i) => if i < |s.channel| then s.(channel := s.channel[..i] + s.channel[i + 1..]) else s
    case Get =>
      if s.queue != [] then s.(log := s.log + [s.queue[0]], queue := s.queue[1..])
      else if s.channel == [] then s
      else
        var a := s.channel[0];
        var batch := Released(s.sent[..a + 1], FirstReleased(s.next, a, depth));
        s.(channel := s.channel[1..], next := a + 1, log := s.log + [batch[0]], queue := batch[1..],
           arrived := s.arrived + [a])
  }

  function Run(depth: nat, events: seq<Event>): (s: State)
    requires depth >= 1
    ensures Below(s.channel, |s.sent|)
  {
    if events == [] then INITIAL else Step(depth, Run(depth, events[..|events| - 1]), events[|events| - 1])
  }

  // ----- what the arrivals alone determine

  predicate Increasing(xs: seq<nat>) {
    forall i, j :: 0 <= i < j < |xs| ==> xs[i] < xs[j]
  }

  function NextAfter(arrived: seq<nat>): nat {
    if arrived == [] then 0 else arrived[|arrived| - 1] + 1
  }

  /** Everything released once the bundles in arrived are in, oldest release first. */
  function AllReleased(depth: nat, sent: seq<Payload>, arrived: seq<nat>): seq<Delivery>
    requires depth >= 1
    requires Below(arrived, |sent|)
  {
    if arrived == [] then []
    else
      var before, a := arrived[..|arrived| - 1], arrived[|arrived| - 1];
      AllReleased(depth, sent, before) + Released(sent[..a + 1], FirstReleased(NextAfter(before), a, depth))
  }

  /** What every step keeps. */
  predicate Inv(depth: nat, s: State)
    requires depth >= 1
  {
    && Below(s.arrived, |s.sent|)
    && Below(s.channel, |s.sent|)
    && Increasing(s.arrived + s.channel)
    && s.next == NextAfter(s.arrived)
    && s.log + s.queue == AllReleased(depth, s.sent, s.arrived)
  }

  lemma {:induction false} MorePackets(depth: nat, sent: seq<Payload>, p: Payload, arrived: seq<nat>)
    requires depth >= 1 && Below(arrived, |sent|)
    ensures AllReleased(depth, sent + [p], arrived) == AllReleased(depth, sent, arrived)
  {
    if arrived == [] {
    } else {
      var a := arrived[|arrived| - 1];
      assert (sent + [p])[..a + 1] == sent[..a + 1];
      MorePackets(depth, sent, p, arrived[..|arrived| - 1]);
    }
  }

  lemma StepKeepsInv(depth: nat, s: State, e: Event)
    requires depth >= 1 && Inv(depth, s)
    ensures Inv(depth, Step(depth, s, e))
  {
    match e
    case Put(payload) =>
      MorePackets(depth, s.sent, payload, s.arrived);
      IncreasingSnoc(s.arrived, s.channel, |s.sent|);
    case Lose(i) =>
      if i < |s.channel| {
        IncreasingRemove(s.arrived, s.channel, i);
      }
    case Get =>
      if s.queue != [] {
        assert s.log + s.queue == (s.log + [s.queue[0]]) + s.queue[1..];
      } else if s.channel != [] {
        GetKeepsInv(depth, s);
      }
  }

  lemma IncreasingSnoc(xs: seq<nat>, ys: seq<nat>, n: nat)
    requires Increasing(xs + ys) && Below(xs, n) && Below(ys, n)
    ensures Increasing(xs + (ys + [n])) && Below(ys + [n], n + 1) && Below(xs, n + 1)
  {
    assert xs + (ys + [n]) == (xs + ys) + [n];
  }

  lemma IncreasingRemove(xs: seq<nat>, ys: seq<nat>, i: nat)
    requires Increasing(xs + ys) && i < |ys|
    ensures Increasing(xs + (ys[..i] + ys[i + 1..]))
  {
    var all, k := xs + ys, |xs| + i;
    assert xs + (ys[..i] + ys[i + 1..]) == all[..k] + all[k + 1..];
  }

  lemma GetKeepsInv(depth: nat, s: State)
    requires depth >= 1 && Inv(depth, s) && s.queue == [] && s.channel != []
    ensures Inv(depth, Step(depth, s, Get))
  {
    var a := s.channel[0];
    var arrived := s.arrived + [a];
    assert arrived + s.channel[1..] == s.arrived + s.channel;
    assert arrived[..|arrived| - 1] == s.arrived;
    var batch := Released(s.sent[..a + 1], FirstReleased(s.next, a, depth));
    assert AllReleased(depth, s.sent, arrived) == s.log + batch;
    assert (s.log + [batch[0]]) + batch[1..] == s.log + batch;
  }

  lemma {:induction false} RunKeepsInv(depth: nat, events: seq<Event>)
    requires depth >= 1
    ensures Inv(depth, Run(depth, events))
  {
    if events == [] {
    } else {
      RunKeepsInv(depth, events[..|events| - 1]);
      StepKeepsInv(depth, Run(depth, events[..|events| - 1]), events[|events| - 1]);
    }
  }

  // ----- what is released

  predicate InOrder(q: seq<Delivery>) {
    forall i, j :: 0 <= i < j < |q| ==> q[i].seqNo < q[j].seqNo
  }

  predicate Genuine(sent: seq<Payload>, q: seq<Delivery>) {
    forall i :: 0 <= i < |q| ==> q[i].seqNo < |sent| && q[i].payload == sent[q[i].seqNo]
  }

  predicate Has(q: seq<Delivery>, x: nat) {
    exists i :: 0 <= i < |q| && q[i].seqNo == x
  }

  /** Some bundle carrying packet x, that is x, ..., x + depth - 1, is in. */
  predicate Covered(depth: nat, arrived: seq<nat>, x: nat) {
    exists i :: 0 <= i < |arrived| && x <= arrived[i] < x + depth
  }

  lemma {:induction false} ReleasedInOrder(depth: nat, sent: seq<Payload>, arrived: seq<nat>)
    requires depth >= 1 && Below(arrived, |sent|) && Increasing(arrived)
    ensures InOrder(AllReleased(depth, sent, arrived)) && Genuine(sent, AllReleased(depth, sent, arrived))
    ensures forall d :: d in AllReleased(depth, sent, arrived) ==> d.seqNo < NextAfter(arrived)
  {
    if arrived == [] {
    } else {
      var before, a := arrived[..|arrived| - 1], arrived[|arrived| - 1];
      ReleasedInOrder(depth, sent, before);
      var batch := Released(sent[..a + 1], FirstReleased(NextAfter(before), a, depth));
      var q := AllReleased(depth, sent, before);
      assert AllReleased(depth, sent, arrived) == q + batch;
      assert forall i :: 0 <= i < |batch| ==> batch[i].seqNo >= NextAfter(before);
    }
  }

  /** A packet is released exactly if one of the depth bundles that carry it arrived. */
  lemma {:induction false} ReleasedIffCovered(depth: nat, sent: seq<Payload>, arrived: seq<nat>, x: nat)
    requires depth >= 1 && Below(arrived, |sent|) && Increasing(arrived)
    ensures Has(AllReleased(depth, sent, arrived), x) <==> Covered(depth, arrived, x)
  {
    if arrived == [] {
    } else {
      var n := |arrived| - 1;
      var before, a := arrived[..n], arrived[n];
      ReleasedIffCovered(depth, sent, before, x);
      var f := FirstReleased(NextAfter(before), a, depth);
      HasConcat(AllReleased(depth, sent, before), Released(sent[..a + 1], f), x);
      HasReleased(sent[..a + 1], f, x);
      CoveredSnoc(depth, before, a, x);
      assert arrived == before + [a];
      if x <= a < x + depth && x < f {
        CoveredEarlier(depth, before, a, x);
      }
    }
  }

  /** A packet that arrival a carries but does not release was covered before. */
  lemma CoveredEarlier(depth: nat, before: seq<nat>, a: nat, x: nat)
    requires depth >= 1 && Increasing(before + [a])
    requires x <= a < x + depth && x < FirstReleased(NextAfter(before), a, depth)
    ensures Covered(depth, before, x)
  {
    var n := |before|;
    assert (before + [a])[n - 1] == before[n - 1];
    assert (before + [a])[n] == a;
    assert x <= before[n - 1] < x + depth;
  }

  lemma HasConcat(p: seq<Delivery>, q: seq<Delivery>, x: nat)
    ensures Has(p + q, x) <==> Has(p, x) || Has(q, x)
  {
    if Has(q, x) {
      var i :| 0 <= i < |q| && q[i].seqNo == x;
      assert (p + q)[|p| + i].seqNo == x;
    }
    if Has(p, x) {
      var i :| 0 <= i < |p| && p[i].seqNo == x;
      assert (p + q)[i].seqNo == x;
    }
  }

  lemma HasReleased(sent: seq<Payload>, first: nat, x: nat)
    requires first <= |sent|
    ensures Has(Released(sent, first), x) <==> first <= x < |sent|
  {
    if first <= x < |sent| {
      assert Released(sent, first)[x - first].seqNo == x;
    }
  }

  lemma CoveredSnoc(depth: nat, before: seq<nat>, a: nat, x: nat)
    ensures Covered(depth, before + [a], x) <==> Covered(depth, before, x) || x <= a < x + depth
  {
    var all := before + [a];
    if Covered(depth, before, x) {
      var i :| 0 <= i < |before| && x <= before[i] < x + depth;
      assert all[i] == before[i];
    }
    if x <= a < x + depth {
      assert all[|before|] == a;
    }
  }

  // ----- the guarantees, for every run

  /** Deliveries come in strictly increasing order, each with the payload sent under its number. */
  lemma DeliveredInOrder(depth: nat, events: seq<Event>)
    requires depth >= 1
    ensures InOrder(Run(depth, events).log) && Genuine(Run(depth, events).sent, Run(depth, events).log)
  {
    var s := Run(depth, events);
    RunKeepsInv(depth, events);
    assert Increasing(s.arrived) by {
      assert forall i :: 0 <= i < |s.arrived| ==> (s.arrived + s.channel)[i] == s.arrived[i];
    }
    ReleasedInOrder(depth, s.sent, s.arrived);
    assert forall i :: 0 <= i < |s.log| ==> (s.log + s.queue)[i] == s.log[i];
  }

  /** Once the queue is drained, a packet has been delivered exactly if a bundle carrying it arrived. */
  lemma DeliveredIffCovered(depth: nat, events: seq<Event>, x: nat)
    requires depth >= 1
    ensures Has(Run(depth, events).log + Run(depth, events).queue, x)
       <==> Covered(depth, Run(depth, events).arrived, x)
  {
    var s := Run(depth, events);
    RunKeepsInv(depth, events);
    assert forall i :: 0 <= i < |s.arrived| ==> (s.arrived + s.channel)[i] == s.arrived[i];
    ReleasedIffCovered(depth, s.sent, s.arrived, x);
  }

  /** The packets of a gap: those before arrival k that the arrivals before it leave outstanding. */
  predicate InGap(arrived: seq<nat>, k: nat, x: nat)
    requires k < |arrived|
  {
    NextAfter(arrived[..k]) <= x < arrived[k]
  }

  /** Of the packets of a gap, exactly the last depth - 1 are recovered. */
  lemma GapRecovery(depth: nat, events: seq<Event>, k: nat, x: nat)
    requires depth >= 1
    requires var s := Run(depth, events); k < |s.arrived| && InGap(s.arrived, k, x)
    ensures var s := Run(depth, events); Has(s.log + s.queue, x) <==> s.arrived[k] < x + depth
  {
    var s := Run(depth, events);
    RunKeepsInv(depth, events);
    assert Increasing(s.arrived) by {
      assert forall i :: 0 <= i < |s.arrived| ==> (s.arrived + s.channel)[i] == s.arrived[i];
    }
    DeliveredIffCovered(depth, events, x);
    GapCover(depth, s.arrived, k, x);
  }

  /** A gap of g losses before arrival k leaves exactly max(0, g - (depth - 1)) packets undelivered. */
  lemma GapLoss(depth: nat, events: seq<Event>, k: nat, lost: set<nat>)
    requires depth >= 1 && k < |Run(depth, events).arrived|
    requires var s := Run(depth, events);
      forall x :: x in lost <==> InGap(s.arrived, k, x) && !Has(s.log + s.queue, x)
    ensures var s := Run(depth, events);
      var g := s.arrived[k] - NextAfter(s.arrived[..k]);
      g >= 0 && |lost| == if g < depth then 0 else g - (depth - 1)
  {
    var s := Run(depth, events);
    var from, upto := NextAfter(s.arrived[..k]), s.arrived[k];
    forall x: nat | InGap(s.arrived, k, x)
      ensures Has(s.log + s.queue, x) <==> upto < x + depth
    {
      GapRecovery(depth, events, k, x);
    }
    GapOrder(depth, events, k);
    assert forall x :: x in lost <==> x in Interval(from, upto + 1 - depth);
    assert lost == Interval(from, upto + 1 - depth);
  }

  lemma GapOrder(depth: nat, events: seq<Event>, k: nat)
    requires depth >= 1 && k < |Run(depth, events).arrived|
    ensures NextAfter(Run(depth, events).arrived[..k]) <= Run(depth, events).arrived[k]
  {
    var s := Run(depth, events);
    RunKeepsInv(depth, events);
    var all := s.arrived + s.channel;
    assert all[k] == s.arrived[k];
    if k > 0 {
      assert all[k - 1] == s.arrived[k - 1];
    }
  }

  /** Inside a gap only the arrival that ends it can cover a packet that any arrival covers. */
  lemma GapCover(depth: nat, arrived: seq<nat>, k: nat, x: nat)
    requires Increasing(arrived) && k < |arrived|
    requires NextAfter(arrived[..k]) <= x < arrived[k]
    ensures Covered(depth, arrived, x) <==> arrived[k] < x + depth
  {
    if k > 0 {
      assert arrived[..k][k - 1] == arrived[k - 1] < x;
    }
  }

  function Interval(lo: nat, hi: int): (s: set<nat>)
    ensures forall x: nat :: x in s <==> lo <= x < hi
    ensures |s| == if lo <= hi then hi - lo else 0
    decreases hi - lo
  {
    if lo >= hi then {} else Interval(lo, hi - 1) + {hi - 1}
  }

  // ----- the code follows the model

  /** The bundle fits the buffers of both ends. */
  predicate Fits(sent: seq<Payload>, depth: nat) {
    depth <= SLOTS && |Bundle(sent, depth)| <= BUNDLE_SIZE && |Bundle(sent, depth)| <= depth * SLOT_SIZE
  }

  /** The path holds, for each number n of channel, the bundle sent under n. */
  predicate InFlight(path: seq<Arrival>, channel: seq<nat>, sent: seq<Payload>, depth: nat) {
    && |path| == |channel|
    && Below(channel, |sent|)
    && forall i :: 0 <= i < |path| ==> path[i].seqNo == channel[i] && path[i].Carries(sent[..channel[i] + 1], depth)
  }

  /** The two ends and the bundles between them are in the state s. */
  ghost predicate Represents(tx: Sender, rx: Receiver, path: seq<Arrival>, s: State)
    reads tx, tx.txPkt, rx, rx.rxPkt
  {
    && tx.Valid() && rx.Valid()
    && tx.sent == s.sent && rx.nextSeqNo == s.next && rx.Queue() == s.queue
    && InFlight(path, s.channel, s.sent, tx.depth)
  }

  method PerformPut(tx: Sender, rx: Receiver, path: seq<Arrival>, payload: Payload, seqNo: nat, ghost s: State)
    returns (after: seq<Arrival>)
    requires Represents(tx, rx, path, s) && seqNo == |s.sent| && Fits(s.sent + [payload], tx.depth)
    requires tx.txPkt as object != rx.rxPkt
    modifies tx`nextPkt, tx`sent, tx.txPkt
    ensures Represents(tx, rx, after, Step(tx.depth, s, Put(payload)))
  {
    ghost var queue := rx.Queue();
    var wire := tx.Put(payload);
    assert rx.Queue() == queue;
    after := path + [Arrival(wire, seqNo)];
    PutInFlight(path, s.channel, s.sent, payload, tx.depth, Arrival(wire, seqNo));
  }

  lemma PutInFlight(path: seq<Arrival>, channel: seq<nat>, sent: seq<Payload>, payload: Payload, depth: nat, a: Arrival)
    requires InFlight(path, channel, sent, depth)
    requires a.seqNo == |sent| && a.Carries(sent + [payload], depth)
    ensures InFlight(path + [a], channel + [|sent|], sent + [payload], depth)
  {
    var more := sent + [payload];
    assert more[..|sent| + 1] == more;
    assert forall n :: 0 <= n <= |sent| ==> more[..n] == sent[..n];
  }

  /** Bundles that stay in flight stay what they are. */
  lemma LoseInFlight(path: seq<Arrival>, channel: seq<nat>, sent: seq<Payload>, i: nat, depth: nat)
    requires InFlight(path, channel, sent, depth) && i < |path|
    ensures InFlight(path[..i] + path[i + 1..], channel[..i] + channel[i + 1..], sent, depth)
  {
  }

  lemma TakeInFlight(path: seq<Arrival>, channel: seq<nat>, sent: seq<Payload>, depth: nat)
    requires InFlight(path, channel, sent, depth) && path != []
    ensures InFlight(path[1..], channel[1..], sent, depth)
  {
  }

  lemma GetStep(depth: nat, s: State, sent: seq<Payload>, d: Option<Delivery>, consumed: bool, queue: seq<Delivery>)
    requires depth >= 1 && Below(s.channel, |s.sent|)
    requires consumed == (s.queue == [] && s.channel != []) && d.Some? == (s.queue != [] || s.channel != [])
    requires !consumed ==> Logged(d) + queue == s.queue
    requires consumed ==> sent == s.sent[..s.channel[0] + 1]
    requires consumed ==> [d.value] + queue == Released(sent, FirstReleased(s.next, |sent| - 1, depth))
    ensures Step(depth, s, Get)
         == s.(channel := if consumed then s.channel[1..] else s.channel,
               next := if consumed then |sent| else s.next,
               queue := queue, log := s.log + Logged(d),
               arrived := if consumed then s.arrived + [s.channel[0]] else s.arrived)
  {
    if consumed {
      var batch := Released(sent, FirstReleased(s.next, |sent| - 1, depth));
      assert batch[0] == d.value && batch[1..] == queue;
    } else if s.queue != [] {
      assert s.queue[0] == d.value && s.queue[1..] == queue;
    } else {
      assert s.log + [] == s.log;
    }
  }

  function Logged(d: Option<Delivery>): seq<Delivery> {
    if d.Some? then [d.value] else []
  }

  method PerformGet(tx: Sender, rx: Receiver, path: seq<Arrival>, ghost s: State)
    returns (after: seq<Arrival>, d: Option<Delivery>)
    requires Represents(tx, rx, path, s)
    requires tx.txPkt as object != rx.rxPkt
    modifies rx`rxQueuedPkts, rx`nextSeqNo, rx.rxPkt
    ensures Represents(tx, rx, after, Step(tx.depth, s, Get))
    ensures s.log + Logged(d) == Step(tx.depth, s, Get).log
  {
    ghost var sent := if path == [] then [] else s.sent[..s.channel[0] + 1];
    var consumed;
    d, consumed := rx.Get(if path == [] then None else Some(path[0]), sent, tx.depth);
    GetStep(tx.depth, s, sent, d, consumed, rx.Queue());
    after := path;
    if consumed {
      TakeInFlight(path, s.channel, s.sent, tx.depth);
      after := path[1..];
    }
  }

  /** The state of a simulation: both ends, the path and the number of the next packet. */
  class Simulation {
    const tx: Sender
    const rx: Receiver
    var path: seq<Arrival>
    var seqNo: nat

    ghost predicate At(s: State)
      reads this, tx, tx.txPkt, rx, rx.rxPkt
    {
      tx.txPkt as object != rx.rxPkt && seqNo == |s.sent| && Represents(tx, rx, path, s)
    }

    constructor (depth: nat)
      requires 1 <= depth <= SLOTS
      ensures At(INITIAL) && tx.depth == depth && fresh(tx) && fresh(rx) && fresh(tx.txPkt) && fresh(rx.rxPkt)
    {
      tx := new Sender(depth);
      rx := new Receiver();
      path, seqNo := [], 0;
    }

    method Perform(e: Event, ghost s: State) returns (d: Option<Delivery>)
      requires At(s) && (e.Put? ==> Fits(s.sent + [e.payload], tx.depth))
      modifies this, tx, tx.txPkt, rx, rx.rxPkt
      ensures At(Step(tx.depth, s, e))
      ensures s.log + Logged(d) == Step(tx.depth, s, e).log
    {
      d := None;
      match e {
        case Put(payload) =>
          path := PerformPut(tx, rx, path, payload, seqNo, s);
          seqNo := seqNo + 1;
        case Lose(i) =>
          if i < |path| {
            LoseInFlight(path, s.channel, s.sent, i, tx.depth);
            path := path[..i] + path[i + 1..];
          }
        case Get =>
          path, d := PerformGet(tx, rx, path, s);
      }
    }
  }

  lemma RunStep(depth: nat, events: seq<Event>, n: nat)
    requires depth >= 1 && n < |events|
    ensures Run(depth, events[..n + 1]) == Step(depth, Run(depth, events[..n]), events[n])
    ensures events[n].Put? ==>
      Run(depth, events[..n + 1]).sent == Run(depth, events[..n]).sent + [events[n].payload]
  {
    assert events[..n + 1][..n] == events[..n];
  }

  /** Both ends over a FIFO path, driven by any schedule of events, deliver what the model does. */
  method Simulate(depth: nat, events: seq<Event>) returns (log: seq<Delivery>)
    requires 1 <= depth <= SLOTS
    requires forall n :: 0 <= n <= |events| ==> Fits(Run(depth, events[..n]).sent, depth)
    ensures log == Run(depth, events).log
  {
    var sim := new Simulation(depth);
    log := [];
    var n := 0;
    while n < |events|
      invariant 0 <= n <= |events|
      invariant fresh(sim) && fresh(sim.tx) && fresh(sim.rx) && fresh(sim.tx.txPkt) && fresh(sim.rx.rxPkt)
      invariant sim.tx.depth == depth && sim.At(Run(depth, events[..n])) && log == Run(depth, events[..n]).log
    {
      RunStep(depth, events, n);
      var d := sim.Perform(events[n], Run(depth, events[..n]));
      log := log + Logged(d);
      n := n + 1;
    }
    assert events[..n] == events;
  }
}
