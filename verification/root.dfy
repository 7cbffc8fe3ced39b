/**
 * The root (DAG root, rpl-udp/udp-server.c): one tracked leaf address, where
 * the all-zero address means "none", and a one-byte acknowledgement flag.
 * The receive callback classifies every datagram as a registration ("SYN")
 * or an acknowledgement (anything else); the round loop polls the known leaf
 * with "REQ" up to five times, stops at the first acknowledgement, forgets a
 * leaf that never answered and clears the flag.
 *
 * The cooperative scheduling of the Contiki process is made explicit: each
 * timer wait is a `Wait` that carries the `random_rand()` value drawn for
 * the timer and the datagrams whose receive callbacks ran during it.
 */
module Root {
  import opened Net

  /** `SEND_INTERVAL` of the root: one second. */
  const SendInterval: nat := 1 * ClockSecond

  /** `ATTEMPTS`: the most requests one round sends. */
  const Attempts: nat := 5

  function Min(a: int, b: int): int {
    if a <= b then a else b
  }

  // ---------------------------------------------------------------------------
  // Timer delays (ticks), from a `random_rand()` value.

  /** The first timer, set before the loop (line 108). */
  function InitialDelay(rand: nat): (d: nat)
    ensures d < SendInterval
  {
    rand % SendInterval
  }

  /** The wait after each request (line 121). */
  function RetryDelay(rand: nat): (d: nat)
    ensures SendInterval <= d < SendInterval + 5 * ClockSecond
  {
    SendInterval + rand % (5 * ClockSecond)
  }

  /** The wait between rounds (line 132). */
  function RoundDelay(rand: nat): (d: nat)
    ensures 20 * ClockSecond <= d < 21 * ClockSecond
  {
    20 * ClockSecond + rand % (1 * ClockSecond)
  }

  // ---------------------------------------------------------------------------
  // The state the receive callback and the round share, as a value.

  /** `*leaf_address` and `rec_data`. */
  datatype RootState = RootState(leaf: Address, ack: uint8)

  /** One timer wait: the random value its delay was drawn from and the
      datagrams received while it ran, in arrival order. */
  datatype Wait = Wait(rand: nat, arrivals: seq<Datagram>)

  /** What a stretch of the round loop leaves behind: the new state, the
      requests sent and the timer delays set, in order. */
  datatype Outcome = Outcome(state: RootState, sent: seq<Send>, delays: seq<nat>)

  /** The receive callback: a "SYN" payload makes its sender the leaf, any
      other payload sets the acknowledgement flag. The payload is compared as
      a whole with "SYN" (the C code compares it as a NUL-terminated string). */
  function OnDatagram(s: RootState, d: Datagram): (r: RootState)
    ensures d.payload == Syn ==> r.leaf == d.sender && r.ack == s.ack
    ensures d.payload != Syn ==> r.leaf == s.leaf && r.ack == 1
  {
    if d.payload == Syn then s.(leaf := d.sender) else s.(ack := 1)
  }

  /** The callbacks of all datagrams that arrive during one wait, in order:
      the flag is kept or set to 1, never cleared, and without a "SYN"
      datagram the leaf is kept. */
  function AfterWait(s: RootState, ds: seq<Datagram>): (r: RootState)
    ensures ds == [] ==> r == s
    ensures r.ack == s.ack || r.ack == 1
    ensures NoSyn(ds) ==> r.leaf == s.leaf
    decreases |ds|
  {
    if ds == [] then s
    else
      var r := AfterWait(OnDatagram(s, ds[0]), ds[1..]);
      assert forall i :: 0 <= i < |ds| - 1 ==> ds[1..][i] == ds[i + 1];
      r
  }

  /** Some datagram in `ds` is not a registration. */
  predicate HasAck(ds: seq<Datagram>) {
    exists i :: 0 <= i < |ds| && ds[i].payload != Syn
  }

  /** The sender of the last registration in `ds`, or `leaf` when there is none. */
  function LastSynSender(leaf: Address, ds: seq<Datagram>): Address {
    if ds == [] then leaf
    else if ds[|ds| - 1].payload == Syn then ds[|ds| - 1].sender
    else LastSynSender(leaf, ds[..|ds| - 1])
  }

  /** The leaf after the waits `ws`, seen as registrations only. */
  function LeafAfterWaits(leaf: Address, ws: seq<Wait>): Address
    decreases |ws|
  {
    if ws == [] then leaf else LeafAfterWaits(LastSynSender(leaf, ws[0].arrivals), ws[1..])
  }

  /** The first wait, from index `i` on, during which an acknowledgement
      arrives, or `|waits|` when there is none. */
  function FirstAckWait(waits: seq<Wait>, i: nat): (j: nat)
    requires i <= |waits|
    ensures i <= j <= |waits|
    ensures j < |waits| ==> HasAck(waits[j].arrivals)
    ensures forall k :: i <= k < j ==> !HasAck(waits[k].arrivals)
    decreases |waits| - i
  {
    if i == |waits| then i
    else if HasAck(waits[i].arrivals) then i
    else FirstAckWait(waits, i + 1)
  }

  /** The `for` loop of lines 115-123 from iteration `i` on: stop when the
      flag is 1, otherwise send "REQ" to the current leaf, wait, repeat. */
  function Poll(s: RootState, waits: seq<Wait>, i: nat): (r: Outcome)
    requires |waits| == Attempts && i <= Attempts
    ensures |r.sent| == |r.delays| <= Attempts - i
    ensures forall k :: 0 <= k < |r.sent| ==> r.sent[k].payload == Req
    ensures forall k :: 0 <= k < |r.delays| ==>
      SendInterval <= r.delays[k] < SendInterval + 5 * ClockSecond
    decreases Attempts - i
  {
    if i == Attempts || s.ack == 1 then Outcome(s, [], [])
    else
      var rest := Poll(AfterWait(s, waits[i].arrivals), waits, i + 1);
      Outcome(rest.state, [Send(s.leaf, Req)] + rest.sent, [RetryDelay(waits[i].rand)] + rest.delays)
  }

  /** One round, lines 114-132: poll a known leaf, forget it if it never
      answered, clear the flag; then set the inter-round timer. */
  function RoundSpec(s: RootState, waits: seq<Wait>, rand: nat): (r: Outcome)
    requires |waits| == Attempts
    ensures |r.sent| <= Attempts && |r.delays| == |r.sent| + 1
    ensures forall k :: 0 <= k < |r.sent| ==> r.sent[k].payload == Req
    ensures forall k :: 0 <= k < |r.sent| ==>
      SendInterval <= r.delays[k] < SendInterval + 5 * ClockSecond
    ensures 20 * ClockSecond <= r.delays[|r.sent|] < 21 * ClockSecond
    ensures s.leaf == Zero ==> r.sent == [] && r.state == s
    ensures s.leaf != Zero ==> r.state.ack == 0
  {
    if s.leaf == Zero then Outcome(s, [], [RoundDelay(rand)])
    else
      var p := Poll(s, waits, 0);
      Outcome(RootState(if p.state.ack == 0 then Zero else p.state.leaf, 0),
              p.sent, p.delays + [RoundDelay(rand)])
  }

  /** One pass of the outer `while(1)`, lines 110-132: the wait for the
      previous timer, then the round. */
  function IterationSpec(s: RootState, before: seq<Datagram>, waits: seq<Wait>, rand: nat): (r: Outcome)
    requires |waits| == Attempts
    ensures |r.sent| <= Attempts && |r.delays| == |r.sent| + 1
    ensures LastSynSender(s.leaf, before) == Zero ==> r.sent == [] && r.state.leaf == Zero
    ensures LastSynSender(s.leaf, before) != Zero ==> r.state.ack == 0
  {
    AfterWaitEffect(s, before);
    RoundSpec(AfterWait(s, before), waits, rand)
  }

  // ---------------------------------------------------------------------------
  // Lemmas about the receive callback.

  lemma {:induction false} AfterWaitSnoc(s: RootState, ds: seq<Datagram>, d: Datagram)
    ensures AfterWait(s, ds + [d]) == OnDatagram(AfterWait(s, ds), d)
    decreases |ds|
  {
    if ds != [] {
      assert (ds + [d])[1..] == ds[1..] + [d];
      AfterWaitSnoc(OnDatagram(s, ds[0]), ds[1..], d);
    }
  }

  /** After a wait the flag is set exactly when some non-"SYN" datagram
      arrived (from any sender), and the leaf is the sender of the last
      "SYN", or unchanged when none arrived. */
  lemma {:induction false} AfterWaitEffect(s: RootState, ds: seq<Datagram>)
    ensures AfterWait(s, ds).ack == (if HasAck(ds) then 1 else s.ack)
    ensures AfterWait(s, ds).leaf == LastSynSender(s.leaf, ds)
    decreases |ds|
  {
    if ds != [] {
      var init, d := ds[..|ds| - 1], ds[|ds| - 1];
      assert ds == init + [d];
      AfterWaitSnoc(s, init, d);
      AfterWaitEffect(s, init);
      if HasAck(init) {
        var i :| 0 <= i < |init| && init[i].payload != Syn;
        assert ds[i] == init[i];
      }
      if HasAck(ds) && d.payload == Syn {
        var i :| 0 <= i < |ds| && ds[i].payload != Syn;
        assert init[i] == ds[i];
      }
    }
  }

  // ---------------------------------------------------------------------------
  // Lemmas about the round.

  lemma LeafAfterWaitsStep(leaf: Address, waits: seq<Wait>, i: nat, n: nat)
    requires i < i + n <= |waits|
    ensures LeafAfterWaits(leaf, waits[i..i + n])
         == LeafAfterWaits(LastSynSender(leaf, waits[i].arrivals), waits[i + 1..i + n])
  {
    assert waits[i..i + n][0] == waits[i];
    assert waits[i..i + n][1..] == waits[i + 1..i + n];
  }

  /** The poll loop from iteration `i`: how many requests it sends (up to and
      including the one answered during its wait, or all remaining), the flag
      it ends with, where each request goes (the leaf as registrations during
      the earlier waits left it) and the leaf it ends with. */
  lemma PollEffect(s: RootState, waits: seq<Wait>, i: nat)
    requires |waits| == Attempts && i <= Attempts && s.ack <= 1
    ensures var r := Poll(s, waits, i);
      var j := FirstAckWait(waits, i);
      && |r.sent| == (if s.ack == 1 then 0 else Min(j + 1, Attempts) - i)
      && r.state.ack == (if s.ack == 1 || j < Attempts then 1 else 0)
      && r.state.leaf == LeafAfterWaits(s.leaf, waits[i..i + |r.sent|])
      && forall k :: 0 <= k < |r.sent| ==> r.sent[k].dest == LeafAfterWaits(s.leaf, waits[i..i + k])
  {
    PollCount(s, waits, i);
    PollLeaves(s, waits, i);
  }

  /** Helper: the number of requests and the final flag. */
  lemma {:induction false} PollCount(s: RootState, waits: seq<Wait>, i: nat)
    requires |waits| == Attempts && i <= Attempts && s.ack <= 1
    ensures var r := Poll(s, waits, i);
      var j := FirstAckWait(waits, i);
      && |r.sent| == (if s.ack == 1 then 0 else Min(j + 1, Attempts) - i)
      && r.state.ack == (if s.ack == 1 || j < Attempts then 1 else 0)
    decreases Attempts - i
  {
    if i < Attempts && s.ack != 1 {
      AfterWaitEffect(s, waits[i].arrivals);
      PollCount(AfterWait(s, waits[i].arrivals), waits, i + 1);
    }
  }

  /** Helper: the destination of each request and the final leaf. */
  lemma {:induction false} PollLeaves(s: RootState, waits: seq<Wait>, i: nat)
    requires |waits| == Attempts && i <= Attempts
    ensures var r := Poll(s, waits, i);
      && r.state.leaf == LeafAfterWaits(s.leaf, waits[i..i + |r.sent|])
      && forall k :: 0 <= k < |r.sent| ==> r.sent[k].dest == LeafAfterWaits(s.leaf, waits[i..i + k])
    decreases Attempts - i
  {
    var r := Poll(s, waits, i);
    if i < Attempts && s.ack != 1 {
      var s' := AfterWait(s, waits[i].arrivals);
      AfterWaitEffect(s, waits[i].arrivals);
      PollLeaves(s', waits, i + 1);
      var rest := Poll(s', waits, i + 1);
      assert r.sent == [Send(s.leaf, Req)] + rest.sent;
      LeafAfterWaitsStep(s.leaf, waits, i, |r.sent|);
      forall k | 0 <= k < |r.sent|
        ensures r.sent[k].dest == LeafAfterWaits(s.leaf, waits[i..i + k])
      {
        if k == 0 {
          assert waits[i..i] == [];
        } else {
          assert r.sent[k] == rest.sent[k - 1];
          LeafAfterWaitsStep(s.leaf, waits, i, k);
        }
      }
    }
  }

  /** A round sends no request when no leaf is known or the flag is already
      1; otherwise one request per wait up to and including the first wait
      during which an acknowledgement arrives, and never more than five. */
  lemma RoundSendCount(s: RootState, waits: seq<Wait>, rand: nat)
    requires |waits| == Attempts && s.ack <= 1
    ensures |RoundSpec(s, waits, rand).sent|
         == if s.leaf == Zero || s.ack == 1 then 0 else Min(FirstAckWait(waits, 0) + 1, Attempts)
  {
    if s.leaf != Zero {
      PollEffect(s, waits, 0);
    }
  }

  /** Every request of a round is "REQ" and goes to the leaf address held at
      the moment of sending: the round's starting leaf as redirected by any
      "SYN" received during the earlier waits. */
  lemma RoundRequests(s: RootState, waits: seq<Wait>, rand: nat)
    requires |waits| == Attempts && s.ack <= 1
    ensures var r := RoundSpec(s, waits, rand);
      forall k :: 0 <= k < |r.sent| ==> r.sent[k] == Send(LeafAfterWaits(s.leaf, waits[..k]), Req)
  {
    var r := RoundSpec(s, waits, rand);
    if s.leaf != Zero {
      PollEffect(s, waits, 0);
      forall k | 0 <= k < |r.sent|
        ensures r.sent[k] == Send(LeafAfterWaits(s.leaf, waits[..k]), Req)
      {
        assert waits[0..k] == waits[..k];
      }
    }
  }

  /** How a round with a known leaf ends: the flag is 0; a leaf that never
      acknowledged got all five requests and is forgotten; otherwise the leaf
      is kept (as redirected by registrations during the round). */
  lemma RoundOutcome(s: RootState, waits: seq<Wait>, rand: nat)
    requires |waits| == Attempts && s.ack <= 1 && s.leaf != Zero
    ensures var r := RoundSpec(s, waits, rand);
      var acked := s.ack == 1 || FirstAckWait(waits, 0) < Attempts;
      && r.state.ack == 0
      && (!acked ==> |r.sent| == Attempts && r.state.leaf == Zero)
      && (acked ==> r.state.leaf == LeafAfterWaits(s.leaf, waits[..|r.sent|]))
  {
    PollEffect(s, waits, 0);
    var p := Poll(s, waits, 0);
    assert waits[0..|p.sent|] == waits[..|p.sent|];
  }

  /** With a leaf registered during the wait before a round (and no stray
      acknowledgement), the round's first request goes to that leaf. */
  lemma RegisteredLeafIsPolled(s: RootState, before: seq<Datagram>, waits: seq<Wait>, rand: nat)
    requires |waits| == Attempts && s.ack == 0
    requires LastSynSender(s.leaf, before) != Zero && !HasAck(before)
    ensures var r := IterationSpec(s, before, waits, rand);
      |r.sent| >= 1 && r.sent[0] == Send(LastSynSender(s.leaf, before), Req)
  {
    var t := AfterWait(s, before);
    AfterWaitEffect(s, before);
    RoundSendCount(t, waits, rand);
    RoundRequests(t, waits, rand);
    assert waits[..0] == [];
  }

  /** No datagram in `ds` is a registration. */
  predicate NoSyn(ds: seq<Datagram>) {
    forall i :: 0 <= i < |ds| ==> ds[i].payload != Syn
  }

  lemma {:induction false} LastSynSenderNoSyn(leaf: Address, ds: seq<Datagram>)
    requires NoSyn(ds)
    ensures LastSynSender(leaf, ds) == leaf
    decreases |ds|
  {
    if ds != [] {
      LastSynSenderNoSyn(leaf, ds[..|ds| - 1]);
    }
  }

  /** Waits without registrations leave the leaf where it was. */
  lemma {:induction false} LeafAfterWaitsNoSyn(leaf: Address, ws: seq<Wait>)
    requires forall j :: 0 <= j < |ws| ==> NoSyn(ws[j].arrivals)
    ensures LeafAfterWaits(leaf, ws) == leaf
    decreases |ws|
  {
    if ws != [] {
      LastSynSenderNoSyn(leaf, ws[0].arrivals);
      LeafAfterWaitsNoSyn(leaf, ws[1..]);
    }
  }

  /** A round against a leaf that never answers: five requests, all to that
      leaf, then the leaf is forgotten and the flag is 0. */
  lemma SilentLeafIsForgotten(s: RootState, waits: seq<Wait>, rand: nat)
    requires |waits| == Attempts && s.ack == 0 && s.leaf != Zero
    requires forall j :: 0 <= j < |waits| ==> waits[j].arrivals == []
    ensures var r := RoundSpec(s, waits, rand);
      r.sent == seq(Attempts, _ => Send(s.leaf, Req)) && r.state == RootState(Zero, 0)
  {
    var r := RoundSpec(s, waits, rand);
    assert FirstAckWait(waits, 0) == Attempts;
    RoundSendCount(s, waits, rand);
    RoundRequests(s, waits, rand);
    RoundOutcome(s, waits, rand);
    forall k | 0 <= k < Attempts
      ensures r.sent[k] == Send(s.leaf, Req)
    {
      LeafAfterWaitsNoSyn(s.leaf, waits[..k]);
    }
  }

  // ---------------------------------------------------------------------------
  // The loop as the file is written. Lines 89-98 stand before PROCESS_BEGIN,
  // and a Contiki protothread runs that part again every time the process is
  // resumed: each resumption allocates a fresh `leaf_address` and zeroes it
  // (and sets `i` back to 0) before control jumps back to the wait it left.

  /** One pass of the outer loop as written: the datagrams of the wait are
      received, then the resumption re-runs lines 94-95, then the round. */
  function AsWrittenIteration(s: RootState, before: seq<Datagram>, waits: seq<Wait>, rand: nat): (r: Outcome)
    requires |waits| == Attempts
    ensures r.sent == [] && r.state.leaf == Zero && |r.delays| == 1
    ensures r.state.ack == (if HasAck(before) then 1 else s.ack)
  {
    AfterWaitEffect(s, before);
    RoundSpec(AfterWait(s, before).(leaf := Zero), waits, rand)
  }

  /** The discrepancy: for exactly the inputs under which the intended loop
      polls a freshly registered leaf, the loop as written sends nothing and
      holds no leaf afterwards. */
  lemma AsWrittenLosesRegistration(s: RootState, before: seq<Datagram>, waits: seq<Wait>, rand: nat)
    requires |waits| == Attempts && s.ack == 0
    requires LastSynSender(s.leaf, before) != Zero && !HasAck(before)
    ensures AsWrittenIteration(s, before, waits, rand).sent == []
    ensures AsWrittenIteration(s, before, waits, rand).state.leaf == Zero
    ensures IterationSpec(s, before, waits, rand).sent != []
  {
    RegisteredLeafIsPolled(s, before, waits, rand);
  }

  /** The requests and delays of an earlier stretch of the loop, put in
      front of the outcome of the rest of it. */
  function Prepend(sent: seq<Send>, delays: seq<nat>, rest: Outcome): Outcome {
    Outcome(rest.state, sent + rest.sent, delays + rest.delays)
  }

  lemma PrependAssoc(s1: seq<Send>, d1: seq<nat>, s2: seq<Send>, d2: seq<nat>, r: Outcome)
    ensures Prepend(s1, d1, Prepend(s2, d2, r)) == Prepend(s1 + s2, d1 + d2, r)
  {
  }

  /** One iteration of the poll loop that does not break. */
  lemma PollUnfold(s: RootState, waits: seq<Wait>, i: nat)
    requires |waits| == Attempts && i < Attempts && s.ack != 1
    ensures Poll(s, waits, i)
         == Prepend([Send(s.leaf, Req)], [RetryDelay(waits[i].rand)],
                    Poll(AfterWait(s, waits[i].arrivals), waits, i + 1))
  {
  }

  // ---------------------------------------------------------------------------
  // The process itself, with the intended semantics: the prologue runs once.

  class RootNode {
    var leafAddress: Address
    var recData: uint8
    /** Every `simple_udp_sendto` so far, in order. */
    var outbox: seq<Send>
    /** Every `etimer_set` delay so far, in order. */
    var timers: seq<nat>

    ghost predicate Valid()
      reads this
    {
      recData <= 1
    }

    function State(): RootState
      reads this
    {
      RootState(leafAddress, recData)
    }

    /** Lines 93-108: no leaf, flag clear, first timer armed. */
    constructor (rand: nat)
      ensures Valid() && State() == RootState(Zero, 0)
      ensures outbox == [] && timers == [InitialDelay(rand)]
    {
      leafAddress := Zero;
      recData := 0;
      outbox := [];
      timers := [rand % SendInterval];
    }

    /** `udp_rx_callback`, lines 74-83. */
    method Receive(d: Datagram)
      requires Valid()
      modifies this`leafAddress, this`recData
      ensures Valid() && State() == OnDatagram(old(State()), d)
      ensures d.payload == Syn ==> leafAddress == d.sender && recData == old(recData)
      ensures d.payload != Syn ==> leafAddress == old(leafAddress) && recData == 1
    {
      if d.payload == Syn {
        leafAddress := d.sender;
      } else {
        recData := 1;
      }
    }

    /** One timer wait: the callbacks of the datagrams that arrive during it. */
    method Deliver(ds: seq<Datagram>)
      requires Valid()
      modifies this`leafAddress, this`recData
      ensures Valid() && State() == AfterWait(old(State()), ds)
    {
      var i := 0;
      while i < |ds|
        invariant 0 <= i <= |ds| && Valid()
        invariant AfterWait(State(), ds[i..]) == AfterWait(old(State()), ds)
      {
        assert ds[i..][1..] == ds[i + 1..];
        Receive(ds[i]);
        i := i + 1;
      }
    }

    /** Lines 117-122: one request to the current leaf, then one retry wait. */
    method SendAndWait(w: Wait)
      requires Valid()
      modifies this
      ensures Valid() && State() == AfterWait(old(State()), w.arrivals)
      ensures outbox == old(outbox) + [Send(old(leafAddress), Req)]
      ensures timers == old(timers) + [RetryDelay(w.rand)]
    {
      outbox := outbox + [Send(leafAddress, Req)];
      timers := timers + [SendInterval + w.rand % (5 * ClockSecond)];
      Deliver(w.arrivals);
    }

    /** The `for` loop of lines 115-123 with its early `break`. */
    method PollLoop(waits: seq<Wait>)
      requires Valid() && |waits| == Attempts
      modifies this
      ensures Valid()
      ensures var p := Poll(old(State()), waits, 0);
        State() == p.state && outbox == old(outbox) + p.sent && timers == old(timers) + p.delays
    {
      ghost var start := State();
      ghost var sent: seq<Send> := [];
      ghost var delays: seq<nat> := [];
      var i := 0;
      while i < Attempts
        invariant 0 <= i <= Attempts && Valid()
        invariant outbox == old(outbox) + sent && timers == old(timers) + delays
        invariant Poll(start, waits, 0) == Prepend(sent, delays, Poll(State(), waits, i))
      {
        if recData == 1 {
          break;
        }
        ghost var now := State();
        PollUnfold(now, waits, i);
        PrependAssoc(sent, delays, [Send(now.leaf, Req)], [RetryDelay(waits[i].rand)],
                     Poll(AfterWait(now, waits[i].arrivals), waits, i + 1));
        SendAndWait(waits[i]);
        sent := sent + [Send(now.leaf, Req)];
        delays := delays + [RetryDelay(waits[i].rand)];
        i := i + 1;
      }
      assert Poll(State(), waits, i) == Outcome(State(), [], []);
    }

    /** Lines 114-132: the round for the current leaf and the next timer. */
    method PollRound(waits: seq<Wait>, rand: nat)
      requires Valid() && |waits| == Attempts
      modifies this
      ensures Valid()
      ensures var r := RoundSpec(old(State()), waits, rand);
        State() == r.state && outbox == old(outbox) + r.sent && timers == old(timers) + r.delays
    {
      if leafAddress != Zero {
        PollLoop(waits);
        if recData == 0 {
          leafAddress := Zero;
        }
        recData := 0;
      }
      timers := timers + [20 * ClockSecond + rand % (1 * ClockSecond)];
    }

    /** One pass of the outer loop, lines 110-132. */
    method Iteration(before: seq<Datagram>, waits: seq<Wait>, rand: nat)
      requires Valid() && |waits| == Attempts
      modifies this
      ensures Valid()
      ensures var r := IterationSpec(old(State()), before, waits, rand);
        State() == r.state && outbox == old(outbox) + r.sent && timers == old(timers) + r.delays
    {
      Deliver(before);
      PollRound(waits, rand);
    }
  }
}
