/**
 Rounds of retransmission, one after another: enough of them bring every byte given
 to send to the peer, whatever the channel did before. And the view of a run from the
 other end, so that all that is said of `a` holds of `b`.
 */
module Rounds {
  import opened Words
  import opened SerialNumbers
  import opened Wire
  import Spec = SessionSpec
  import opened Streams
  import opened Endpoint
  import opened Protocol
  import opened Connection

  // --------------------------------------------------------------- packets yet to come

  /** How many packets that many bytes take. */
  function ChunksIn(rest: nat): nat {
    (rest + 1023) / 1024
  }

  /** How many packets the unsent bytes will take. */
  function Chunks(s: Spec.Session): nat
    requires s.txOff <= |s.pendingTx|
  {
    ChunksIn(|s.pendingTx| - s.txOff)
  }

  lemma OneChunk(s: Spec.Session, tsc: nat)
    requires Spec.Shape(s) && Spec.CanSend(s)
    ensures var r := Spec.SendOne(s, tsc);
            && Chunks(r) + 1 == Chunks(s)
            && |r.pendingTx| - r.txOff < |s.pendingTx| - s.txOff
  {
  }

  /** The pump cuts exactly as many chunks as it transmits. */
  lemma {:induction false} PumpLoopChunks(s: Spec.Session, clock: nat -> nat, i: nat)
    requires Spec.Shape(s)
    ensures var e := Spec.PumpLoop(s, clock, i); Chunks(e.s) + |e.tx| == Chunks(s)
    decreases |s.pendingTx| - s.txOff
  {
    hide Spec.SendOne, Spec.NextPacket, ChunksIn;
    if Spec.CanSend(s) {
      OneChunk(s, clock(i));
      PumpLoopChunks(Spec.SendOne(s, clock(i)), clock, i + 1);
    }
  }

  lemma PumpChunks(s: Spec.Session, clock: nat -> nat)
    requires Spec.Shape(s)
    ensures var e := Spec.Pump(s, clock); Chunks(e.s) + |e.tx| == Chunks(s)
  {
    hide Spec.PumpLoop;
    PumpLoopChunks(s, clock, 0);
  }

  lemma {:induction false} DeliverKeepsPending(s: Spec.Session)
    requires Spec.Shape(s)
    ensures var r := Spec.Deliver(s).s; r.pendingTx == s.pendingTx && r.txOff == s.txOff
    decreases Spec.RunLength(s.received)
  {
    if s.received[0] {
      Spec.RunShrinks(s.received);
      DeliverKeepsPending(Spec.DeliverOne(s));
    }
  }

  /** Packets sequenced and packets to come make a constant, as long as nothing is given. */
  ghost function Total(x: End): nat
    requires x.s.txOff <= |x.s.pendingTx|
  {
    |x.hist| + Chunks(x.s)
  }

  lemma PumpedKeepsTotal(x: End, clock: nat -> nat)
    requires Local(x) && Spec.Shape(x.s)
    ensures Total(Pumped(x, clock)) == Total(x) && Pumped(x, clock).given == x.given
  {
    hide Local, Pumped, Spec.Pump, ChunksIn;
    PumpedOk(x, clock);
    PumpChunks(x.s, clock);
  }

  lemma TickKeepsTotal(x: End, now: nat, timeout: nat, clock: nat -> nat)
    requires Local(x) && Spec.Shape(x.s)
    ensures var x' := Apply(x, Tick(now, timeout, clock));
            x'.s.txOff <= |x'.s.pendingTx| && Total(x') == Total(x) && x'.given == x.given
  {
    hide Local, Pumped, SlotsOk, ChunksIn;
    ResentOk(x, now, timeout);
    ResentKeepsPending(x, now, timeout);
    PumpedKeepsTotal(Resent(x, now, timeout), clock);
  }

  lemma ResentKeepsPending(x: End, now: nat, timeout: nat)
    requires Local(x) && Spec.Shape(x.s)
    ensures var y := Resent(x, now, timeout).s;
            y.pendingTx == x.s.pendingTx && y.txOff == x.s.txOff && y.pool == x.s.pool
            && y.nextSeq == x.s.nextSeq && y.sndUna == x.s.sndUna
  {
    hide SlotsOk, Local;
    SenderParts(x);
    ResendOk(x.s, x.held, x.una, x.hist, Spec.TimedOut(x.s.slots, now, timeout), now);
  }

  lemma DeliverKeepsTotal(x: End, y: End, m: Message, buf: nat, clock: nat -> nat)
    requires Inv(x, y) && Usable(x, Deliver(m, buf, clock)) && Enabled(x, y, Deliver(m, buf, clock))
    ensures var x' := Apply(x, Deliver(m, buf, clock));
            x'.s.txOff <= |x'.s.pendingTx| && Total(x') == Total(x) && x'.given == x.given
  {
    hide Local, Link, Encode, Pumped, FreshAck, FreshSeq, Distance, ChunksIn, Spec.Deliver;
    var x0 := Filled(x, buf, Encode(m));
    FilledOk(x, buf, Encode(m));
    DeliverAckHalf(x, y, m, buf, clock);
    if Distance(Wrap(m.ack), x.s.sndUna) > 0 {
      UnaBelowBase(x, y);
      InOut(y, m);
      ReadForward(x, m.ack);
      AckedOk(x0, m.ack);
      PumpedKeepsTotal(Acked(x0, m.ack), clock);
    }
    var x1 := AfterAck(x0, m.ack, clock);
    DeliverKeepsPending(Spec.Store(x1.s, Encode(m)));
  }

  lemma StepKeepsTotal(x: End, y: End, act: Action)
    requires Inv(x, y) && Enabled(x, y, act) && Usable(x, act) && !act.Send?
    ensures var x' := Apply(x, act);
            x'.s.txOff <= |x'.s.pendingTx| && Total(x') == Total(x) && x'.given == x.given
  {
    hide Local, Link, Encode, Pumped, Fresh, ChunksIn;
    if act.Tick? {
      TickKeepsTotal(x, act.now, act.timeout, act.clock);
    } else if act.Deliver? {
      DeliverKeepsTotal(x, y, act.msg, act.buf, act.clock);
    }
  }

  /** `a` gives nothing more to send during the events [i, j). */
  ghost predicate Quiet(events: seq<Event>, i: nat, j: nat) {
    forall t :: i <= t < j && t < |events| && events[t].atA ==> !events[t].act.Send?
  }

  lemma {:induction false} RunKeepsTotal(states: seq<Sys>, events: seq<Event>, i: nat, j: nat)
    requires IsRun(states, events) && i <= j < |states| && Quiet(events, i, j)
    ensures states[i].a.s.txOff <= |states[i].a.s.pendingTx| && states[j].a.s.txOff <= |states[j].a.s.pendingTx|
    ensures Total(states[j].a) == Total(states[i].a) && states[j].a.given == states[i].a.given
    decreases j - i
  {
    hide Initial, Local, Link, Apply, Enabled, Usable, Total;
    RunInv(states, events, i);
    LocalShape(states[i].a);
    if i < j {
      var s, ev := states[i], events[i];
      assert Next(s, ev, states[i + 1]);
      if ev.atA { StepKeepsTotal(s.a, s.b, ev.act); }
      RunKeepsTotal(states, events, i + 1, j);
    }
  }

  // ------------------------------------------------------------------------- one round

  /**
   Events of a round: the sender's tick, an arrival of data, the first receiver's tick
   after that, and the arrival of the acknowledgement it sends.
   */
  datatype Round = Round(t0: nat, tl: nat, ta: nat, td: nat)

  /**
   The sender ticks with every timeout elapsed; if anything is then outstanding, all of
   it arrives, the receiver ticks, and its acknowledgement arrives. A buffer need be
   free only if nothing is outstanding before the tick.
   */
  ghost predicate IsRound(states: seq<Sys>, events: seq<Event>, r: Round)
    requires |states| == |events| + 1
  {
    && r.t0 < r.ta < r.td < |events| && r.tl < r.ta
    && events[r.t0].atA && AllTimedOut(states[r.t0].a, events[r.t0].act)
    && (states[r.t0].a.una == |states[r.t0].a.hist| ==> states[r.t0].a.s.pool.free != [])
    && (states[r.t0].a.una < |states[r.t0 + 1].a.hist| ==>
          && (forall n :: states[r.t0].a.una <= n < |states[r.t0 + 1].a.hist| ==>
                DeliveredWithin(states, events, r.t0, r.ta, n))
          && DataArrives(events[r.tl])
          && (forall t :: r.tl < t < r.ta && !events[t].atA ==> !events[t].act.Tick?)
          && !events[r.ta].atA && events[r.ta].act.Tick?
          && events[r.td].atA && events[r.td].act.Deliver?
          && events[r.td].act.msg == PureAck(|states[r.ta + 1].b.hist|, states[r.ta + 1].b.base))
  }

  lemma RoundAcknowledges(states: seq<Sys>, events: seq<Event>, r: Round)
    requires IsRun(states, events) && IsRound(states, events, r)
    ensures states[r.td + 1].a.una >= |states[r.t0 + 1].a.hist|
  {
    hide Initial, Next, Arrived, AllTimedOut, Transmits;
    RunAdvances(states, events, r.t0, r.td + 1);
    if states[r.t0].a.una < |states[r.t0 + 1].a.hist| {
      RecoveryRound(states, events, r.t0, r.tl, r.ta, r.td, |states[r.t0 + 1].a.hist|);
    }
  }

  /** With nothing outstanding and a buffer free, a tick sequences another packet if any is to come. */
  lemma TickProgress(x: End, now: nat, timeout: nat, clock: nat -> nat)
    requires Local(x) && Spec.Shape(x.s) && x.una == |x.hist| && x.s.pool.free != [] && Chunks(x.s) > 0
    ensures |Apply(x, Tick(now, timeout, clock)).hist| > |x.hist|
  {
    hide Local, Pumped, Resent, ChunksIn, Encode, Spec.SendOne, Spec.NextPacket;
    var x1 := Resent(x, now, timeout);
    ResentOk(x, now, timeout);
    ResentKeepsPending(x, now, timeout);
    LocalWindow(x);
    PumpedOk(x1, clock);
    assert x.s.txOff < |x.s.pendingTx| by { ChunksLeft(x.s); }
    assert Sub(x1.s.nextSeq, x1.s.sndUna) == 0;
    assert Spec.CanSend(x1.s);
  }

  lemma ChunksLeft(s: Spec.Session)
    requires s.txOff <= |s.pendingTx|
    ensures Chunks(s) > 0 <==> s.txOff < |s.pendingTx|
  {
  }

  // ----------------------------------------------------------------------- many rounds

  ghost predicate AreRounds(states: seq<Sys>, events: seq<Event>, rounds: seq<Round>) {
    && IsRun(states, events) && rounds != []
    && (forall i :: 0 <= i < |rounds| ==> IsRound(states, events, rounds[i]))
    && (forall i, j :: 0 <= i < j < |rounds| ==> rounds[i].td < rounds[j].t0)
    && Quiet(events, rounds[0].t0, |events|)
  }

  /** One round after another leaves fewer packets to come, until there are none. */
  lemma NextRound(states: seq<Sys>, events: seq<Event>, r: Round, r': Round)
    requires IsRun(states, events) && IsRound(states, events, r) && IsRound(states, events, r')
    requires r.td < r'.t0 && Quiet(events, r.t0, |events|)
    ensures states[r.t0 + 1].a.s.txOff <= |states[r.t0 + 1].a.s.pendingTx|
    ensures states[r'.t0 + 1].a.s.txOff <= |states[r'.t0 + 1].a.s.pendingTx|
    ensures Chunks(states[r'.t0 + 1].a.s) == 0
         || Chunks(states[r'.t0 + 1].a.s) < Chunks(states[r.t0 + 1].a.s)
  {
    hide Initial, Local, Link, Apply, Arrived, ChunksIn, AllTimedOut, DeliveredWithin;
    RoundAcknowledges(states, events, r);
    RunAdvances(states, events, r.t0 + 1, r'.t0);
    RunAdvances(states, events, r.td + 1, r'.t0);
    RunAdvances(states, events, r'.t0, r'.t0 + 1);
    RunKeepsTotal(states, events, r.t0 + 1, r'.t0);
    RunKeepsTotal(states, events, r'.t0, r'.t0 + 1);
    var x, act := states[r'.t0].a, events[r'.t0].act;
    RunInv(states, events, r'.t0);
    LocalShape(x);
    LocalWindow(x);
    assert Next(states[r'.t0], events[r'.t0], states[r'.t0 + 1]);
    IsTick(x, act);
    if |x.hist| == |states[r.t0 + 1].a.hist| && Chunks(x.s) > 0 {
      TickProgress(x, act.now, act.timeout, act.clock);
    }
  }

  lemma IsTick(x: End, act: Action)
    requires AllTimedOut(x, act)
    ensures act.Tick?
  {
  }

  lemma {:induction false} RoundsProgress(states: seq<Sys>, events: seq<Event>, rounds: seq<Round>, i: nat)
    requires AreRounds(states, events, rounds) && i < |rounds|
    ensures states[rounds[0].t0].a.s.txOff <= |states[rounds[0].t0].a.s.pendingTx|
    ensures states[rounds[i].t0 + 1].a.s.txOff <= |states[rounds[i].t0 + 1].a.s.pendingTx|
    ensures Chunks(states[rounds[i].t0 + 1].a.s) == 0
         || Chunks(states[rounds[i].t0 + 1].a.s) + i <= Chunks(states[rounds[0].t0].a.s)
  {
    hide Initial, Next, IsRound, ChunksIn, Arrived;
    RoundInRange(states, events, rounds[0]);
    if i == 0 {
      RunKeepsTotal(states, events, rounds[0].t0, rounds[0].t0 + 1);
      RunAdvances(states, events, rounds[0].t0, rounds[0].t0 + 1);
    } else {
      RoundsProgress(states, events, rounds, i - 1);
      NextRound(states, events, rounds[i - 1], rounds[i]);
    }
  }

  lemma RoundInRange(states: seq<Sys>, events: seq<Event>, r: Round)
    requires |states| == |events| + 1 && IsRound(states, events, r)
    ensures r.t0 < r.ta < r.td < |events|
  {
  }

  /**
   Everything arrives. In any run with more rounds than the unsent bytes make packets,
   during which `a` gives nothing more, the last round leaves nothing unsent, nothing
   unacknowledged, and the peer's callback with exactly the bytes given to send.
   */
  lemma RoundsDeliverEverything(states: seq<Sys>, events: seq<Event>, rounds: seq<Round>)
    requires AreRounds(states, events, rounds)
    requires var s := states[rounds[0].t0].a.s; s.txOff <= |s.pendingTx| && Chunks(s) < |rounds|
    ensures var s := states[rounds[|rounds| - 1].td + 1];
            && s.a.s.txOff == |s.a.s.pendingTx| && s.a.s.sndUna == s.a.s.nextSeq
            && s.a.given == states[rounds[0].t0].a.given == Flatten(s.b.delivered)
  {
    hide Initial, Next, IsRound, ChunksIn, Arrived, Flatten, Local, Link;
    var first, last := rounds[0], rounds[|rounds| - 1];
    RoundInRange(states, events, first);
    RoundInRange(states, events, last);
    RoundsProgress(states, events, rounds, |rounds| - 1);
    RoundAcknowledges(states, events, last);
    RunKeepsTotal(states, events, last.t0 + 1, last.td + 1);
    RunKeepsTotal(states, events, first.t0, last.td + 1);
    RunAdvances(states, events, last.t0 + 1, last.td + 1);
    RunInv(states, events, last.td + 1);
    var x := states[last.td + 1].a;
    LocalWindow(x);
    ChunksLeft(x.s);
    Completion(states, events, last.td + 1);
  }

  // ------------------------------------------------------------- out of buffers for good

  /** Every buffer is in an unacked slot: none to send with, none to receive into. */
  ghost predicate Stuck(x: End) {
    x.s.pool.free == [] && x.held == {}
  }

  /** A session can take a datagram, at once or after acquiring a buffer, if and only if it is not stuck. */
  lemma DeafIffStuck(x: End)
    requires Local(x) && Usable(x, AcquireBuffer)
    ensures Apply(x, AcquireBuffer).held == {} <==> Stuck(x)
  {
    hide Local;
    if x.s.pool.free != [] {
      assert x.s.pool.free[|x.s.pool.free| - 1] in Apply(x, AcquireBuffer).held;
    }
  }

  lemma PumpsNothing(x: End, clock: nat -> nat)
    requires Spec.Shape(x.s) && x.s.pool.free == []
    ensures Pumped(x, clock) == x.(s := Spec.Trim(x.s))
  {
  }

  /** Such a session can only queue bytes, resend, and send a pending acknowledgement once. */
  lemma StuckStep(x: End, y: End, act: Action)
    requires Inv(x, y) && Stuck(x) && Enabled(x, y, act) && Usable(x, act)
    ensures var x' := Apply(x, act);
            && Stuck(x') && x'.una == x.una && x'.hist == x.hist
            && x'.base == x.base && x'.delivered == x.delivered
  {
    hide Local, Link, Pumped, Fresh, Verifies, Encode;
    if act.Send? {
      PumpsNothing(Queued(x, act.data), act.clock);
    } else if act.Tick? {
      ResentOk(x, act.now, act.timeout);
      ResentKeepsPending(x, act.now, act.timeout);
      PumpsNothing(Resent(x, act.now, act.timeout), act.clock);
    }
  }

  /** From then on it sends nothing new, accepts no acknowledgement and delivers nothing, in every run. */
  lemma {:induction false} StuckForever(states: seq<Sys>, events: seq<Event>, i: nat, j: nat)
    requires IsRun(states, events) && i <= j < |states| && Stuck(states[i].a)
    ensures var x, x' := states[i].a, states[j].a;
            && Stuck(x') && x'.una == x.una && x'.hist == x.hist
            && x'.base == x.base && x'.delivered == x.delivered
    decreases j - i
  {
    hide Initial, Local, Link, Apply, Enabled, Usable, Stuck;
    if i < j {
      var s, ev := states[i], events[i];
      assert Next(s, ev, states[i + 1]);
      RunInv(states, events, i);
      if ev.atA { StuckStep(s.a, s.b, ev.act); }
      StuckForever(states, events, i + 1, j);
    }
  }

  lemma {:induction false} PumpUsesBuffers(x: End, clock: nat -> nat, i: nat)
    requires Local(x) && Spec.Shape(x.s)
    ensures var y := PumpAll(x, clock, i);
            && |y.s.pool.free| + |y.hist| == |x.s.pool.free| + |x.hist|
            && y.una == x.una && !Spec.CanSend(y.s)
    decreases |x.s.pendingTx| - x.s.txOff
  {
    hide Local, Encode, Spec.NextPacket, Spec.NextChunk;
    if Spec.CanSend(x.s) {
      PumpStepOk(x, clock(i));
      StepTakesBuffer(x, clock(i));
      PumpUsesBuffers(PumpStep(x, clock(i)), clock, i + 1);
    }
  }

  lemma StepTakesBuffer(x: End, tsc: nat)
    requires Local(x) && Spec.Shape(x.s) && Spec.CanSend(x.s)
    ensures var y := PumpStep(x, tsc);
            |y.s.pool.free| == |x.s.pool.free| - 1 && |y.hist| == |x.hist| + 1 && y.una == x.una
            && |y.s.pendingTx| - y.s.txOff < |x.s.pendingTx| - x.s.txOff
  {
    hide Encode, Spec.NextPacket, SlotsOk, StreamOk, OutOk, Sub;
    WindowHasRoom(x);
    NextSlotVacant(x);
  }

  /** A pump takes the last buffer exactly when there are packets, and window, for all that are free. */
  lemma PoolDrainsIff(x: End, clock: nat -> nat)
    requires Local(x) && Spec.Shape(x.s)
    ensures Pumped(x, clock).s.pool.free == [] <==>
              |x.s.pool.free| <= Chunks(x.s) && |x.hist| + |x.s.pool.free| <= x.una + 256
  {
    hide Local, ChunksIn, Encode, Spec.PumpLoop;
    var y := PumpAll(x, clock, 0);
    PumpAllOk(x, clock, 0);
    PumpUsesBuffers(x, clock, 0);
    PumpLoopChunks(x.s, clock, 0);
    LocalWindow(y);
    ChunksLeft(y.s);
    SmallWindow(y);
  }

  lemma SmallWindow(y: End)
    requires WindowOk(y)
    ensures Sub(y.s.nextSeq, y.s.sndUna) == |y.hist| - y.una
  {
    WrapSub(|y.hist|, y.una);
  }

  /**
   One call reaches it. Over a new pool of at most 256 buffers, none in the caller's
   hands, sending at least as many chunks as there are buffers leaves the session stuck.
   */
  lemma OneSendSticks(x: End, y: End, data: seq<byte>, clock: nat -> nat)
    requires Initial(x) && Initial(y) && x.held == {} && Spec.Shape(x.s)
    requires |x.s.pool.free| <= 256 && |x.s.pool.free| <= ChunksIn(|data|)
    ensures var act := Send(data, clock);
            && IsRun([Sys(x, y), Sys(Apply(x, act), y)], [Event(true, act)])
            && Stuck(Apply(x, act))
  {
    hide Local, Link, ChunksIn, Pumped;
    InitialOk(x, y);
    QueuedOk(x, data);
    PumpedOk(Queued(x, data), clock);
    PoolDrainsIff(Queued(x, data), clock);
    var states, events := [Sys(x, y), Sys(Apply(x, Send(data, clock)), y)], [Event(true, Send(data, clock))];
    assert Next(states[0], events[0], states[1]);
  }

  // ------------------------------------------------------------------- the other way

  function Swap(s: Sys): Sys { Sys(s.b, s.a) }

  function Mirrored(states: seq<Sys>): (m: seq<Sys>)
    ensures |m| == |states| && forall i :: 0 <= i < |m| ==> m[i] == Swap(states[i])
  {
    seq(|states|, i requires 0 <= i < |states| => Swap(states[i]))
  }

  function MirroredEvents(events: seq<Event>): (m: seq<Event>)
    ensures |m| == |events| && forall i :: 0 <= i < |m| ==> m[i] == Event(!events[i].atA, events[i].act)
  {
    seq(|events|, i requires 0 <= i < |events| => Event(!events[i].atA, events[i].act))
  }

  /** A run seen from the other end is a run, so every theorem about `a` is one about `b`. */
  lemma MirroredRun(states: seq<Sys>, events: seq<Event>)
    requires IsRun(states, events)
    ensures IsRun(Mirrored(states), MirroredEvents(events))
  {
    hide Initial, Apply, Enabled, Usable;
    var m, e := Mirrored(states), MirroredEvents(events);
    forall i | 0 <= i < |e| ensures Next(m[i], e[i], m[i + 1]) {
      assert Next(states[i], events[i], states[i + 1]);
    }
  }
}
