/**
 Whole runs of a connection: what holds in every state two sessions can reach,
 and how a retransmission round recovers from any losses before it.
 */
module Connection {
  import opened SerialNumbers
  import opened Wire
  import Spec = SessionSpec
  import opened Streams
  import opened Ownership
  import opened Endpoint
  import opened Protocol

  datatype Sys = Sys(a: End, b: End)

  /** Something happens at end `a`, or at end `b`. */
  datatype Event = Event(atA: bool, act: Action)

  /** A new session over any pool, some of whose buffers the caller may hold. */
  ghost predicate Initial(x: End) {
    && |x.s.slots| == WINDOW && (forall k :: 0 <= k < WINDOW ==> x.s.slots[k].Vacant?)
    && x.s.pendingTx == [] && x.s.txOff == 0 && x.s.nextSeq == 0 && x.s.sndUna == 0 && x.s.base == 0
    && |x.s.received| == WINDOW && (forall i :: 0 <= i < WINDOW ==> !x.s.received[i])
    && |x.s.reasm| == WINDOW && !x.s.pendingAck && x.s.bytesSent == 0 && x.s.bytesReceived == 0
    && OwnedOnce(x.s, x.held)
    && x.given == [] && x.hist == [] && x.una == 0 && x.base == 0 && x.delivered == [] && x.out == {}
  }

  ghost predicate Next(s: Sys, ev: Event, t: Sys) {
    if ev.atA
    then Enabled(s.a, s.b, ev.act) && Usable(s.a, ev.act) && t == Sys(Apply(s.a, ev.act), s.b)
    else Enabled(s.b, s.a, ev.act) && Usable(s.b, ev.act) && t == Sys(s.a, Apply(s.b, ev.act))
  }

  ghost predicate IsRun(states: seq<Sys>, events: seq<Event>) {
    && |states| == |events| + 1
    && Initial(states[0].a) && Initial(states[0].b)
    && forall i :: 0 <= i < |events| ==> Next(states[i], events[i], states[i + 1])
  }

  ghost predicate SysInv(s: Sys) {
    Inv(s.a, s.b)
  }

  lemma InitialOk(x: End, y: End)
    requires Initial(x) && Initial(y)
    ensures Local(x) && Link(x, y)
  {
    hide OwnedOnce, Flatten;
    EmptyFlatten();
    assert Payloads([]) == [];
    forall k | 0 <= k < WINDOW ensures SlotOk(x.s, x.una, x.hist, k) {
    }
  }

  lemma StepInv(s: Sys, ev: Event, t: Sys)
    requires SysInv(s) && Next(s, ev, t)
    ensures SysInv(t)
  {
    hide Local, Link, Apply, Enabled, Usable;
    if ev.atA {
      StepKeepsInv(s.a, s.b, ev.act);
    } else {
      StepKeepsInv(s.b, s.a, ev.act);
    }
  }

  lemma {:induction false} RunInv(states: seq<Sys>, events: seq<Event>, i: nat)
    requires IsRun(states, events) && i < |states|
    ensures SysInv(states[i])
  {
    hide Next, Local, Link;
    if i == 0 {
      InitialOk(states[0].a, states[0].b);
      InitialOk(states[0].b, states[0].a);
    } else {
      RunInv(states, events, i - 1);
      StepInv(states[i - 1], events[i - 1], states[i]);
    }
  }

  // --------------------------------------------------------------- what a run may do next

  /** A run goes on with anything that is enabled at either end. */
  lemma RunExtends(states: seq<Sys>, events: seq<Event>, ev: Event)
    requires IsRun(states, events)
    requires var s := states[|events|];
             if ev.atA then Enabled(s.a, s.b, ev.act) else Enabled(s.b, s.a, ev.act)
    ensures var s := states[|events|];
            && Usable(if ev.atA then s.a else s.b, ev.act)
            && var t := if ev.atA then Sys(Apply(s.a, ev.act), s.b) else Sys(s.a, Apply(s.b, ev.act));
               IsRun(states + [t], events + [ev])
  {
    hide Initial, Local, Link, Apply, Enabled, Usable;
    RunInv(states, events, |events|);
    var s := states[|events|];
    if ev.atA { StepKeepsInv(s.a, s.b, ev.act); } else { StepKeepsInv(s.b, s.a, ev.act); }
    var t := if ev.atA then Sys(Apply(s.a, ev.act), s.b) else Sys(s.a, Apply(s.b, ev.act));
    var states', events' := states + [t], events + [ev];
    forall i | 0 <= i < |events'| ensures Next(states'[i], events'[i], states'[i + 1]) {
      if i < |events| {
        assert Next(states[i], events[i], states[i + 1]);
      }
    }
  }

  /**
   The channel holds nothing back: any packet `a` ever transmitted can arrive at `b` now,
   however often it has arrived before, into any buffer the caller holds.
   */
  lemma AnythingCanArrive(states: seq<Sys>, events: seq<Event>, m: Message, buf: nat, clock: nat -> nat)
    requires IsRun(states, events)
    requires var s := states[|events|];
             && m in s.a.out && buf in s.b.held
             && FreshAck(m.ack, s.b.una) && (m.Data? ==> FreshSeq(m.seqNo, s.b.base))
    ensures var s := states[|events|]; var act := Deliver(m, buf, clock);
            && Usable(s.b, act)
            && var t := Sys(s.a, Apply(s.b, act));
               && IsRun(states + [t], events + [Event(false, act)])
               && t.b.una >= m.ack && |t.b.s.received| == WINDOW
               && (m.Data? ==> Arrived(t.b.s, t.b.base, m.seqNo))
  {
    hide Initial, Next, Local, Link, Apply, FreshAck, FreshSeq, Arrived;
    var s := states[|events|];
    RunExtends(states, events, Event(false, Deliver(m, buf, clock)));
    RunInv(states, events, |events|);
    StepAdvances(s.b, s.a, Deliver(m, buf, clock));
  }

  /** So can anything that fails its checksum; it costs nothing but the moment its buffer was away. */
  lemma CorruptionIsDropped(states: seq<Sys>, events: seq<Event>, p: Packet, buf: nat, clock: nat -> nat)
    requires IsRun(states, events) && buf in states[|events|].b.held && !Verifies(View(p))
    ensures var s := states[|events|]; var act := DeliverCorrupt(p, buf, clock);
            && Usable(s.b, act)
            && var t := Sys(s.a, Apply(s.b, act));
               && IsRun(states + [t], events + [Event(false, act)])
               && t.b == s.b.(s := t.b.s, held := s.b.held - {buf})
               && t.b.s == s.b.s.(pool := Spec.Pool(s.b.s.pool.free + [buf], s.b.s.pool.mem[buf := p]))
               && SessionEffect(s.b, act) == Spec.Effect(t.b.s, [], [])
  {
    hide Initial, Next, Local, Link, Verifies;
    RunExtends(states, events, Event(false, DeliverCorrupt(p, buf, clock)));
  }

  // -------------------------------------------------------- the model is the session

  /** A transmitted packet is on record in the channel. */
  ghost predicate OnRecord(p: Packet, out: set<Message>) {
    exists m :: m in out && p == Encode(m)
  }

  lemma PumpedOnRecord(x: End, clock: nat -> nat)
    requires Local(x) && Spec.Shape(x.s)
    ensures forall p :: p in Spec.Pump(x.s, clock).tx ==> OnRecord(p, Pumped(x, clock).out)
  {
    hide Encode, Pumped, Spec.Pump;
    PumpedOk(x, clock);
    var y := Pumped(x, clock);
    var tx := Spec.Pump(x.s, clock).tx;
    forall p | p in tx ensures OnRecord(p, y.out) {
      var j :| 0 <= j < |tx| && tx[j] == p;
      assert MessageAt(y.hist, |x.hist| + j) in y.out;
    }
  }

  lemma OriginalOnRecord(x: End, p: Packet)
    requires Local(x) && IsOriginal(p, x.una, x.hist)
    ensures OnRecord(p, x.out)
  {
    hide Encode;
    var n :| x.una <= n < |x.hist| && p == Encode(MessageAt(x.hist, n));
    assert MessageAt(x.hist, n) in x.out;
  }

  lemma OnRecordGrows(p: Packet, out: set<Message>, out': set<Message>)
    requires OnRecord(p, out) && out <= out'
    ensures OnRecord(p, out')
  {
  }

  /** Resends, fresh packets and the pending acknowledgement of one tick. */
  lemma TickFollowsSpec(x: End, now: nat, timeout: nat, clock: nat -> nat)
    requires Local(x) && Spec.Shape(x.s)
    ensures var e := Spec.Tick(x.s, now, timeout, clock); var x' := Apply(x, Tick(now, timeout, clock));
            && x'.s == e.s && e.up == [] && x'.delivered == x.delivered
            && (forall p :: p in e.tx ==> OnRecord(p, x'.out))
            && (forall n :: x.una <= n < |x.hist| && Spec.IsTimedOut(x.s.slots[n % WINDOW], now, timeout) ==>
                  Encode(MessageAt(x.hist, n)) in e.tx)
  {
    hide Encode, Pumped, Spec.Pump, Local, Spec.IsTimedOut, OnRecord;
    var seqs := Spec.TimedOut(x.s.slots, now, timeout);
    var r := Spec.Resend(x.s, seqs, now);
    var x1 := Resent(x, now, timeout);
    ResentOk(x, now, timeout);
    SenderParts(x);
    ResendOk(x.s, x.held, x.una, x.hist, seqs, now);
    var x2 := Pumped(x1, clock);
    PumpedOk(x1, clock);
    PumpedOnRecord(x1, clock);
    var x3 := AckSent(x2);
    LocalWindow(x2);
    forall p | p in r.tx ensures OnRecord(p, x3.out) {
      OriginalOnRecord(x, p);
      OnRecordGrows(p, x.out, x3.out);
    }
    forall p | p in Spec.Pump(x1.s, clock).tx ensures OnRecord(p, x3.out) {
      OnRecordGrows(p, x2.out, x3.out);
    }
    if x2.s.pendingAck {
      AckOnRecord(x2);
    }
    forall n | x.una <= n < |x.hist| && Spec.IsTimedOut(x.s.slots[n % WINDOW], now, timeout)
      ensures Encode(MessageAt(x.hist, n)) in r.tx
    {
      TimedOutListed(x, now, timeout, n);
    }
  }

  lemma SenderParts(x: End)
    requires Local(x)
    ensures SlotsOk(x.s, x.una, x.hist) && OwnedOnce(x.s, x.held) && WindowOk(x)
  {
  }

  lemma AckOnRecord(x: End)
    requires WindowOk(x) && IdleOk(x)
    ensures OnRecord(AckPacket(x.s.nextSeq, Spec.CumulativeAck(x.s)), x.out + {PureAck(|x.hist|, x.base)})
  {
    hide AckPacket;
    Spec.RunIs(x.s.received, 0);
    WrapAdd(x.base, 0);
    assert AckPacket(x.s.nextSeq, Spec.CumulativeAck(x.s)) == Encode(PureAck(|x.hist|, x.base));
  }

  lemma TimedOutListed(x: End, now: nat, timeout: nat, n: nat)
    requires Local(x) && x.una <= n < |x.hist| && Spec.IsTimedOut(x.s.slots[n % WINDOW], now, timeout)
    ensures Wrap(n) in Spec.TimedOut(x.s.slots, now, timeout) && n < x.una + WINDOW
  {
    hide Spec.IsTimedOut, Encode;
    ResidentUnique(x.una, n);
    assert SlotOk(x.s, x.una, x.hist, n % WINDOW);
    TimedOutHas(x.s.slots, now, timeout, n % WINDOW);
  }

  lemma {:induction false} TimedOutHas(slots: seq<Spec.Slot>, now: nat, timeout: nat, k: nat)
    requires k < |slots| && Spec.IsTimedOut(slots[k], now, timeout)
    ensures slots[k].seqNum in Spec.TimedOut(slots, now, timeout)
  {
    if k < |slots| - 1 {
      TimedOutHas(slots[..|slots| - 1], now, timeout, k);
    }
  }

  lemma DeliverFollowsSpec(x: End, y: End, m: Message, buf: nat, clock: nat -> nat)
    requires Inv(x, y) && Usable(x, Deliver(m, buf, clock)) && Enabled(x, y, Deliver(m, buf, clock))
    ensures var e := SessionEffect(x, Deliver(m, buf, clock)); var x' := Apply(x, Deliver(m, buf, clock));
            && x'.s == e.s && x'.delivered == x.delivered + e.up
            && forall p :: p in e.tx ==> OnRecord(p, x'.out)
  {
    hide Local, Link, Pumped, Spec.Pump, FreshAck, FreshSeq, Verifies, OnRecord, Distance, Spec.OnData;
    EncodingVerifies(m);
    var x0 := Filled(x, buf, Encode(m));
    FilledOk(x, buf, Encode(m));
    EncodingAcks(m);
    assert View(Encode(m)) == Encode(m);
    DeliverAckHalf(x, y, m, buf, clock);
    if Distance(Wrap(m.ack), x.s.sndUna) > 0 {
      UnaBelowBase(x, y);
      InOut(y, m);
      ReadForward(x, m.ack);
      AckedOk(x0, m.ack);
      PumpedOk(Acked(x0, m.ack), clock);
      PumpedOnRecord(Acked(x0, m.ack), clock);
    }
  }

  lemma EncodingAcks(m: Message)
    ensures HasAck(Encode(m).header) && Encode(m).header.ackNum == Wrap(m.ack)
    ensures Encode(m).header.payloadLen == |Encode(m).payload|
  {
  }

  lemma ReadForward(x: End, ack: nat)
    requires Local(x) && ack <= |x.hist| && FreshAck(ack, x.una)
    requires Distance(Wrap(ack), x.s.sndUna) > 0
    ensures ack > x.una
  {
    AckReadRightIff(ack, x.una);
  }

  /**
   The annotated step is the session's own: same new state, same callbacks, and
   every packet it transmits is one the channel records.
   */
  lemma StepFollowsSpec(x: End, y: End, act: Action)
    requires Inv(x, y) && Enabled(x, y, act) && Usable(x, act)
    ensures var e := SessionEffect(x, act); var x' := Apply(x, act);
            && x'.s == e.s && x'.delivered == x.delivered + e.up
            && forall p :: p in e.tx ==> OnRecord(p, x'.out)
  {
    hide Local, Link, OnRecord, Pumped, Encode, Fresh;
    match act
    case Send(data, clock) =>
      QueuedOk(x, data);
      PumpedOk(Queued(x, data), clock);
      PumpedOnRecord(Queued(x, data), clock);
    case Tick(now, timeout, clock) =>
      TickFollowsSpec(x, now, timeout, clock);
    case Deliver(m, buf, clock) =>
      DeliverFollowsSpec(x, y, m, buf, clock);
    case DeliverCorrupt(p, buf, clock) =>
      assert x.delivered + [] == x.delivered;
    case AcquireBuffer =>
    case ReturnBuffer(buf) =>
  }

  // ----------------------------------------------------------------- safety theorems

  /**
   What `y` has handed up is the beginning of what `x` sequenced: every packet
   once, in order; hence the bytes are a prefix of those given to send.
   */
  lemma DeliveredIsPrefix(x: End, y: End)
    requires Inv(x, y)
    ensures y.delivered <= Payloads(x.hist) && |y.delivered| == y.base
    ensures Flatten(y.delivered) <= x.given
  {
    hide SlotsOk, Flatten;
    FlattenPrefix(Payloads(x.hist), y.base);
  }

  /** Reliable, ordered, exactly-once delivery in both directions, over every run. */
  lemma ReliableDelivery(states: seq<Sys>, events: seq<Event>, i: nat)
    requires IsRun(states, events) && i < |states|
    ensures var a, b := states[i].a, states[i].b;
            && b.delivered <= Payloads(a.hist) && Flatten(b.delivered) <= a.given
            && a.delivered <= Payloads(b.hist) && Flatten(a.delivered) <= b.given
  {
    hide IsRun, Local, Link, Flatten;
    RunInv(states, events, i);
    DeliveredIsPrefix(states[i].a, states[i].b);
    DeliveredIsPrefix(states[i].b, states[i].a);
  }

  /** The ideal order una <= base <= next <= una + 256, and what it makes of comparisons. */
  ghost predicate Ordered(x: End, y: End) {
    && x.una <= y.base <= |x.hist| <= x.una + WINDOW
    && x.s.sndUna == Wrap(x.una) && x.s.nextSeq == Wrap(|x.hist|) && y.s.base == Wrap(y.base)
    && Sub(x.s.nextSeq, x.s.sndUna) == |x.hist| - x.una
    && Spec.CumulativeAck(y.s) == y.s.base
    && (forall m :: m in y.out ==> m.ack <= y.base)
    && (forall m :: m in y.out && FreshAck(m.ack, x.una) ==>
          (Distance(Wrap(m.ack), x.s.sndUna) > 0 <==> m.ack > x.una))
  }

  lemma InvOrdered(x: End, y: End)
    requires Inv(x, y)
    ensures Ordered(x, y)
  {
    hide SlotsOk, Flatten, Encode, Distance, FreshAck;
    UnaBelowBase(x, y);
    WrapSub(|x.hist|, x.una);
    Spec.RunIs(y.s.received, 0);
    WrapAdd(y.base, 0);
    forall m | m in y.out && FreshAck(m.ack, x.una)
      ensures Distance(Wrap(m.ack), x.s.sndUna) > 0 <==> m.ack > x.una
    {
      InOut(y, m);
      AckReadRightIff(m.ack, x.una);
    }
  }

  lemma WindowsStayOrdered(states: seq<Sys>, events: seq<Event>, i: nat)
    requires IsRun(states, events) && i < |states|
    ensures Ordered(states[i].a, states[i].b) && Ordered(states[i].b, states[i].a)
  {
    hide IsRun, Local, Link, Ordered;
    RunInv(states, events, i);
    InvOrdered(states[i].a, states[i].b);
    InvOrdered(states[i].b, states[i].a);
  }

  /**
   Segmentation, slots and buffers in every reachable state: chunks of 1 to 1024
   bytes plus the unsent rest are all that was given; the occupied slots are the
   window; each buffer has one owner; each marked number has its payload filed.
   */
  lemma RepresentationHolds(states: seq<Sys>, events: seq<Event>, i: nat)
    requires IsRun(states, events) && i < |states|
    ensures forall x :: x == states[i].a || x == states[i].b ==>
              && StreamOk(x.s, x.given, x.hist)
              && (forall n :: 0 <= n < |x.hist| ==> 1 <= |x.hist[n].payload| <= 1024)
              && SlotsOk(x.s, x.una, x.hist)
              && OwnedOnce(x.s, x.held)
    ensures BitmapOk(states[i].b.s, states[i].b.base, states[i].a.hist)
    ensures BitmapOk(states[i].a.s, states[i].a.base, states[i].b.hist)
  {
    hide IsRun, StreamOk, SlotsOk, OwnedOnce, BitmapOk, Flatten;
    RunInv(states, events, i);
  }

  /**
   Nothing left to send and nothing unacknowledged, by the session's own 32-bit
   fields, means the peer has everything.
   */
  lemma Completion(states: seq<Sys>, events: seq<Event>, i: nat)
    requires IsRun(states, events) && i < |states|
    requires states[i].a.s.txOff == |states[i].a.s.pendingTx|
    requires states[i].a.s.sndUna == states[i].a.s.nextSeq
    ensures Flatten(states[i].b.delivered) == states[i].a.given
    ensures states[i].b.s.bytesReceived == states[i].a.s.bytesSent
  {
    hide IsRun, SlotsOk, OwnedOnce, OutOk, Flatten, BitmapOk;
    RunInv(states, events, i);
    var a, b := states[i].a, states[i].b;
    InvOrdered(a, b);
    assert Payloads(a.hist)[..b.base] == Payloads(a.hist);
  }

  // ------------------------------------------------------------------------ recovery

  /** What no action undoes. */
  ghost predicate Advances(x: End, x': End) {
    && x.hist <= x'.hist && x.out <= x'.out && x.base <= x'.base && x.una <= x'.una
    && |x.s.received| == WINDOW && |x'.s.received| == WINDOW
    && forall n :: Arrived(x.s, x.base, n) ==> Arrived(x'.s, x'.base, n)
  }

  lemma StepAdvances(x: End, y: End, act: Action)
    requires Inv(x, y) && Enabled(x, y, act) && Usable(x, act)
    ensures Advances(x, Apply(x, act))
    ensures !act.Tick? && x.s.pendingAck ==> Apply(x, act).s.pendingAck
    ensures act.Deliver? && act.msg.Data? ==>
              Apply(x, act).s.pendingAck && Arrived(Apply(x, act).s, Apply(x, act).base, act.msg.seqNo)
    ensures act.Deliver? ==> Apply(x, act).una >= act.msg.ack
  {
    hide Local, Link, Pumped, Encode, Fresh, Arrived, AfterAck, AfterData, Resent;
    LocalWindow(x);
    var x' := Apply(x, act);
    match act
    case Send(data, clock) =>
      QueuedOk(x, data);
      PumpedOk(Queued(x, data), clock);
      ArrivedSame(x.s, x'.s, x.base);
    case Tick(now, timeout, clock) =>
      ResentOk(x, now, timeout);
      PumpedOk(Resent(x, now, timeout), clock);
      ArrivedSame(x.s, x'.s, x.base);
    case Deliver(m, buf, clock) =>
      DeliverKeeps(x, y, m, buf, clock);
      LocalWindow(x');
    case DeliverCorrupt(p, buf, clock) => ArrivedSame(x.s, x'.s, x.base);
    case AcquireBuffer => ArrivedSame(x.s, x'.s, x.base);
    case ReturnBuffer(buf) => ArrivedSame(x.s, x'.s, x.base);
  }

  lemma {:induction false} RunAdvances(states: seq<Sys>, events: seq<Event>, i: nat, j: nat)
    requires IsRun(states, events) && i <= j < |states|
    ensures Advances(states[i].a, states[j].a) && Advances(states[i].b, states[j].b)
    decreases j - i
  {
    hide Initial, Local, Link, Apply, Enabled, Usable, Arrived;
    RunInv(states, events, i);
    if i < j {
      var s, t, ev := states[i], states[i + 1], events[i];
      assert Next(s, ev, t);
      if ev.atA { StepAdvances(s.a, s.b, ev.act); } else { StepAdvances(s.b, s.a, ev.act); }
      LocalWindow(s.a);
      LocalWindow(s.b);
      RunAdvances(states, events, i + 1, j);
    } else {
      LocalWindow(states[i].a);
      LocalWindow(states[i].b);
    }
  }

  /** Once set, the receiver's pending acknowledgement waits for its tick. */
  lemma {:induction false} PendingAckWaits(states: seq<Sys>, events: seq<Event>, i: nat, j: nat)
    requires IsRun(states, events) && i <= j < |states| && states[i].b.s.pendingAck
    requires forall t :: i <= t < j && !events[t].atA ==> !events[t].act.Tick?
    ensures states[j].b.s.pendingAck
    decreases j - i
  {
    hide Initial, Local, Link, Apply, Enabled, Usable, Advances;
    if i < j {
      var s, t, ev := states[i], states[i + 1], events[i];
      assert Next(s, ev, t);
      RunInv(states, events, i);
      if !ev.atA { StepAdvances(s.b, s.a, ev.act); }
      PendingAckWaits(states, events, i + 1, j);
    }
  }

  /** Event `t` delivers packet `n` of `a` to `b`. */
  ghost predicate DeliversTo(states: seq<Sys>, events: seq<Event>, t: nat, n: nat)
    requires t < |events| && |states| == |events| + 1
  {
    && !events[t].atA && events[t].act.Deliver? && n < |states[t].a.hist|
    && events[t].act.msg == MessageAt(states[t].a.hist, n)
  }

  /** After the packets [una, next) have all arrived, in any order, the base has passed them. */
  lemma BasePasses(x: End, y: End, lo: nat, hi: nat)
    requires Inv(x, y) && lo <= y.base && forall n :: lo <= n < hi ==> Arrived(y.s, y.base, n)
    ensures y.base >= hi
  {
    hide SlotsOk, Flatten, Encode;
    assert y.base < hi ==> Arrived(y.s, y.base, y.base);
  }

  ghost predicate DeliveredWithin(states: seq<Sys>, events: seq<Event>, lo: nat, hi: nat, n: nat)
    requires hi <= |events| && |states| == |events| + 1
  {
    exists t :: lo < t < hi && DeliversTo(states, events, t, n)
  }

  /** The event puts the packet on the wire. */
  ghost predicate Transmits(s: Sys, ev: Event, m: Message) {
    var x := if ev.atA then s.a else s.b;
    Usable(x, ev.act) && Encode(m) in SessionEffect(x, ev.act).tx
  }

  lemma DeliveryLasts(states: seq<Sys>, events: seq<Event>, t: nat, j: nat, n: nat)
    requires IsRun(states, events) && t < j < |states| && t < |events| && DeliversTo(states, events, t, n)
    ensures |states[j].b.s.received| == WINDOW && Arrived(states[j].b.s, states[j].b.base, n)
    ensures states[t + 1].b.s.pendingAck
  {
    hide Initial, Local, Link, Apply, Enabled, Usable, Arrived;
    var s, ev := states[t], events[t];
    assert Next(s, ev, states[t + 1]);
    RunInv(states, events, t);
    StepAdvances(s.b, s.a, ev.act);
    RunAdvances(states, events, t + 1, j);
  }

  /** A tick with an acknowledgement pending transmits the current base. */
  lemma TickAcknowledges(x: End, now: nat, timeout: nat, clock: nat -> nat)
    requires Local(x) && Spec.Shape(x.s) && x.s.pendingAck
    ensures var x' := Apply(x, Tick(now, timeout, clock));
            && x'.base == x.base && PureAck(|x'.hist|, x.base) in x'.out
            && Encode(PureAck(|x'.hist|, x.base)) in Spec.Tick(x.s, now, timeout, clock).tx
  {
    hide Local, Pumped, Spec.Pump, AckPacket;
    var x1 := Resent(x, now, timeout);
    ResentOk(x, now, timeout);
    PumpedOk(x1, clock);
    var x2 := Pumped(x1, clock);
    LocalWindow(x2);
    Spec.RunIs(x2.s.received, 0);
    WrapAdd(x2.base, 0);
    var a := Spec.AckIfPending(x2.s);
    assert a.tx[0] == Encode(PureAck(|x2.hist|, x.base));
  }

  /** A data packet, new or not, is delivered to `b`. */
  predicate DataArrives(ev: Event) {
    !ev.atA && ev.act.Deliver? && ev.act.msg.Data?
  }

  /** A tick at which, by the clock, the timeout of every unacknowledged packet has elapsed. */
  ghost predicate AllTimedOut(x: End, act: Action) {
    && act.Tick? && |x.s.slots| == WINDOW && act.now < Spec.TWO64 && Spec.Stamps64(x.s.slots)
    && forall k :: 0 <= k < WINDOW && x.s.slots[k].Occupied? ==>
         Spec.Due(x.s.slots[k].sentTsc, act.now, act.timeout)
  }

  /**
   A recovery round. After a sender tick with every timeout elapsed, let the packets it
   transmits up to number `hi`, resent or new, reach the receiver, in any order and among
   any other events; then the receiver ticks, for the first time since some data packet
   arrived at `tl`, and the acknowledgement it sends arrives. Everything below `hi` is
   then acknowledged, whatever was lost before.
   */
  lemma RecoveryRound(states: seq<Sys>, events: seq<Event>, t0: nat, tl: nat, ta: nat, td: nat, hi: nat)
    requires IsRun(states, events) && t0 < ta < td < |events| && tl < ta
    requires events[t0].atA && AllTimedOut(states[t0].a, events[t0].act)
    requires states[t0].a.una < hi <= |states[t0 + 1].a.hist|
    requires forall n :: states[t0].a.una <= n < hi ==> DeliveredWithin(states, events, t0, ta, n)
    requires DataArrives(events[tl])
    requires forall t :: tl < t < ta && !events[t].atA ==> !events[t].act.Tick?
    requires !events[ta].atA && events[ta].act.Tick?
    requires events[td].atA && events[td].act.Deliver?
    requires events[td].act.msg == PureAck(|states[ta + 1].b.hist|, states[ta + 1].b.base)
    ensures var hist := states[t0 + 1].a.hist;
            forall n :: states[t0].a.una <= n < hi ==> Transmits(states[t0], events[t0], MessageAt(hist, n))
    ensures Transmits(states[ta], events[ta], events[td].act.msg)
    ensures states[td + 1].a.una >= hi
  {
    hide Initial, Local, Link, Apply, Arrived, Encode, Spec.Tick, Fresh;
    var lo := states[t0].a.una;
    var x, act := states[t0].a, events[t0].act;
    assert Next(states[t0], events[t0], states[t0 + 1]);
    RunInv(states, events, t0);
    TickTransmitsAll(x, act.now, act.timeout, act.clock);
    RunInv(states, events, ta);
    var y := states[ta].b;
    LocalWindow(y);
    forall n | lo <= n < hi ensures Arrived(y.s, y.base, n) {
      assert DeliveredWithin(states, events, t0, ta, n);
      var t :| t0 < t < ta && DeliversTo(states, events, t, n);
      DeliveryLasts(states, events, t, ta, n);
    }
    UnaBelowBase(x, states[t0].b);
    RunAdvances(states, events, t0, ta);
    BasePasses(states[ta].a, y, lo, hi);
    assert Next(states[tl], events[tl], states[tl + 1]);
    RunInv(states, events, tl);
    StepAdvances(states[tl].b, states[tl].a, events[tl].act);
    PendingAckWaits(states, events, tl + 1, ta);
    assert Next(states[ta], events[ta], states[ta + 1]);
    TickAcknowledges(y, events[ta].act.now, events[ta].act.timeout, events[ta].act.clock);
    assert Next(states[td], events[td], states[td + 1]);
    RunInv(states, events, td);
    StepAdvances(states[td].a, states[td].b, events[td].act);
  }

  /** It also transmits each packet it sequences: all of [una, next) as the tick leaves it. */
  lemma TickTransmitsAll(x: End, now: nat, timeout: nat, clock: nat -> nat)
    requires Local(x) && Spec.Shape(x.s) && AllTimedOut(x, Tick(now, timeout, clock))
    ensures var x' := Apply(x, Tick(now, timeout, clock));
            && x.hist <= x'.hist
            && forall n :: x.una <= n < |x'.hist| ==>
                 Encode(MessageAt(x'.hist, n)) in Spec.Tick(x.s, now, timeout, clock).tx
  {
    hide Encode, Local, Pumped, Spec.Pump, Resent, AllTimedOut;
    var x1 := Resent(x, now, timeout);
    var x' := Apply(x, Tick(now, timeout, clock));
    ResentOk(x, now, timeout);
    PumpedOk(x1, clock);
    TickResendsAll(x, now, timeout, clock);
    var r := Spec.Resend(x.s, Spec.TimedOut(x.s.slots, now, timeout), now);
    var tx := Spec.Pump(x1.s, clock).tx;
    ResentSession(x, now, timeout);
    forall n | x.una <= n < |x'.hist|
      ensures Encode(MessageAt(x'.hist, n)) in Spec.Tick(x.s, now, timeout, clock).tx
    {
      if n < |x.hist| {
        assert MessageAt(x'.hist, n) == MessageAt(x.hist, n);
      } else {
        assert tx[n - |x.hist|] == Encode(MessageAt(x'.hist, n));
      }
    }
  }

  lemma ResentSession(x: End, now: nat, timeout: nat)
    requires Spec.Shape(x.s)
    ensures Resent(x, now, timeout).s == Spec.Resend(x.s, Spec.TimedOut(x.s.slots, now, timeout), now).s
  {
  }

  /** With every timeout elapsed a tick resends the whole window. */
  lemma TickResendsAll(x: End, now: nat, timeout: nat, clock: nat -> nat)
    requires Local(x) && Spec.Shape(x.s) && AllTimedOut(x, Tick(now, timeout, clock))
    ensures forall n :: x.una <= n < |x.hist| ==>
              Encode(MessageAt(x.hist, n)) in Spec.Tick(x.s, now, timeout, clock).tx
  {
    hide Encode, Spec.Tick, Spec.IsTimedOut;
    TickFollowsSpec(x, now, timeout, clock);
    forall n | x.una <= n < |x.hist| ensures Spec.IsTimedOut(x.s.slots[n % WINDOW], now, timeout) {
      ResidentUnique(x.una, n);
      assert SlotOk(x.s, x.una, x.hist, n % WINDOW);
      Spec.TimedOutIffDue(x.s.slots[n % WINDOW], now, timeout);
    }
  }
}
