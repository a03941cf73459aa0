/**
 Two TCP-Lite sessions joined by a channel that loses, duplicates, reorders and
 corrupts packets. A channel is the set of everything its sender ever
 transmitted: any member may be delivered at any time, any number of times, as
 long as its header is not so old that 32-bit comparison misreads it.
 */
module Protocol {
  import opened Words
  import opened SerialNumbers
  import opened Wire
  import Spec = SessionSpec
  import opened Streams
  import opened Ownership
  import opened Endpoint

  // ----------------------------------------------------------------------- actions

  /** What may happen at one end; `clock` supplies the time stamps read on the way. */
  datatype Action =
    | Send(data: seq<byte>, clock: nat -> nat)
    | Tick(now: nat, timeout: nat, clock: nat -> nat)
    | Deliver(msg: Message, buf: nat, clock: nat -> nat)
    | DeliverCorrupt(pkt: Packet, buf: nat, clock: nat -> nat)
    | AcquireBuffer
    | ReturnBuffer(buf: nat)

  /** The header's numbers compare as they should against the receiving end. */
  predicate Fresh(m: Message, x: End) {
    FreshAck(m.ack, x.una) && (m.Data? ==> FreshSeq(m.seqNo, x.base))
  }

  /** Whether `act` may happen at `x`, whose peer is `y`. */
  ghost predicate Enabled(x: End, y: End, act: Action) {
    match act
    case Deliver(m, buf, _) => m in y.out && buf in x.held && Fresh(m, x)
    case DeliverCorrupt(p, buf, _) => buf in x.held && !Verifies(View(p))
    case ReturnBuffer(buf) => buf in x.held
    case _ => true
  }

  ghost predicate Usable(x: End, act: Action) {
    && Spec.Shape(x.s)
    && match act
       case Deliver(_, buf, _) => buf in x.held && buf < |x.s.pool.mem|
       case DeliverCorrupt(_, buf, _) => buf in x.held && buf < |x.s.pool.mem|
       case ReturnBuffer(buf) => buf in x.held && buf < |x.s.pool.mem|
       case _ => true
  }

  /** The caller copies a datagram into its buffer. */
  function Fill(s: Spec.Session, buf: nat, p: Packet): (r: Spec.Session)
    requires Spec.Shape(s) && buf < |s.pool.mem|
    ensures Spec.Shape(r) && |r.pool.mem| == |s.pool.mem|
  {
    s.(pool := s.pool.(mem := s.pool.mem[buf := p]))
  }

  /** What the session itself does, by specification. */
  ghost function SessionEffect(x: End, act: Action): (e: Spec.Effect)
    requires Usable(x, act)
  {
    match act
    case Send(data, clock) => Spec.Send(x.s, data, clock)
    case Tick(now, timeout, clock) => Spec.Tick(x.s, now, timeout, clock)
    case Deliver(m, buf, clock) => Spec.Receive(Fill(x.s, buf, Encode(m)), buf, clock)
    case DeliverCorrupt(p, buf, clock) => Spec.Receive(Fill(x.s, buf, p), buf, clock)
    case AcquireBuffer =>
      var free := x.s.pool.free;
      Spec.Effect(if free == [] then x.s else x.s.(pool := x.s.pool.(free := free[..|free| - 1])), [], [])
    case ReturnBuffer(buf) => Spec.Effect(x.s.(pool := Spec.ReleaseTo(x.s.pool, buf)), [], [])
  }

  // --------------------------------------------------------- steps with bookkeeping

  ghost function Queued(x: End, data: seq<byte>): End {
    x.(s := x.s.(pendingTx := x.s.pendingTx + data), given := x.given + data)
  }

  ghost function Filled(x: End, buf: nat, p: Packet): End
    requires Spec.Shape(x.s) && buf < |x.s.pool.mem|
  {
    x.(s := Fill(x.s, buf, p))
  }

  ghost function AfterAck(x: End, ack: nat, clock: nat -> nat): (y: End)
    requires Spec.Shape(x.s)
    ensures Spec.Shape(y.s)
  {
    if Distance(Wrap(ack), x.s.sndUna) > 0 then Pumped(Acked(x, ack), clock) else x
  }

  ghost function AfterData(x: End, p: Packet): (y: End)
    requires Spec.Shape(x.s)
    ensures Spec.Shape(y.s)
  {
    var e := Spec.OnData(x.s, p);
    x.(s := e.s, base := x.base + |e.up|, delivered := x.delivered + e.up)
  }

  ghost function Released(x: End, buf: nat): End {
    x.(s := x.s.(pool := Spec.ReleaseTo(x.s.pool, buf)), held := x.held - {buf})
  }

  ghost function Resent(x: End, now: nat, timeout: nat): (y: End)
    requires Spec.Shape(x.s)
    ensures Spec.Shape(y.s)
  {
    x.(s := Spec.Resend(x.s, Spec.TimedOut(x.s.slots, now, timeout), now).s)
  }

  ghost function AckSent(x: End): End {
    if x.s.pendingAck
    then x.(s := x.s.(pendingAck := false), out := x.out + {PureAck(|x.hist|, x.base)})
    else x
  }

  ghost function Apply(x: End, act: Action): End
    requires Usable(x, act)
  {
    match act
    case Send(data, clock) => Pumped(Queued(x, data), clock)
    case Tick(now, timeout, clock) => AckSent(Pumped(Resent(x, now, timeout), clock))
    case Deliver(m, buf, clock) =>
      Released(AfterData(AfterAck(Filled(x, buf, Encode(m)), m.ack, clock), Encode(m)), buf)
    case DeliverCorrupt(p, buf, _) => Released(Filled(x, buf, p), buf)
    case AcquireBuffer =>
      var free := x.s.pool.free;
      if free == [] then x
      else x.(s := x.s.(pool := x.s.pool.(free := free[..|free| - 1])),
              held := x.held + {free[|free| - 1]})
    case ReturnBuffer(buf) => Released(x, buf)
  }

  // -------------------------------------------------------------------- invariants

  /** The receiving half of `y` against the history of the sender it listens to. */
  ghost predicate ReceiverOk(y: End, hist: seq<Sent>) {
    && BitmapOk(y.s, y.base, hist)
    && y.delivered == Payloads(hist)[..y.base]
    && y.s.bytesReceived == |Flatten(y.delivered)|
  }

  /** `x` sends, `y` receives: una <= base <= next. */
  ghost predicate Link(x: End, y: End) {
    x.una <= y.base && ReceiverOk(y, x.hist)
  }

  ghost predicate Inv(x: End, y: End) {
    Local(x) && Local(y) && Link(x, y) && Link(y, x)
  }

  lemma PayloadsPrefix(hist: seq<Sent>, hist': seq<Sent>, n: nat)
    requires hist <= hist' && n <= |hist|
    ensures Payloads(hist')[..n] == Payloads(hist)[..n]
  {
  }

  lemma ReceiverGrows(y: End, hist: seq<Sent>, hist': seq<Sent>)
    requires ReceiverOk(y, hist) && hist <= hist'
    ensures ReceiverOk(y, hist')
  {
    hide Flatten;
    PayloadsPrefix(hist, hist', y.base);
  }

  lemma ReceiverSame(x: End, x': End, hist: seq<Sent>)
    requires ReceiverOk(x, hist)
    requires x'.base == x.base && x'.delivered == x.delivered && x'.s.base == x.s.base
    requires x'.s.received == x.s.received && x'.s.reasm == x.s.reasm
    requires x'.s.bytesReceived == x.s.bytesReceived
    ensures ReceiverOk(x', hist)
  {
    hide Flatten;
  }

  /** A step that touches only the sending half keeps both links. */
  lemma SendingKeepsLinks(x: End, x': End, y: End)
    requires Link(x, y) && Link(y, x) && x'.una <= y.base && x.hist <= x'.hist
    requires x'.base == x.base && x'.delivered == x.delivered && x'.s.base == x.s.base
    requires x'.s.received == x.s.received && x'.s.reasm == x.s.reasm
    requires x'.s.bytesReceived == x.s.bytesReceived
    ensures Link(x', y) && Link(y, x')
  {
    hide ReceiverOk;
    ReceiverGrows(y, x.hist, x'.hist);
    ReceiverSame(x, x', y.hist);
  }

  // -------------------------------------------------------------------- one action

  lemma QueuedOk(x: End, data: seq<byte>)
    requires Local(x) && Spec.Shape(x.s)
    ensures Local(Queued(x, data)) && Spec.Shape(Queued(x, data).s)
  {
    hide SlotsOk, OwnedOnce, Flatten;
    var y := Queued(x, data);
    OwnedSame(x.s, y.s, x.held);
    SlotsSame(x.s, y.s, x.una, x.hist);
    assert y.s.pendingTx[y.s.txOff..] == x.s.pendingTx[x.s.txOff..] + data;
    assert StreamOk(y.s, y.given, y.hist);
  }

  lemma SendOk(x: End, y: End, data: seq<byte>, clock: nat -> nat)
    requires Inv(x, y) && Spec.Shape(x.s)
    ensures Inv(Apply(x, Send(data, clock)), y)
  {
    hide Local, Link, Pumped;
    QueuedOk(x, data);
    PumpedOk(Queued(x, data), clock);
    UnaBelowBase(x, y);
    SendingKeepsLinks(x, Pumped(Queued(x, data), clock), y);
  }

  lemma UnaBelowBase(x: End, y: End)
    requires Link(x, y)
    ensures x.una <= y.base <= |x.hist|
  {
  }

  lemma {:induction false} ResendOk(s: Spec.Session, held: set<nat>, una: nat, hist: seq<Sent>,
                                    seqs: seq<uint32>, now: nat)
    requires Spec.Shape(s) && SlotsOk(s, una, hist) && OwnedOnce(s, held)
    ensures var e := Spec.Resend(s, seqs, now);
            && SlotsOk(e.s, una, hist) && OwnedOnce(e.s, held)
            && e.s == s.(slots := e.s.slots, retransmits := s.retransmits + |e.tx|)
            && (forall p :: p in e.tx ==> IsOriginal(p, una, hist))
            && (forall n :: una <= n < |hist| && n < una + WINDOW && Wrap(n) in seqs ==>
                  Encode(MessageAt(hist, n)) in e.tx)
    decreases |seqs|
  {
    hide Encode, OwnedOnce, Wrap, SlotOf, Resident;
    if seqs != [] {
      var q := seqs[0];
      if !Spec.Holds(s.slots, q) {
        ResendOk(s, held, una, hist, seqs[1..], now);
        forall n | una <= n < |hist| && n < una + WINDOW ensures Wrap(n) != q {
          HoldsResident(s, una, hist, n);
        }
      } else {
        var s' := Spec.Touch(s, q, now);
        TouchOk(s, held, una, hist, q, now);
        HoldsOriginal(s, una, hist, q);
        ResendOk(s', held, una, hist, seqs[1..], now);
        forall n | una <= n < |hist| && n < una + WINDOW && Wrap(n) == q
          ensures s.pool.mem[s.slots[SlotOf(q)].buf] == Encode(MessageAt(hist, n))
        {
          HoldsResident(s, una, hist, n);
        }
      }
    }
  }

  /** A retransmission is the original packet of an unacknowledged number. */
  ghost predicate IsOriginal(p: Packet, una: nat, hist: seq<Sent>) {
    exists n :: una <= n < |hist| && p == Encode(MessageAt(hist, n))
  }

  lemma HoldsResident(s: Spec.Session, una: nat, hist: seq<Sent>, n: nat)
    requires SlotsOk(s, una, hist) && una <= n < |hist| && n < una + WINDOW
    ensures Spec.Holds(s.slots, Wrap(n))
    ensures s.slots[SlotOf(Wrap(n))].buf < |s.pool.mem|
    ensures s.pool.mem[s.slots[SlotOf(Wrap(n))].buf] == Encode(MessageAt(hist, n))
  {
    hide Encode;
    SlotOfWrap(n);
    ResidentUnique(una, n);
    assert SlotOk(s, una, hist, n % WINDOW);
  }

  /** `buffer_for` finds a number if and only if it is the 32-bit image of an unacknowledged one. */
  lemma HoldsIffUnacked(s: Spec.Session, una: nat, hist: seq<Sent>, q: uint32)
    requires SlotsOk(s, una, hist) && |hist| <= una + WINDOW
    ensures Spec.Holds(s.slots, q) <==> exists n :: una <= n < |hist| && Wrap(n) == q
  {
    hide Encode, Wrap, Resident;
    if Spec.Holds(s.slots, q) {
      assert SlotOk(s, una, hist, SlotOf(q));
      assert Wrap(Resident(una, SlotOf(q))) == q;
    }
    forall n | una <= n < |hist| && Wrap(n) == q ensures Spec.Holds(s.slots, q) {
      HoldsResident(s, una, hist, n);
    }
  }

  lemma HoldsOriginal(s: Spec.Session, una: nat, hist: seq<Sent>, q: uint32)
    requires SlotsOk(s, una, hist) && Spec.Holds(s.slots, q)
    ensures s.slots[SlotOf(q)].buf < |s.pool.mem|
    ensures IsOriginal(s.pool.mem[s.slots[SlotOf(q)].buf], una, hist)
  {
    hide Encode;
    var k := SlotOf(q);
    assert SlotOk(s, una, hist, k);
    var n := Resident(una, k);
    assert s.pool.mem[s.slots[k].buf] == Encode(MessageAt(hist, n));
  }

  lemma TouchOk(s: Spec.Session, held: set<nat>, una: nat, hist: seq<Sent>, q: uint32, now: nat)
    requires Spec.Shape(s) && SlotsOk(s, una, hist) && OwnedOnce(s, held) && Spec.Holds(s.slots, q)
    ensures var r := Spec.Touch(s, q, now); SlotsOk(r, una, hist) && OwnedOnce(r, held)
  {
    hide *;
    TouchSlots(s, una, hist, q, now);
    TouchOwners(s, held, q, now);
  }

  lemma TouchSlots(s: Spec.Session, una: nat, hist: seq<Sent>, q: uint32, now: nat)
    requires Spec.Shape(s) && SlotsOk(s, una, hist) && Spec.Holds(s.slots, q)
    ensures SlotsOk(Spec.Touch(s, q, now), una, hist)
  {
    hide Encode, Resident, SlotOf;
    var r := Spec.Touch(s, q, now);
    forall k | 0 <= k < WINDOW ensures SlotOk(r, una, hist, k) {
      assert SlotOk(s, una, hist, k);
    }
  }

  lemma TouchOwners(s: Spec.Session, held: set<nat>, q: uint32, now: nat)
    requires Spec.Shape(s) && OwnedOnce(s, held) && Spec.Holds(s.slots, q)
    ensures OwnedOnce(Spec.Touch(s, q, now), held)
  {
    hide Spec.OccupiedBufs, SlotOf;
    RestampSlot(s.slots, SlotOf(q), now);
    assert Owners(Spec.Touch(s, q, now), held) == Owners(s, held);
  }

  lemma ResentOk(x: End, now: nat, timeout: nat)
    requires Local(x) && Spec.Shape(x.s)
    ensures Local(Resent(x, now, timeout)) && PumpFrame(x, Resent(x, now, timeout))
    ensures Resent(x, now, timeout).hist == x.hist && Resent(x, now, timeout).out == x.out
  {
    hide SlotsOk, OwnedOnce, Flatten;
    ResendOk(x.s, x.held, x.una, x.hist, Spec.TimedOut(x.s.slots, now, timeout), now);
  }

  lemma AckSentOk(x: End)
    requires Local(x)
    ensures Local(AckSent(x))
  {
    hide SlotsOk, OwnedOnce, Flatten;
    var y := AckSent(x);
    OwnedSame(x.s, y.s, x.held);
    SlotsSame(x.s, y.s, x.una, x.hist);
  }

  lemma TickOk(x: End, y: End, now: nat, timeout: nat, clock: nat -> nat)
    requires Inv(x, y) && Spec.Shape(x.s)
    ensures Inv(Apply(x, Tick(now, timeout, clock)), y)
  {
    hide Local, Link, Pumped, Resent;
    var x1 := Resent(x, now, timeout);
    ResentOk(x, now, timeout);
    PumpedOk(x1, clock);
    AckSentOk(Pumped(x1, clock));
    UnaBelowBase(x, y);
    SendingKeepsLinks(x, AckSent(Pumped(x1, clock)), y);
  }

  lemma FilledOk(x: End, buf: nat, p: Packet)
    requires Local(x) && Spec.Shape(x.s) && buf in x.held && buf < |x.s.pool.mem|
    ensures Local(Filled(x, buf, p))
  {
    hide Flatten, OwnedOnce, Encode;
    var y := Filled(x, buf, p);
    HeldIsElsewhere(x.s, x.held, buf);
    OwnedSame(x.s, y.s, x.held);
    forall k | 0 <= k < WINDOW ensures SlotOk(y.s, y.una, y.hist, k) {
      assert SlotOk(x.s, x.una, x.hist, k);
    }
  }

  lemma ReleasedOk(x: End, buf: nat)
    requires Local(x) && buf in x.held
    ensures Local(Released(x, buf))
  {
    hide Flatten, Owners, Encode;
    var y := Released(x, buf);
    ReleaseReturnsClaim(x.s, x.held, buf);
    forall k | 0 <= k < WINDOW ensures SlotOk(y.s, y.una, y.hist, k) {
      assert SlotOk(x.s, x.una, x.hist, k);
    }
  }

  /** An honest peer's acknowledgement is read right and never passes `next`. */
  lemma AfterAckOk(x: End, y: End, ack: nat, clock: nat -> nat)
    requires Inv(x, y) && Spec.Shape(x.s) && ack <= y.base && FreshAck(ack, x.una)
    ensures var x' := AfterAck(x, ack, clock);
            && Inv(x', y) && x'.una == (if ack > x.una then ack else x.una)
            && PumpFrame(x.(una := x'.una, s := x.s.(sndUna := x'.s.sndUna)), x')
  {
    hide Local, Link, Pumped, FreshAck, Distance;
    UnaBelowBase(x, y);
    assert WindowOk(x) by { LocalWindow(x); }
    AckReadRightIff(ack, x.una);
    if ack > x.una {
      AckedOk(x, ack);
      PumpedOk(Acked(x, ack), clock);
      SendingKeepsLinks(x, AfterAck(x, ack, clock), y);
    }
  }

  lemma LocalWindow(x: End)
    requires Local(x)
    ensures WindowOk(x) && IdleOk(x)
  {
  }

  /** Accepting packet `n` of the peer's history, new or not: the session's part. */
  lemma OnDataOk(s: Spec.Session, base: nat, hist: seq<Sent>, n: nat)
    requires Spec.Shape(s) && BitmapOk(s, base, hist) && |hist| <= base + WINDOW
    requires n < |hist| && |hist[n].payload| > 0 && FreshSeq(n, base)
    ensures var e := Spec.OnData(s, Encode(MessageAt(hist, n))); var base' := base + |e.up|;
            && BitmapOk(e.s, base', hist) && !e.s.received[0]
            && e.up == Payloads(hist)[base..base']
            && e.s == s.(received := e.s.received, reasm := e.s.reasm, base := e.s.base,
                         pendingAck := true, bytesReceived := s.bytesReceived + |Flatten(e.up)|)
            && Arrived(e.s, base', n)
            && forall i :: Arrived(s, base, i) ==> Arrived(e.s, base', i)
  {
    hide BitmapOk, FreshSeq, Flatten, Arrived, Spec.Store;
    var p := Encode(MessageAt(hist, n));
    var r := Spec.Store(s, p);
    StoreOk(s, base, hist, n);
    DeliverOk(r, base, hist);
    var e := Spec.OnData(s, p);
    BitmapSame(Spec.Deliver(r).s, e.s, base + |e.up|, hist);
    ArrivedSame(Spec.Deliver(r).s, e.s, base + |e.up|);
  }

  lemma AfterDataOk(x: End, y: End, n: nat)
    requires Inv(x, y) && Spec.Shape(x.s) && n < |y.hist| && FreshSeq(n, x.base)
    ensures var x' := AfterData(x, Encode(MessageAt(y.hist, n)));
            && Inv(x', y) && x'.s.pendingAck && x.base <= x'.base
            && x'.hist == x.hist && x'.out == x.out && x'.held == x.held && x'.una == x.una
            && Arrived(x'.s, x'.base, n)
            && forall i :: Arrived(x.s, x.base, i) ==> Arrived(x'.s, x'.base, i)
  {
    hide Encode, SlotsOk, OwnedOnce, OutOk, FreshSeq, Flatten, Arrived, BitmapOk, Spec.OnData;
    var x' := AfterData(x, Encode(MessageAt(y.hist, n)));
    UnaBelowBase(y, x);
    OnDataOk(x.s, x.base, y.hist, n);
    BitmapRange(x'.s, x'.base, y.hist);
    IdleAfter(x'.s, x'.base, y.hist);
    FlattenConcat(x.delivered, Payloads(y.hist)[x.base..x'.base]);
    assert x'.delivered == Payloads(y.hist)[..x'.base];
    OwnedSame(x.s, x'.s, x.held);
    SlotsSame(x.s, x'.s, x.una, x.hist);
    OutRises(x.out, x.hist, x.base, x'.base);
  }

  lemma BitmapSame(s: Spec.Session, t: Spec.Session, base: nat, hist: seq<Sent>)
    requires BitmapOk(s, base, hist)
    requires t.received == s.received && t.reasm == s.reasm && t.base == s.base
    ensures BitmapOk(t, base, hist)
  {
  }

  lemma ArrivedSame(s: Spec.Session, t: Spec.Session, base: nat)
    requires |s.received| == WINDOW && t.received == s.received
    ensures forall i :: Arrived(s, base, i) ==> Arrived(t, base, i)
  {
  }

  lemma IdleAfter(s: Spec.Session, base: nat, hist: seq<Sent>)
    requires BitmapOk(s, base, hist)
    ensures |s.received| == WINDOW && |s.reasm| == WINDOW && s.base == Wrap(base)
  {
  }

  lemma OutRises(out: set<Message>, hist: seq<Sent>, base: nat, base': nat)
    requires OutOk(out, hist, base) && HistOk(hist, base) && base <= base'
    ensures OutOk(out, hist, base') && HistOk(hist, base')
  {
  }

  lemma InOut(y: End, m: Message)
    requires Local(y) && m in y.out
    ensures m.ack <= y.base
    ensures m.Data? ==> m.seqNo < |y.hist| && m == MessageAt(y.hist, m.seqNo)
  {
  }

  lemma PureAckCarriesNothing(x: End, n: nat, a: nat)
    requires Spec.Shape(x.s)
    ensures AfterData(x, Encode(PureAck(n, a))) == x
  {
    assert x.delivered + [] == x.delivered;
  }

  lemma ReleasedKeeps(x: End, y: End, buf: nat)
    requires Inv(x, y) && buf in x.held
    ensures Inv(Released(x, buf), y)
    ensures forall i :: |x.s.received| == WINDOW && Arrived(x.s, x.base, i) ==>
              Arrived(Released(x, buf).s, x.base, i)
  {
    hide Local, ReceiverOk;
    ReleasedOk(x, buf);
    SendingKeepsLinks(x, Released(x, buf), y);
  }

  /** The acknowledgement half of a delivery. */
  lemma DeliverAckHalf(x: End, y: End, m: Message, buf: nat, clock: nat -> nat)
    requires Inv(x, y) && Usable(x, Deliver(m, buf, clock)) && Enabled(x, y, Deliver(m, buf, clock))
    ensures var x1 := AfterAck(Filled(x, buf, Encode(m)), m.ack, clock);
            && Inv(x1, y) && x1.una == (if m.ack > x.una then m.ack else x.una)
            && x1.held == x.held && x1.base == x.base && x1.s.received == x.s.received
            && x1.s.pendingAck == x.s.pendingAck && x.hist <= x1.hist && x.out <= x1.out
  {
    hide Local, Link, Encode, FreshAck, FreshSeq, AfterAck;
    var x0 := Filled(x, buf, Encode(m));
    FilledOk(x, buf, Encode(m));
    UnaBelowBase(x, y);
    SendingKeepsLinks(x, x0, y);
    InOut(y, m);
    AfterAckOk(x0, y, m.ack, clock);
  }

  /** Every delivery, new or old, in order or not, keeps the invariant. */
  lemma DeliverKeeps(x: End, y: End, m: Message, buf: nat, clock: nat -> nat)
    requires Inv(x, y) && Usable(x, Deliver(m, buf, clock)) && Enabled(x, y, Deliver(m, buf, clock))
    ensures var x' := Apply(x, Deliver(m, buf, clock));
            && Inv(x', y) && x.out <= x'.out && x.hist <= x'.hist
            && x'.una == (if m.ack > x.una then m.ack else x.una) && x.base <= x'.base
            && x'.s.pendingAck == (x.s.pendingAck || m.Data?)
            && (m.Data? ==> Arrived(x'.s, x'.base, m.seqNo))
            && forall i :: Arrived(x.s, x.base, i) ==> Arrived(x'.s, x'.base, i)
  {
    hide Local, Link, Encode, FreshAck, FreshSeq, AfterAck, AfterData, Arrived;
    var x1 := AfterAck(Filled(x, buf, Encode(m)), m.ack, clock);
    DeliverAckHalf(x, y, m, buf, clock);
    LocalWindow(x);
    LocalWindow(x1);
    ArrivedSame(x.s, x1.s, x.base);
    if m.Data? {
      InOut(y, m);
      AfterDataOk(x1, y, m.seqNo);
    } else {
      PureAckCarriesNothing(x1, m.seqNo, m.ack);
    }
    var x2 := AfterData(x1, Encode(m));
    LocalWindow(x2);
    ReleasedKeeps(x2, y, buf);
  }

  lemma AcquireKeeps(x: End, y: End)
    requires Inv(x, y) && Spec.Shape(x.s)
    ensures Inv(Apply(x, AcquireBuffer), y)
  {
    hide Flatten, Owners, Encode, ReceiverOk;
    if x.s.pool.free != [] {
      var x' := Apply(x, AcquireBuffer);
      AcquireMovesClaim(x.s, x.held);
      forall k | 0 <= k < WINDOW ensures SlotOk(x'.s, x'.una, x'.hist, k) {
        assert SlotOk(x.s, x.una, x.hist, k);
      }
      SendingKeepsLinks(x, x', y);
    }
  }

  lemma AcquireMovesClaim(s: Spec.Session, held: set<nat>)
    requires OwnedOnce(s, held) && s.pool.free != []
    ensures var n := |s.pool.free| - 1;
            Owners(s.(pool := s.pool.(free := s.pool.free[..n])), held + {s.pool.free[n]})
            == Owners(s, held)
  {
    var n := |s.pool.free| - 1;
    var buf := s.pool.free[n];
    assert s.pool.free == s.pool.free[..n] + [buf];
    assert buf in multiset(s.pool.free);
    assert buf in held ==> Owners(s, held)[buf] >= 2;
    assert multiset(held + {buf}) == multiset(held) + multiset{buf};
  }

  /** Whatever happens at one end, the pair keeps its invariant. */
  lemma StepKeepsInv(x: End, y: End, act: Action)
    requires Inv(x, y) && Enabled(x, y, act)
    ensures Usable(x, act) && Inv(Apply(x, act), y)
  {
    hide Local, Link, Fresh, Verifies, Apply, AfterAck, AfterData, Pumped, Resent;
    LocalShape(x);
    match act
    case Send(data, clock) => SendOk(x, y, data, clock);
    case Tick(now, timeout, clock) => TickOk(x, y, now, timeout, clock);
    case Deliver(m, buf, clock) => DeliverKeeps(x, y, m, buf, clock);
    case DeliverCorrupt(p, buf, clock) => CorruptKeeps(x, y, p, buf, clock);
    case AcquireBuffer => AcquireKeeps(x, y);
    case ReturnBuffer(buf) => ReturnKeeps(x, y, buf);
  }

  lemma CorruptKeeps(x: End, y: End, p: Packet, buf: nat, clock: nat -> nat)
    requires Inv(x, y) && Usable(x, DeliverCorrupt(p, buf, clock))
    ensures Inv(Apply(x, DeliverCorrupt(p, buf, clock)), y)
  {
    hide Local, Link, Verifies, Encode;
    FilledOk(x, buf, p);
    UnaBelowBase(x, y);
    SendingKeepsLinks(x, Filled(x, buf, p), y);
    ReleasedKeeps(Filled(x, buf, p), y, buf);
  }

  lemma ReturnKeeps(x: End, y: End, buf: nat)
    requires Inv(x, y) && Usable(x, ReturnBuffer(buf))
    ensures Inv(Apply(x, ReturnBuffer(buf)), y)
  {
    hide Local, Link;
    ReleasedKeeps(x, y, buf);
  }
}
