/**
 One end of a connection: a session together with the ideal numbers and the
 histories the proofs speak about, and the invariants each operation keeps.
 */
module Endpoint {
  import opened Words
  import opened SerialNumbers
  import opened Wire
  import opened SessionSpec
  import opened Streams
  import opened Ownership

  type Chunk = c: seq<byte> | |c| <= MAX_PAYLOAD

  /** A transmitted packet with its ideal, unwrapped numbers. */
  datatype Message =
    | Data(seqNo: nat, ack: nat, payload: Chunk)
    | PureAck(seqNo: nat, ack: nat)

  /** The bits that travel. */
  function Encode(m: Message): Packet {
    match m
    case Data(n, a, c) => DataPacket(Wrap(n), Wrap(a), c)
    case PureAck(n, a) => AckPacket(Wrap(n), Wrap(a))
  }

  lemma EncodingVerifies(m: Message)
    ensures Verifies(Encode(m))
  {
    hide Verifies, DataPacket, AckPacket;
    match m
    case Data(n, a, c) => SentPacketsVerify(Wrap(n), Wrap(a), c);
    case PureAck(n, a) => SentPacketsVerify(Wrap(n), Wrap(a), []);
  }

  /** What was put under a sequence number, and the acknowledgement written with it. */
  datatype Sent = Sent(payload: Chunk, ack: nat)

  datatype End = End(
    s: Session,
    held: set<nat>,              // buffers in the caller's hands
    given: seq<byte>,            // all bytes ever passed to send
    hist: seq<Sent>,             // packets sequenced so far; the index is the ideal number
    una: nat,                    // ideal snd_una
    base: nat,                   // ideal receive base
    delivered: seq<seq<byte>>,   // chunks handed to the data callback
    out: set<Message>)           // everything ever transmitted

  function MessageAt(hist: seq<Sent>, n: nat): Message
    requires n < |hist|
  {
    Data(n, hist[n].ack, hist[n].payload)
  }

  function Payloads(hist: seq<Sent>): (c: seq<Chunk>)
    ensures |c| == |hist| && forall i :: 0 <= i < |hist| ==> c[i] == hist[i].payload
  {
    seq(|hist|, i requires 0 <= i < |hist| => hist[i].payload)
  }

  // ---------------------------------------------------------------------- invariants

  /** Slot `k` holds the original packet of its resident number, or nothing. */
  ghost predicate SlotOk(s: Session, una: nat, hist: seq<Sent>, k: nat)
    requires k < |s.slots| && k < WINDOW
  {
    var n := Resident(una, k);
    if n < |hist| then
      && s.slots[k].Occupied?
      && s.slots[k].seqNum == Wrap(n)
      && s.slots[k].buf < |s.pool.mem|
      && s.pool.mem[s.slots[k].buf] == Encode(MessageAt(hist, n))
    else s.slots[k].Vacant?
  }

  /** The occupied slots are exactly the numbers [una, next). */
  ghost predicate SlotsOk(s: Session, una: nat, hist: seq<Sent>) {
    |s.slots| == WINDOW && forall k :: 0 <= k < WINDOW ==> SlotOk(s, una, hist, k)
  }

  ghost predicate WindowOk(x: End) {
    && x.una <= |x.hist| <= x.una + WINDOW
    && x.s.nextSeq == Wrap(|x.hist|)
    && x.s.sndUna == Wrap(x.una)
  }

  /** Sequenced chunks followed by the unsent rest are everything given to send. */
  ghost predicate StreamOk(s: Session, given: seq<byte>, hist: seq<Sent>) {
    && s.txOff <= |s.pendingTx|
    && given == Flatten(Payloads(hist)) + s.pendingTx[s.txOff..]
    && s.bytesSent == |Flatten(Payloads(hist))|
  }

  ghost predicate HistOk(hist: seq<Sent>, base: nat) {
    forall i :: 0 <= i < |hist| ==> 1 <= |hist[i].payload| && hist[i].ack <= base
  }

  ghost predicate OutOk(out: set<Message>, hist: seq<Sent>, base: nat) {
    && (forall m :: m in out ==>
          m.ack <= base && (m.Data? ==> m.seqNo < |hist| && m == MessageAt(hist, m.seqNo)))
    && (forall n :: 0 <= n < |hist| ==> MessageAt(hist, n) in out)
  }

  ghost predicate SenderOk(x: End) {
    && WindowOk(x)
    && SlotsOk(x.s, x.una, x.hist)
    && StreamOk(x.s, x.given, x.hist)
    && HistOk(x.hist, x.base)
    && OutOk(x.out, x.hist, x.base)
    && OwnedOnce(x.s, x.held)
  }

  /** Between calls the base is not yet received, so the cumulative ACK is the base. */
  ghost predicate IdleOk(x: End) {
    && |x.s.received| == WINDOW && |x.s.reasm| == WINDOW
    && x.s.base == Wrap(x.base)
    && !x.s.received[0]
  }

  ghost predicate Local(x: End) {
    SenderOk(x) && IdleOk(x)
  }

  lemma LocalShape(x: End)
    requires Local(x)
    ensures Shape(x.s) && forall b :: b in x.held ==> b < |x.s.pool.mem|
  {
    OwnedIsInRange(x.s, x.held);
  }

  // -------------------------------------------------------------------------- pumping

  /** One pumped packet, with its bookkeeping. */
  ghost function PumpStep(x: End, tsc: nat): End
    requires Shape(x.s) && CanSend(x.s)
  {
    x.(s := SendOne(x.s, tsc),
       hist := x.hist + [Sent(NextChunk(x.s), x.base)],
       out := x.out + {Data(|x.hist|, x.base, NextChunk(x.s))})
  }

  lemma WindowHasRoom(x: End)
    requires WindowOk(x) && Sub(x.s.nextSeq, x.s.sndUna) < WINDOW
    ensures |x.hist| < x.una + WINDOW
  {
    WrapSub(|x.hist|, x.una);
  }

  /** The slot the next packet goes to is free: the overwrite branch is dead. */
  lemma NextSlotVacant(x: End)
    requires WindowOk(x) && SlotsOk(x.s, x.una, x.hist) && |x.hist| < x.una + WINDOW
    ensures x.s.slots[SlotOf(x.s.nextSeq)].Vacant?
    ensures SlotOf(x.s.nextSeq) == |x.hist| % WINDOW
  {
    SlotOfWrap(|x.hist|);
    ResidentUnique(x.una, |x.hist|);
    assert SlotOk(x.s, x.una, x.hist, |x.hist| % WINDOW);
  }

  lemma NextPacketIsEncoding(x: End)
    requires WindowOk(x) && IdleOk(x) && x.s.txOff <= |x.s.pendingTx|
    ensures CumulativeAck(x.s) == Wrap(x.base)
    ensures NextPacket(x.s) == Encode(Data(|x.hist|, x.base, NextChunk(x.s)))
  {
    hide DataPacket;
    RunIs(x.s.received, 0);
    WrapAdd(x.base, 0);
  }

  /** Filing packet `next` leaves every other slot and its packet alone. */
  lemma SendOneSlots(s: Session, held: set<nat>, una: nat, hist: seq<Sent>, sent: Sent, tsc: nat)
    requires Shape(s) && CanSend(s) && OwnedOnce(s, held) && SlotsOk(s, una, hist)
    requires una <= |hist| < una + WINDOW && SlotOf(s.nextSeq) == |hist| % WINDOW
    requires s.nextSeq == Wrap(|hist|)
    requires NextPacket(s) == Encode(Data(|hist|, sent.ack, sent.payload))
    ensures SlotsOk(SendOne(s, tsc), una, hist + [sent])
  {
    hide NextPacket, Encode, Sub, Wrap, OwnedOnce;
    var r := SendOne(s, tsc);
    var hist' := hist + [sent];
    ResidentUnique(una, |hist|);
    forall k | 0 <= k < WINDOW ensures SlotOk(r, una, hist', k) {
      assert SlotOk(s, una, hist, k);
      var n := Resident(una, k);
      if k == |hist| % WINDOW {
        assert MessageAt(hist', n) == Data(|hist|, sent.ack, sent.payload);
      } else if n < |hist| {
        assert MessageAt(hist', n) == MessageAt(hist, n);
        FreeIsUnfiled(s, held, |s.pool.free| - 1, k);
      } else {
        assert n != |hist|;
      }
    }
  }

  lemma PayloadsSnoc(hist: seq<Sent>, sent: Sent)
    ensures Payloads(hist + [sent]) == Payloads(hist) + [sent.payload]
    ensures Flatten(Payloads(hist + [sent])) == Flatten(Payloads(hist)) + sent.payload
  {
    assert Payloads(hist + [sent]) == Payloads(hist) + [sent.payload];
    FlattenSnoc(Payloads(hist), sent.payload);
  }

  lemma SendOneStream(s: Session, given: seq<byte>, hist: seq<Sent>, sent: Sent, tsc: nat)
    requires Shape(s) && CanSend(s) && StreamOk(s, given, hist) && sent.payload == NextChunk(s)
    ensures StreamOk(SendOne(s, tsc), given, hist + [sent]) && |sent.payload| >= 1
  {
    hide NextPacket, Flatten, Sub;
    PayloadsSnoc(hist, sent);
    var c := NextChunk(s);
    assert s.pendingTx[s.txOff..] == c + s.pendingTx[s.txOff + |c|..];
    assert Flatten(Payloads(hist)) + (c + s.pendingTx[s.txOff + |c|..])
        == (Flatten(Payloads(hist)) + c) + s.pendingTx[s.txOff + |c|..];
  }

  lemma OutGrows(out: set<Message>, hist: seq<Sent>, sent: Sent, base: nat)
    requires OutOk(out, hist, base) && sent.ack <= base
    ensures OutOk(out + {Data(|hist|, sent.ack, sent.payload)}, hist + [sent], base)
  {
    var hist' := hist + [sent];
    forall n | 0 <= n < |hist| ensures MessageAt(hist', n) == MessageAt(hist, n) {
    }
    assert MessageAt(hist', |hist|) == Data(|hist|, sent.ack, sent.payload);
  }

  lemma PumpStepOk(x: End, tsc: nat)
    requires Local(x) && Shape(x.s) && CanSend(x.s)
    ensures Local(PumpStep(x, tsc))
    ensures NextPacket(x.s) == Encode(Data(|x.hist|, x.base, NextChunk(x.s)))
  {
    hide SlotsOk, StreamOk, OutOk, OwnedOnce, NextPacket, Encode, Owners;
    var sent := Sent(NextChunk(x.s), x.base);
    var y := PumpStep(x, tsc);
    WindowHasRoom(x);
    NextSlotVacant(x);
    NextPacketIsEncoding(x);
    SendOneSlots(x.s, x.held, x.una, x.hist, sent, tsc);
    SendOneStream(x.s, x.given, x.hist, sent, tsc);
    OutGrows(x.out, x.hist, sent, x.base);
    WrapAdd(|x.hist|, 1);
    OwnedAfterSend(x.s, x.held, tsc);
  }

  lemma OwnedAfterSend(s: Session, held: set<nat>, tsc: nat)
    requires Shape(s) && CanSend(s) && OwnedOnce(s, held) && s.slots[SlotOf(s.nextSeq)].Vacant?
    ensures OwnedOnce(SendOne(s, tsc), held)
  {
    hide Owners, SendOne;
    SendOneKeepsOwners(s, held, tsc);
  }

  /** The pump loop with its bookkeeping. */
  ghost function PumpAll(x: End, clock: nat -> nat, i: nat): (y: End)
    requires Shape(x.s)
    ensures Shape(y.s)
    decreases |x.s.pendingTx| - x.s.txOff
  {
    if CanSend(x.s) then PumpAll(PumpStep(x, clock(i)), clock, i + 1) else x
  }

  /** Fields the pump does not write. */
  ghost predicate PumpFrame(x: End, y: End) {
    && y.held == x.held && y.given == x.given && y.una == x.una && y.base == x.base
    && y.delivered == x.delivered && x.hist <= y.hist && x.out <= y.out
    && y.s.received == x.s.received && y.s.reasm == x.s.reasm && y.s.base == x.s.base
    && y.s.pendingAck == x.s.pendingAck && y.s.bytesReceived == x.s.bytesReceived
    && y.s.sndUna == x.s.sndUna
  }

  /**
   The pump keeps the invariants; its session is the specified one, and what it
   transmits are the encodings of the messages it records, in order.
   */
  lemma {:induction false} PumpAllOk(x: End, clock: nat -> nat, i: nat)
    requires Local(x) && Shape(x.s)
    ensures var y := PumpAll(x, clock, i); var e := PumpLoop(x.s, clock, i);
            && Local(y) && PumpFrame(x, y) && y.s == e.s
            && |e.tx| == |y.hist| - |x.hist|
            && forall j :: 0 <= j < |e.tx| ==> e.tx[j] == Encode(MessageAt(y.hist, |x.hist| + j))
    decreases |x.s.pendingTx| - x.s.txOff
  {
    hide Local, Encode, NextPacket, NextChunk;
    if CanSend(x.s) {
      var x' := PumpStep(x, clock(i));
      PumpStepOk(x, clock(i));
      PumpAllOk(x', clock, i + 1);
      var y := PumpAll(x, clock, i);
      assert MessageAt(x'.hist, |x.hist|) == MessageAt(y.hist, |x.hist|);
    }
  }

  ghost function Pumped(x: End, clock: nat -> nat): (y: End)
    requires Shape(x.s)
    ensures Shape(y.s)
  {
    var y := PumpAll(x, clock, 0);
    y.(s := Trim(y.s))
  }

  lemma TrimOk(x: End)
    requires Local(x)
    ensures Local(x.(s := Trim(x.s)))
  {
    hide Flatten, OwnedOnce;
    var y := x.(s := Trim(x.s));
    assert Owners(y.s, y.held) == Owners(x.s, x.held) && OwnedOnce(y.s, y.held) by {
      OwnedSame(x.s, y.s, x.held);
    }
    assert SlotsOk(y.s, y.una, y.hist) by { SlotsSame(x.s, y.s, x.una, x.hist); }
  }

  lemma OwnedSame(s: Session, t: Session, held: set<nat>)
    requires OwnedOnce(s, held)
    requires t.pool.free == s.pool.free && |t.pool.mem| == |s.pool.mem| && t.slots == s.slots
    ensures Owners(t, held) == Owners(s, held) && OwnedOnce(t, held)
  {
  }

  lemma SlotsSame(s: Session, t: Session, una: nat, hist: seq<Sent>)
    requires SlotsOk(s, una, hist) && t.pool == s.pool && t.slots == s.slots
    ensures SlotsOk(t, una, hist)
  {
    forall k | 0 <= k < WINDOW ensures SlotOk(t, una, hist, k) {
      assert SlotOk(s, una, hist, k);
    }
  }

  lemma PumpedOk(x: End, clock: nat -> nat)
    requires Local(x) && Shape(x.s)
    ensures var y := Pumped(x, clock); var e := Pump(x.s, clock);
            && Local(y) && PumpFrame(x, y) && y.s == e.s
            && |e.tx| == |y.hist| - |x.hist|
            && forall j :: 0 <= j < |e.tx| ==> e.tx[j] == Encode(MessageAt(y.hist, |x.hist| + j))
  {
    hide Local, Encode;
    PumpAllOk(x, clock, 0);
    TrimOk(PumpAll(x, clock, 0));
  }

  // ---------------------------------------------------------------- acknowledgements

  ghost function Acked(x: End, ack: nat): End
    requires Shape(x.s)
  {
    x.(s := Acknowledge(x.s, Wrap(ack)), una := ack)
  }

  /** An acknowledgement reaches exactly the slots whose number is below it. */
  lemma AckedIffBelow(s: Session, una: nat, hist: seq<Sent>, ack: nat, k: nat)
    requires k < WINDOW && SlotsOk(s, una, hist) && una <= ack <= |hist| <= una + WINDOW
    ensures IsAcked(s.slots[k], Wrap(ack)) <==> Resident(una, k) < ack
  {
    hide Distance;
    assert SlotOk(s, una, hist, k);
    DistanceIsTrue(Resident(una, k), ack);
  }

  lemma AckedSlots(s: Session, una: nat, hist: seq<Sent>, ack: nat)
    requires Shape(s) && SlotsOk(s, una, hist) && una <= ack <= |hist| <= una + WINDOW
    ensures SlotsOk(Acknowledge(s, Wrap(ack)), ack, hist)
  {
    hide IsAcked, Encode;
    var r := Acknowledge(s, Wrap(ack));
    forall k | 0 <= k < WINDOW ensures SlotOk(r, ack, hist, k) {
      assert SlotOk(s, una, hist, k);
      AckedIffBelow(s, una, hist, ack, k);
      ResidentAdvance(una, ack, k);
    }
  }

  lemma AckedOk(x: End, ack: nat)
    requires Local(x) && Shape(x.s) && x.una <= ack <= |x.hist|
    ensures Local(Acked(x, ack))
  {
    hide SlotsOk, OutOk, Owners;
    AckedSlots(x.s, x.una, x.hist, ack);
    AcknowledgeKeepsOwners(x.s, x.held, Wrap(ack));
  }

  /** `mark_acked` reports the stamp of the newest packet it frees, number ack - 1. */
  lemma NewestIsLast(s: Session, una: nat, hist: seq<Sent>, ack: nat)
    requires SlotsOk(s, una, hist) && una < ack <= |hist| <= una + WINDOW
    ensures NewestAcked(s.slots, Wrap(ack)) == s.slots[(ack - 1) % WINDOW]
    ensures var slot := s.slots[(ack - 1) % WINDOW]; slot.Occupied? && slot.seqNum == Wrap(ack - 1)
  {
    var k := (ack - 1) % WINDOW;
    ResidentUnique(una, ack - 1);
    assert SlotOk(s, una, hist, k);
    var j := NewestOfPrefix(s, una, hist, ack, WINDOW);
    AckedIffBelow(s, una, hist, ack, k);
    assert s.slots[..WINDOW] == s.slots;
    AckedIffBelow(s, una, hist, ack, j);
    assert Resident(una, j) == ack - 1;
  }

  lemma SlotsCompare(s: Session, una: nat, hist: seq<Sent>, j: nat, k: nat)
    requires j < WINDOW && k < WINDOW && SlotsOk(s, una, hist)
    requires s.slots[j].Occupied? && s.slots[k].Occupied?
    ensures Distance(s.slots[j].seqNum, s.slots[k].seqNum) > 0 <==> Resident(una, j) > Resident(una, k)
  {
    hide Distance;
    assert SlotOk(s, una, hist, j) && SlotOk(s, una, hist, k);
    DistanceIsTrue(Resident(una, j), Resident(una, k));
  }

  lemma NewestStep(slots: seq<Slot>, upTo: uint32, n: nat)
    requires n <= |slots|
    ensures n == 0 ==> NewestAcked(slots[..n], upTo).Vacant?
    ensures n > 0 ==>
              (var best, last := NewestAcked(slots[..n - 1], upTo), slots[n - 1];
               NewestAcked(slots[..n], upTo) ==
                 if IsAcked(last, upTo) && (best.Vacant? || Distance(last.seqNum, best.seqNum) > 0)
                 then last else best)
  {
    hide IsAcked, Distance;
    if n > 0 {
      assert slots[..n][..n - 1] == slots[..n - 1];
    }
  }

  lemma {:induction false} NewestOfPrefix(s: Session, una: nat, hist: seq<Sent>, ack: nat, n: nat)
    returns (j: nat)
    requires SlotsOk(s, una, hist) && una <= ack <= |hist| <= una + WINDOW && n <= WINDOW
    ensures j <= n && (j == n ==> forall k :: 0 <= k < n ==> !IsAcked(s.slots[k], Wrap(ack)))
    ensures j == n ==> NewestAcked(s.slots[..n], Wrap(ack)).Vacant?
    ensures j < n ==> IsAcked(s.slots[j], Wrap(ack)) && NewestAcked(s.slots[..n], Wrap(ack)) == s.slots[j]
    ensures forall k :: 0 <= k < n && IsAcked(s.slots[k], Wrap(ack)) ==>
              j < n && Resident(una, k) <= Resident(una, j)
    decreases n
  {
    hide SlotOk, Distance, Wrap, Resident, NewestAcked;
    NewestStep(s.slots, Wrap(ack), n);
    if n == 0 {
      return 0;
    }
    j := NewestOfPrefix(s, una, hist, ack, n - 1);
    if j < n - 1 {
      if IsAcked(s.slots[n - 1], Wrap(ack)) {
        SlotsCompare(s, una, hist, n - 1, j);
        if Resident(una, n - 1) > Resident(una, j) {
          j := n - 1;
        }
      }
    } else if !IsAcked(s.slots[n - 1], Wrap(ack)) {
      j := n;
    }
  }

  // ---------------------------------------------------------------------- receiving

  /**
   The bitmap over the peer's history: a marked place holds, in its own reassembly
   slot, the payload of the packet with that number.
   */
  ghost predicate BitmapOk(s: Session, base: nat, hist: seq<Sent>) {
    && |s.received| == WINDOW && |s.reasm| == WINDOW
    && s.base == Wrap(base) && base <= |hist|
    && forall i :: 0 <= i < WINDOW && s.received[i] ==>
         base + i < |hist| && s.reasm[(base + i) % WINDOW] == hist[base + i].payload
  }

  /** Packet `n` has arrived: delivered already, or marked. */
  ghost predicate Arrived(s: Session, base: nat, n: nat)
    requires |s.received| == WINDOW
  {
    n < base || (n < base + WINDOW && s.received[n - base])
  }

  lemma StoreOk(s: Session, base: nat, hist: seq<Sent>, n: nat)
    requires Shape(s) && BitmapOk(s, base, hist)
    requires n < |hist| && n < base + WINDOW && FreshSeq(n, base)
    ensures var r := Store(s, Encode(MessageAt(hist, n)));
            && BitmapOk(r, base, hist)
            && r == s.(received := r.received, reasm := r.reasm)
            && Arrived(r, base, n)
            && forall i :: Arrived(s, base, i) ==> Arrived(r, base, i)
  {
    hide DataPacket, Distance, FreshSeq;
    SeqReadRightIff(n, base);
    SlotOfWrap(n);
    var r := Store(s, Encode(MessageAt(hist, n)));
    if n >= base {
      forall i | 0 <= i < WINDOW && r.received[i]
        ensures base + i < |hist| && r.reasm[(base + i) % WINDOW] == hist[base + i].payload
      {
        if i != n - base {
          ResidentUnique(base, base + i);
          ResidentUnique(base, n);
        }
      }
    }
  }

  lemma DeliverOneOk(s: Session, base: nat, hist: seq<Sent>)
    requires Shape(s) && BitmapOk(s, base, hist) && s.received[0]
    ensures base < |hist| && s.reasm[SlotOf(s.base)] == hist[base].payload
    ensures BitmapOk(DeliverOne(s), base + 1, hist)
    ensures forall i :: Arrived(s, base, i) ==> Arrived(DeliverOne(s), base + 1, i)
  {
    SlotOfWrap(base);
    WrapAdd(base, 1);
    var r := DeliverOne(s);
    assert base + 0 == base;
    forall i | 0 <= i < WINDOW && r.received[i]
      ensures base + 1 + i < |hist| && r.reasm[(base + 1 + i) % WINDOW] == hist[base + 1 + i].payload
    {
      assert s.received[i + 1];
      ResidentUnique(base, base + i + 1);
      ResidentUnique(base, base);
    }
  }

  lemma FlattenCons(c: seq<byte>, rest: seq<seq<byte>>)
    ensures Flatten([c] + rest) == c + Flatten(rest)
  {
    FlattenConcat([c], rest);
    assert [c][..0] == [];
    assert Flatten([c]) == c;
  }

  lemma PayloadRange(hist: seq<Sent>, base: nat, up: seq<seq<byte>>)
    requires base + 1 + |up| <= |hist| && up == Payloads(hist)[base + 1..base + 1 + |up|]
    ensures Payloads(hist)[base..base + 1 + |up|] == [hist[base].payload] + up
  {
  }

  /** Delivery hands up the next packets of the peer's history, in order, and stops at a gap. */
  lemma {:induction false} DeliverOk(s: Session, base: nat, hist: seq<Sent>)
    requires Shape(s) && BitmapOk(s, base, hist)
    ensures var e := Deliver(s); var base' := base + |e.up|;
            && BitmapOk(e.s, base', hist) && !e.s.received[0]
            && e.up == Payloads(hist)[base..base']
            && e.s == s.(received := e.s.received, reasm := e.s.reasm, base := e.s.base,
                         bytesReceived := s.bytesReceived + |Flatten(e.up)|)
            && forall i :: Arrived(s, base, i) ==> Arrived(e.s, base', i)
    decreases RunLength(s.received)
  {
    hide BitmapOk, Flatten, RunLength, SlotOf, Arrived, Payloads;
    if s.received[0] {
      RunShrinks(s.received);
      DeliverOneOk(s, base, hist);
      DeliverOk(DeliverOne(s), base + 1, hist);
      FlattenCons(s.reasm[SlotOf(s.base)], Deliver(DeliverOne(s)).up);
      var up := Deliver(DeliverOne(s)).up;
      BitmapRange(Deliver(DeliverOne(s)).s, base + 1 + |up|, hist);
      PayloadRange(hist, base, up);
    } else {
      BitmapRange(s, base, hist);
      assert Flatten([]) == [] by { EmptyFlatten(); }
    }
  }

  lemma EmptyFlatten()
    ensures Flatten([]) == []
  {
  }

  lemma BitmapRange(s: Session, base: nat, hist: seq<Sent>)
    requires BitmapOk(s, base, hist)
    ensures base <= |hist|
  {
  }
}
