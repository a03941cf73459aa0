/**
 What each TCP-Lite operation does, as a function of the session's state: the
 specification the imperative session is proved against and the step function
 of the two-party protocol.
 */
module SessionSpec {
  import opened Words
  import opened SerialNumbers
  import opened Wire

  /** One entry of the unacked queue; the fields of a vacant slot are never read. */
  datatype Slot = Vacant | Occupied(seqNum: uint32, buf: nat, sentTsc: nat)

  /** Free buffer indices, top of the free stack last, and the buffers' contents. */
  datatype Pool = Pool(free: seq<nat>, mem: seq<Packet>)

  datatype Session = Session(
    pool: Pool,
    slots: seq<Slot>,
    pendingTx: seq<byte>,
    txOff: nat,
    nextSeq: uint32,
    sndUna: uint32,
    base: uint32,
    received: seq<bool>,
    reasm: seq<seq<byte>>,
    pendingAck: bool,
    bytesSent: nat,
    bytesReceived: nat,
    retransmits: nat)

  /** A new state, the packets transmitted and the chunks handed to the callback. */
  datatype Effect = Effect(s: Session, tx: seq<Packet>, up: seq<seq<byte>>)

  ghost predicate PoolShape(pool: Pool, slots: seq<Slot>) {
    && (forall i :: 0 <= i < |pool.free| ==> pool.free[i] < |pool.mem|)
    && (forall k :: 0 <= k < |slots| && slots[k].Occupied? ==> slots[k].buf < |pool.mem|)
  }

  ghost predicate Shape(s: Session) {
    && |s.slots| == WINDOW && |s.received| == WINDOW && |s.reasm| == WINDOW
    && s.txOff <= |s.pendingTx|
    && PoolShape(s.pool, s.slots)
  }

  // ------------------------------------------------------------- unacked queue

  /** `s.seq < up_to_seq` for an occupied slot. */
  predicate IsAcked(slot: Slot, upTo: uint32) {
    slot.Occupied? && Distance(slot.seqNum, upTo) < 0
  }

  function SlotsAfterAck(slots: seq<Slot>, upTo: uint32): (r: seq<Slot>)
    ensures |r| == |slots|
    ensures forall k :: 0 <= k < |r| ==> r[k] == if IsAcked(slots[k], upTo) then Vacant else slots[k]
  {
    seq(|slots|, k requires 0 <= k < |slots| => if IsAcked(slots[k], upTo) then Vacant else slots[k])
  }

  /** Buffers released by an acknowledgement, in slot order. */
  function AckedBufs(slots: seq<Slot>, upTo: uint32): seq<nat> {
    if slots == [] then [] else
      AckedBufs(slots[..|slots| - 1], upTo)
      + if IsAcked(slots[|slots| - 1], upTo) then [slots[|slots| - 1].buf] else []
  }

  /** The acked slot with the circularly greatest sequence number, first slot first. */
  function NewestAcked(slots: seq<Slot>, upTo: uint32): (r: Slot)
    ensures r.Occupied? ==> r in slots && IsAcked(r, upTo)
  {
    if slots == [] then Vacant else
      var best := NewestAcked(slots[..|slots| - 1], upTo);
      var last := slots[|slots| - 1];
      if IsAcked(last, upTo) && (best.Vacant? || Distance(last.seqNum, best.seqNum) > 0)
      then last else best
  }

  /** Unsigned 64-bit `now - sent`. */
  function Elapsed(now: nat, sent: nat): nat {
    (now - sent) % 0x1_0000_0000_0000_0000
  }

  predicate IsTimedOut(slot: Slot, now: nat, timeout: nat) {
    slot.Occupied? && Elapsed(now, slot.sentTsc) >= timeout
  }

  const TWO64: int := 0x1_0000_0000_0000_0000

  /** By the clock alone: `timeout` cycles have passed since the stamp; one ahead of `now` is a lap behind. */
  predicate Due(sent: nat, now: nat, timeout: nat) {
    if sent <= now then now - sent >= timeout else now + TWO64 - sent >= timeout
  }

  /** For 64-bit times, the unsigned comparison tells exactly whether the timeout has elapsed. */
  lemma TimedOutIffDue(slot: Slot, now: nat, timeout: nat)
    requires slot.Occupied? && slot.sentTsc < TWO64 && now < TWO64
    ensures IsTimedOut(slot, now, timeout) <==> Due(slot.sentTsc, now, timeout)
  {
  }

  /** Every time stamp in the queue is a 64-bit number. */
  ghost predicate Stamps64(slots: seq<Slot>) {
    forall k :: 0 <= k < |slots| && slots[k].Occupied? ==> slots[k].sentTsc < TWO64
  }

  function TimedOut(slots: seq<Slot>, now: nat, timeout: nat): seq<uint32> {
    if slots == [] then [] else
      TimedOut(slots[..|slots| - 1], now, timeout)
      + if IsTimedOut(slots[|slots| - 1], now, timeout) then [slots[|slots| - 1].seqNum] else []
  }

  function OccupiedBufs(slots: seq<Slot>): seq<nat> {
    if slots == [] then [] else
      OccupiedBufs(slots[..|slots| - 1])
      + if slots[|slots| - 1].Occupied? then [slots[|slots| - 1].buf] else []
  }

  /** The slot that currently holds `seqNum`, if any does. */
  predicate Holds(slots: seq<Slot>, seqNum: uint32)
    requires |slots| == WINDOW
  {
    var slot := slots[SlotOf(seqNum)];
    slot.Occupied? && slot.seqNum == seqNum
  }

  // -------------------------------------------------------------- receive bitmap

  /** Length of the run of received packets from the base. */
  function RunLength(bits: seq<bool>): (n: nat)
    ensures n <= |bits|
    ensures forall i :: 0 <= i < n ==> bits[i]
    ensures n < |bits| ==> !bits[n]
  {
    if bits != [] && bits[0] then 1 + RunLength(bits[1..]) else 0
  }

  function CumulativeAck(s: Session): uint32 {
    Wrap(s.base + RunLength(s.received))
  }

  /** `received_ >>= shift`. */
  function ShiftDown(bits: seq<bool>, shift: nat): (r: seq<bool>)
    ensures |r| == |bits|
    ensures forall i :: 0 <= i < |bits| ==> r[i] == (i + shift < |bits| && bits[i + shift])
  {
    seq(|bits|, i requires 0 <= i < |bits| => i + shift < |bits| && bits[i + shift])
  }

  /** What `has` answers. */
  predicate Marked(received: seq<bool>, base: uint32, seqNum: uint32)
    requires |received| == WINDOW
  {
    var off := Distance(seqNum, base);
    0 <= off < WINDOW && received[off]
  }

  /** Whether `mark_received` takes the packet. */
  predicate InWindowAndNew(s: Session, seqNum: uint32)
    requires |s.received| == WINDOW
  {
    var off := Distance(seqNum, s.base);
    0 <= off < WINDOW && !s.received[off]
  }

  // ----------------------------------------------------------------- transmitting

  predicate CanSend(s: Session) {
    s.txOff < |s.pendingTx| && Sub(s.nextSeq, s.sndUna) < WINDOW && s.pool.free != []
  }

  function NextChunk(s: Session): (c: seq<byte>)
    requires s.txOff <= |s.pendingTx|
    ensures |c| <= MAX_PAYLOAD
    ensures s.txOff < |s.pendingTx| ==> |c| >= 1
  {
    var rest := |s.pendingTx| - s.txOff;
    s.pendingTx[s.txOff..s.txOff + if rest < MAX_PAYLOAD then rest else MAX_PAYLOAD]
  }

  function NextPacket(s: Session): Packet
    requires s.txOff <= |s.pendingTx|
  {
    DataPacket(s.nextSeq, CumulativeAck(s), NextChunk(s))
  }

  /** The next packet depends on nothing that acquiring a buffer changes. */
  lemma NextPacketSame(s: Session, pool: Pool)
    requires s.txOff <= |s.pendingTx|
    ensures NextPacket(s.(pool := pool)) == NextPacket(s) && NextChunk(s.(pool := pool)) == NextChunk(s)
  {
    hide DataPacket;
  }

  /** One iteration of the pump: take a buffer, fill it, file it, send it. */
  function SendOne(s: Session, tsc: nat): (r: Session)
    requires Shape(s) && CanSend(s)
    ensures Shape(r)
  {
    var buf := s.pool.free[|s.pool.free| - 1];
    var k := SlotOf(s.nextSeq);
    var evicted := if s.slots[k].Occupied? then [s.slots[k].buf] else [];
    s.(pool := Pool(s.pool.free[..|s.pool.free| - 1] + evicted, s.pool.mem[buf := NextPacket(s)]),
       slots := s.slots[k := Occupied(s.nextSeq, buf, tsc)],
       bytesSent := s.bytesSent + |NextChunk(s)|,
       txOff := s.txOff + |NextChunk(s)|,
       nextSeq := Wrap(s.nextSeq + 1))
  }

  /** `clock(i)` is the time stamp read for the i-th packet of the call. */
  function PumpLoop(s: Session, clock: nat -> nat, i: nat): (e: Effect)
    requires Shape(s)
    ensures Shape(e.s) && e.up == []
    decreases |s.pendingTx| - s.txOff
  {
    if !CanSend(s) then Effect(s, [], []) else
      var e := PumpLoop(SendOne(s, clock(i)), clock, i + 1);
      Effect(e.s, [NextPacket(s)] + e.tx, [])
  }

  function Trim(s: Session): Session {
    if s.txOff > 0 && s.txOff == |s.pendingTx| then s.(pendingTx := [], txOff := 0) else s
  }

  function Pump(s: Session, clock: nat -> nat): (e: Effect)
    requires Shape(s)
    ensures Shape(e.s) && e.up == []
  {
    var e := PumpLoop(s, clock, 0);
    Effect(Trim(e.s), e.tx, [])
  }

  function Send(s: Session, data: seq<byte>, clock: nat -> nat): (e: Effect)
    requires Shape(s)
    ensures Shape(e.s)
  {
    Pump(s.(pendingTx := s.pendingTx + data), clock)
  }

  // -------------------------------------------------------------------- receiving

  function ReleaseTo(pool: Pool, buf: nat): Pool {
    pool.(free := pool.free + [buf])
  }

  /** A forward acknowledgement frees its slots and reopens the window. */
  function Acknowledge(s: Session, ack: uint32): (r: Session)
    requires Shape(s)
    ensures Shape(r)
  {
    AckedBufsInRange(s.slots, ack, |s.pool.mem|);
    s.(slots := SlotsAfterAck(s.slots, ack),
       pool := s.pool.(free := s.pool.free + AckedBufs(s.slots, ack)),
       sndUna := ack)
  }

  lemma {:induction false} AckedBufsInRange(slots: seq<Slot>, upTo: uint32, n: nat)
    requires forall k :: 0 <= k < |slots| && slots[k].Occupied? ==> slots[k].buf < n
    ensures forall i :: 0 <= i < |AckedBufs(slots, upTo)| ==> AckedBufs(slots, upTo)[i] < n
  {
    if slots != [] {
      AckedBufsInRange(slots[..|slots| - 1], upTo, n);
    }
  }

  function OnAck(s: Session, h: Header, clock: nat -> nat): (e: Effect)
    requires Shape(s)
    ensures Shape(e.s)
  {
    if HasAck(h) && Distance(h.ackNum, s.sndUna) > 0
    then Pump(Acknowledge(s, h.ackNum), clock)
    else Effect(s, [], [])
  }

  function Store(s: Session, p: Packet): (r: Session)
    requires Shape(s)
    ensures Shape(r)
  {
    var seqNum := p.header.seqNum;
    if InWindowAndNew(s, seqNum)
    then s.(received := s.received[Distance(seqNum, s.base) := true],
            reasm := s.reasm[SlotOf(seqNum) := p.payload])
    else s
  }

  /** One iteration of in-order delivery. */
  function DeliverOne(s: Session): (r: Session)
    requires Shape(s)
    ensures Shape(r)
  {
    var k := SlotOf(s.base);
    s.(bytesReceived := s.bytesReceived + |s.reasm[k]|,
       reasm := s.reasm[k := []],
       received := ShiftDown(s.received, 1),
       base := Wrap(s.base + 1))
  }

  lemma {:induction false} RunShrinks(bits: seq<bool>)
    requires bits != [] && bits[0]
    ensures RunLength(ShiftDown(bits, 1)) == RunLength(bits) - 1
  {
    var r := ShiftDown(bits, 1);
    var n := RunLength(bits);
    assert forall i :: 0 <= i < n - 1 ==> r[i];
    assert !r[n - 1];
    RunIs(r, n - 1);
  }

  lemma {:induction false} RunIs(bits: seq<bool>, n: nat)
    requires n <= |bits|
    requires forall i :: 0 <= i < n ==> bits[i]
    requires n < |bits| ==> !bits[n]
    ensures RunLength(bits) == n
  {
    if n > 0 {
      RunIs(bits[1..], n - 1);
    }
  }

  function Deliver(s: Session): (e: Effect)
    requires Shape(s)
    ensures Shape(e.s) && e.tx == []
    decreases RunLength(s.received)
  {
    if !s.received[0] then Effect(s, [], []) else
      RunShrinks(s.received);
      var e := Deliver(DeliverOne(s));
      Effect(e.s, [], [s.reasm[SlotOf(s.base)]] + e.up)
  }

  function OnData(s: Session, p: Packet): (e: Effect)
    requires Shape(s)
    ensures Shape(e.s) && e.tx == []
  {
    if p.header.payloadLen == 0 then Effect(s, [], []) else
      var e := Deliver(Store(s, p));
      e.(s := e.s.(pendingAck := true))
  }

  /** `on_packet_received` on a buffer that holds the packet. */
  function Receive(s: Session, buf: nat, clock: nat -> nat): (e: Effect)
    requires Shape(s) && buf < |s.pool.mem|
    ensures Shape(e.s)
  {
    var p := View(s.pool.mem[buf]);
    if !Verifies(p) then Effect(s.(pool := ReleaseTo(s.pool, buf)), [], []) else
      var a := OnAck(s, p.header, clock);
      var d := OnData(a.s, p);
      PoolSizeKept(s, p, clock);
      Effect(d.s.(pool := ReleaseTo(d.s.pool, buf)), a.tx, d.up)
  }

  lemma {:induction false} PumpKeepsPoolSize(s: Session, clock: nat -> nat, i: nat)
    requires Shape(s)
    ensures |PumpLoop(s, clock, i).s.pool.mem| == |s.pool.mem|
    decreases |s.pendingTx| - s.txOff
  {
    if CanSend(s) {
      PumpKeepsPoolSize(SendOne(s, clock(i)), clock, i + 1);
    }
  }

  lemma {:induction false} DeliverKeepsPool(s: Session)
    requires Shape(s)
    ensures Deliver(s).s.pool == s.pool && Deliver(s).s.slots == s.slots
    decreases RunLength(s.received)
  {
    if s.received[0] {
      RunShrinks(s.received);
      DeliverKeepsPool(DeliverOne(s));
    }
  }

  lemma PoolSizeKept(s: Session, p: Packet, clock: nat -> nat)
    requires Shape(s)
    ensures |OnData(OnAck(s, p.header, clock).s, p).s.pool.mem| == |s.pool.mem|
  {
    if HasAck(p.header) && Distance(p.header.ackNum, s.sndUna) > 0 {
      PumpKeepsPoolSize(Acknowledge(s, p.header.ackNum), clock, 0);
    }
    DeliverKeepsPool(Store(OnAck(s, p.header, clock).s, p));
  }

  // ------------------------------------------------------------------------- tick

  function Touch(s: Session, seqNum: uint32, now: nat): (r: Session)
    requires Shape(s) && Holds(s.slots, seqNum)
    ensures Shape(r)
  {
    var k := SlotOf(seqNum);
    s.(slots := s.slots[k := s.slots[k].(sentTsc := now)], retransmits := s.retransmits + 1)
  }

  function Resend(s: Session, seqs: seq<uint32>, now: nat): (e: Effect)
    requires Shape(s)
    ensures Shape(e.s) && e.up == []
    decreases |seqs|
  {
    if seqs == [] then Effect(s, [], [])
    else if !Holds(s.slots, seqs[0]) then Resend(s, seqs[1..], now)
    else
      var e := Resend(Touch(s, seqs[0], now), seqs[1..], now);
      Effect(e.s, [s.pool.mem[s.slots[SlotOf(seqs[0])].buf]] + e.tx, [])
  }

  function AckIfPending(s: Session): Effect {
    if s.pendingAck
    then Effect(s.(pendingAck := false), [AckPacket(s.nextSeq, CumulativeAck(s))], [])
    else Effect(s, [], [])
  }

  function Tick(s: Session, now: nat, timeout: nat, clock: nat -> nat): (e: Effect)
    requires Shape(s)
    ensures Shape(e.s)
  {
    var r := Resend(s, TimedOut(s.slots, now, timeout), now);
    var p := Pump(r.s, clock);
    var a := AckIfPending(p.s);
    Effect(a.s, r.tx + p.tx + a.tx, [])
  }

  // --------------------------------------------------------------------- teardown

  function ReleaseAll(s: Session): Session {
    s.(slots := seq(|s.slots|, i => Vacant),
       pool := s.pool.(free := s.pool.free + OccupiedBufs(s.slots)))
  }
}
