/**
 TCP-Lite as the program runs it: a buffer pool, the unacked queue's slot array,
 the receive bitmap, and the session that updates them in place. Every method is
 proved to do what its `SessionSpec` function says.
 */
module TcpLite {
  import opened Options
  import opened Words
  import opened SerialNumbers
  import opened Wire
  import Spec = SessionSpec

  /** The pool as one session sees it: a stack of free indices over fixed buffers. */
  class BufferPool {
    var free: seq<nat>
    const mem: array<Packet>

    ghost predicate Valid()
      reads this
    {
      forall i :: 0 <= i < |free| ==> free[i] < mem.Length
    }

    function Value(): Spec.Pool
      reads this, mem
    {
      Spec.Pool(free, mem[..])
    }

    method Acquire() returns (buf: Option<nat>)
      requires Valid()
      modifies this
      ensures Valid()
      ensures old(free) == [] ==> buf == None && free == []
      ensures old(free) != [] ==> buf.Some? && old(free) == free + [buf.value] && buf.value < mem.Length
    {
      if free == [] {
        return None;
      }
      buf := Some(free[|free| - 1]);
      free := free[..|free| - 1];
    }

    method Release(buf: nat)
      requires Valid() && buf < mem.Length
      modifies this
      ensures Valid() && free == old(free) + [buf]
    {
      free := free + [buf];
    }
  }

  class UnackedQueue {
    const pool: BufferPool
    const slots: array<Spec.Slot>

    constructor (pool: BufferPool)
      ensures this.pool == pool && fresh(slots) && slots.Length == WINDOW
      ensures forall k :: 0 <= k < WINDOW ==> slots[k].Vacant?
    {
      this.pool := pool;
      slots := new Spec.Slot[WINDOW](i => Spec.Vacant);
    }

    ghost predicate Valid()
      reads pool, slots
    {
      && slots.Length == WINDOW
      && pool.Valid()
      && forall k :: 0 <= k < WINDOW && slots[k].Occupied? ==> slots[k].buf < pool.mem.Length
    }

    method MarkSent(seqNum: uint32, buf: nat, tsc: nat)
      requires Valid() && buf < pool.mem.Length
      modifies pool, slots
      ensures Valid()
      ensures slots[..] == old(slots[..])[SlotOf(seqNum) := Spec.Occupied(seqNum, buf, tsc)]
      ensures var was := old(slots[SlotOf(seqNum)]);
              pool.free == old(pool.free) + if was.Occupied? then [was.buf] else []
    {
      var k := SlotOf(seqNum);
      if slots[k].Occupied? {
        pool.Release(slots[k].buf);
      }
      slots[k] := Spec.Occupied(seqNum, buf, tsc);
    }

    /** Frees everything below `upTo`; the stamp of the newest freed packet, or 0. */
    method MarkAcked(upTo: uint32) returns (newest: nat)
      requires Valid()
      modifies pool, slots
      ensures Valid()
      ensures slots[..] == Spec.SlotsAfterAck(old(slots[..]), upTo)
      ensures pool.free == old(pool.free) + Spec.AckedBufs(old(slots[..]), upTo)
      ensures var best := Spec.NewestAcked(old(slots[..]), upTo);
              newest == if best.Occupied? then best.sentTsc else 0
    {
      hide Distance;
      ghost var was := slots[..];
      var best := Spec.Vacant;
      for k := 0 to WINDOW
        invariant Valid()
        invariant forall j :: 0 <= j < k ==> slots[j] == if Spec.IsAcked(was[j], upTo) then Spec.Vacant else was[j]
        invariant forall j :: k <= j < WINDOW ==> slots[j] == was[j]
        invariant pool.free == old(pool.free) + Spec.AckedBufs(was[..k], upTo)
        invariant best == Spec.NewestAcked(was[..k], upTo)
      {
        assert was[..k + 1][..k] == was[..k];
        if slots[k].Occupied? && Distance(slots[k].seqNum, upTo) < 0 {
          if best.Vacant? || Distance(slots[k].seqNum, best.seqNum) > 0 {
            best := slots[k];
          }
          pool.Release(slots[k].buf);
          slots[k] := Spec.Vacant;
        }
      }
      assert was[..WINDOW] == was;
      newest := if best.Occupied? then best.sentTsc else 0;
    }

    method CheckTimeouts(now: nat, timeout: nat) returns (out: seq<uint32>)
      requires Valid()
      ensures out == Spec.TimedOut(slots[..], now, timeout)
    {
      out := [];
      for k := 0 to WINDOW
        invariant out == Spec.TimedOut(slots[..k], now, timeout)
      {
        assert slots[..k + 1][..k] == slots[..k];
        if slots[k].Occupied? && (now - slots[k].sentTsc) % Spec.TWO64 >= timeout {
          out := out + [slots[k].seqNum];
        }
      }
      assert slots[..WINDOW] == slots[..];
    }

    method BufferFor(seqNum: uint32) returns (buf: Option<nat>)
      requires Valid()
      ensures buf == if Spec.Holds(slots[..], seqNum) then Some(slots[SlotOf(seqNum)].buf) else None
    {
      var slot := slots[SlotOf(seqNum)];
      buf := if slot.Occupied? && slot.seqNum == seqNum then Some(slot.buf) else None;
    }

    method Touch(seqNum: uint32, now: nat)
      requires Valid()
      modifies slots
      ensures Valid()
      ensures var k := SlotOf(seqNum); var was := old(slots[..]);
              slots[..] == if Spec.Holds(was, seqNum) then was[k := was[k].(sentTsc := now)] else was
    {
      var k := SlotOf(seqNum);
      if slots[k].Occupied? && slots[k].seqNum == seqNum {
        slots[k] := slots[k].(sentTsc := now);
      }
    }

    method ReleaseAll()
      requires Valid()
      modifies pool, slots
      ensures Valid()
      ensures forall k :: 0 <= k < WINDOW ==> slots[k].Vacant?
      ensures pool.free == old(pool.free) + Spec.OccupiedBufs(old(slots[..]))
    {
      hide Spec.OccupiedBufs;
      ghost var was := slots[..];
      NoBufs();
      for k := 0 to WINDOW
        invariant Valid()
        invariant forall j :: 0 <= j < k ==> slots[j].Vacant?
        invariant forall j :: k <= j < WINDOW ==> slots[j] == was[j]
        invariant pool.free == old(pool.free) + Spec.OccupiedBufs(was[..k])
      {
        NextBuf(was, k);
        if slots[k].Occupied? {
          pool.Release(slots[k].buf);
        }
        slots[k] := Spec.Vacant;
      }
      assert was[..WINDOW] == was;
    }
  }

  lemma NoBufs()
    ensures Spec.OccupiedBufs([]) == []
  {
  }

  lemma NextBuf(slots: seq<Spec.Slot>, k: nat)
    requires k < |slots|
    ensures Spec.OccupiedBufs(slots[..k + 1])
         == Spec.OccupiedBufs(slots[..k]) + if slots[k].Occupied? then [slots[k].buf] else []
  {
    assert slots[..k + 1][..k] == slots[..k];
  }

  class RecvBitmap {
    var received: seq<bool>
    var base: uint32

    constructor ()
      ensures Valid() && base == 0 && forall i :: 0 <= i < WINDOW ==> !received[i]
    {
      received := seq(WINDOW, i => false);
      base := 0;
    }

    ghost predicate Valid()
      reads this
    {
      |received| == WINDOW
    }

    method MarkReceived(seqNum: uint32) returns (isNew: bool)
      requires Valid()
      modifies this`received
      ensures Valid()
      ensures var off := Distance(seqNum, base);
              && isNew == (0 <= off < WINDOW && !old(received)[off])
              && received == if isNew then old(received)[off := true] else old(received)
    {
      var off := Distance(seqNum, base);
      if off < 0 || off >= WINDOW || received[off] {
        return false;
      }
      received := received[off := true];
      return true;
    }

    method CumulativeAck() returns (ack: uint32)
      requires Valid()
      ensures ack == Wrap(base + Spec.RunLength(received))
    {
      var n := 0;
      while n < WINDOW && received[n]
        invariant 0 <= n <= WINDOW && forall i :: 0 <= i < n ==> received[i]
      {
        n := n + 1;
      }
      Spec.RunIs(received, n);
      ack := Wrap(base + n);
    }

    method Advance(newBase: uint32)
      requires Valid()
      modifies this
      ensures Valid() && base == newBase
      ensures received == Spec.ShiftDown(old(received), Sub(newBase, old(base)))
    {
      var shift := Sub(newBase, base);
      if shift == 0 {
        assert received == Spec.ShiftDown(received, 0);
        return;
      }
      if shift >= WINDOW {
        received := seq(WINDOW, i => false);
      } else {
        received := Spec.ShiftDown(received, shift);
      }
      base := newBase;
    }

    method Has(seqNum: uint32) returns (has: bool)
      requires Valid()
      ensures has == Spec.Marked(received, base, seqNum)
    {
      var off := Distance(seqNum, base);
      has := 0 <= off < WINDOW && received[off];
    }
  }

  class TcpLiteSession {
    const pool: BufferPool
    const unacked: UnackedQueue
    const bitmap: RecvBitmap
    const reasm: array<seq<byte>>
    var pendingTx: seq<byte>
    var txOff: nat
    var nextSeq: uint32
    var sndUna: uint32
    var pendingAck: bool
    var bytesSent: nat
    var bytesReceived: nat
    var retransmits: nat

    ghost predicate Valid()
      reads this, pool, unacked.pool, unacked.slots, bitmap
    {
      && unacked.pool == pool
      && unacked.Valid()
      && bitmap.Valid()
      && reasm.Length == WINDOW
      && txOff <= |pendingTx|
    }

    /** The whole state, as the specification sees it. */
    ghost function Value(): (s: Spec.Session)
      requires Valid()
      reads this, pool, pool.mem, unacked.pool, unacked.slots, bitmap, reasm
      ensures Spec.Shape(s)
    {
      Spec.Session(pool.Value(), unacked.slots[..], pendingTx, txOff, nextSeq, sndUna, bitmap.base,
                   bitmap.received, reasm[..], pendingAck, bytesSent, bytesReceived, retransmits)
    }

    constructor (pool: BufferPool)
      requires pool.Valid()
      ensures Valid() && this.pool == pool && fresh(unacked.slots) && fresh(bitmap) && fresh(reasm)
      ensures Value() == Spec.Session(pool.Value(), seq(WINDOW, i => Spec.Vacant), [], 0, 0, 0, 0,
                                      seq(WINDOW, i => false), seq(WINDOW, i => []), false, 0, 0, 0)
    {
      this.pool := pool;
      unacked := new UnackedQueue(pool);
      bitmap := new RecvBitmap();
      reasm := new seq<byte>[WINDOW](i => []);
      pendingTx, txOff, nextSeq, sndUna := [], 0, 0, 0;
      pendingAck, bytesSent, bytesReceived, retransmits := false, 0, 0, 0;
      new;
      assert unacked.slots[..] == seq(WINDOW, i => Spec.Vacant);
      assert bitmap.received == seq(WINDOW, i => false);
      assert reasm[..] == seq(WINDOW, i => []);
    }

    method Send(data: seq<byte>, clock: nat -> nat) returns (tx: seq<Packet>)
      requires Valid()
      modifies this, pool, pool.mem, unacked.slots
      ensures Valid()
      ensures var e := Spec.Send(old(Value()), data, clock); Value() == e.s && tx == e.tx
    {
      pendingTx := pendingTx + data;
      tx := PumpTx(clock);
    }

    /** Header, payload and checksum of the next data packet. */
    method ComposeNext() returns (pkt: Packet)
      requires Valid()
      ensures pkt == Spec.NextPacket(Value()) && pkt.payload == Spec.NextChunk(Value())
    {
      hide Checksum;
      var remaining := |pendingTx| - txOff;
      var plen := if remaining < MAX_PAYLOAD then remaining else MAX_PAYLOAD;
      var ack := bitmap.CumulativeAck();
      var payload := pendingTx[txOff..txOff + plen];
      pkt := ComputeChecksum(Packet(Header(nextSeq, ack, TCP_ACK, plen, ZERO), payload));
    }

    /** The packet goes into its buffer and its slot, and the counters move on. */
    method FileNext(pkt: Packet, buf: nat, tsc: nat)
      requires Valid() && buf < pool.mem.Length && txOff + |pkt.payload| <= |pendingTx|
      modifies this, pool, pool.mem, unacked.slots
      ensures Valid()
      ensures var was := old(Value()); var k := SlotOf(was.nextSeq);
              Value() == was.(
                pool := Spec.Pool(was.pool.free + (if was.slots[k].Occupied? then [was.slots[k].buf] else []),
                                  was.pool.mem[buf := pkt]),
                slots := was.slots[k := Spec.Occupied(was.nextSeq, buf, tsc)],
                bytesSent := was.bytesSent + |pkt.payload|,
                txOff := was.txOff + |pkt.payload|,
                nextSeq := Wrap(was.nextSeq + 1))
    {
      hide SlotOf, Wrap;
      pool.mem[buf] := pkt;
      unacked.MarkSent(nextSeq, buf, tsc);
      bytesSent := bytesSent + |pkt.payload|;
      txOff := txOff + |pkt.payload|;
      nextSeq := Wrap(nextSeq + 1);
    }

    /** The body of the pump loop. */
    method PumpOne(tsc: nat) returns (pkt: Packet)
      requires Valid() && Spec.CanSend(Value())
      modifies this, pool, pool.mem, unacked.slots
      ensures Valid()
      ensures Value() == Spec.SendOne(old(Value()), tsc)
      ensures pkt == Spec.NextPacket(old(Value()))
      ensures |pendingTx| - txOff < old(|pendingTx| - txOff)
    {
      hide Spec.NextPacket, Sub, SlotOf, Wrap;
      ghost var was := Value();
      var buf := pool.Acquire();
      Spec.NextPacketSame(was, pool.Value());
      assert Value() == was.(pool := pool.Value());
      pkt := ComposeNext();
      FileNext(pkt, buf.value, tsc);
    }

    method PumpTx(clock: nat -> nat) returns (tx: seq<Packet>)
      requires Valid()
      modifies this, pool, pool.mem, unacked.slots
      ensures Valid()
      ensures var e := Spec.Pump(old(Value()), clock); Value() == e.s && tx == e.tx
    {
      hide Spec.SendOne, Spec.NextPacket;
      tx := [];
      var i := 0;
      ghost var goal := Spec.PumpLoop(Value(), clock, 0);
      while txOff < |pendingTx| && Sub(nextSeq, sndUna) < WINDOW && pool.free != []
        invariant Valid()
        invariant var e := Spec.PumpLoop(Value(), clock, i);
                  goal == Spec.Effect(e.s, tx + e.tx, [])
        decreases |pendingTx| - txOff
      {
        var pkt := PumpOne(clock(i));
        tx := tx + [pkt];
        i := i + 1;
      }
      if txOff > 0 && txOff == |pendingTx| {
        pendingTx, txOff := [], 0;
      }
    }

    /** The acknowledgement half of `on_packet_received`. */
    method AcceptAck(h: Header, clock: nat -> nat) returns (tx: seq<Packet>)
      requires Valid()
      modifies this, pool, pool.mem, unacked.slots
      ensures Valid()
      ensures Spec.OnAck(old(Value()), h, clock) == Spec.Effect(Value(), tx, [])
    {
      hide Spec.Pump, Spec.IsAcked, Distance;
      tx := [];
      if HasAck(h) {
        if Distance(h.ackNum, sndUna) > 0 {
          var sent := unacked.MarkAcked(h.ackNum);
          sndUna := h.ackNum;
          assert Value() == Spec.Acknowledge(old(Value()), h.ackNum);
          tx := PumpTx(clock);
        }
      }
    }

    /** The data half of `on_packet_received`. */
    method AcceptData(p: Packet) returns (up: seq<seq<byte>>)
      requires Valid()
      modifies this, bitmap, reasm
      ensures Valid()
      ensures Spec.OnData(old(Value()), p) == Spec.Effect(Value(), [], up)
    {
      hide Spec.Deliver, Distance;
      up := [];
      if p.header.payloadLen > 0 {
        var isNew := bitmap.MarkReceived(p.header.seqNum);
        if isNew {
          reasm[SlotOf(p.header.seqNum)] := p.payload;
        }
        assert Value() == Spec.Store(old(Value()), p);
        up := DeliverInOrder();
        pendingAck := true;
      }
    }

    /**
     `on_packet_received`. The buffer belongs to the caller: it is neither free
     nor in an unacked slot, so the pump cannot reuse it while it is being read.
     */
    method OnPacketReceived(buf: nat, clock: nat -> nat)
      returns (tx: seq<Packet>, up: seq<seq<byte>>)
      requires Valid() && buf < pool.mem.Length
      requires buf !in pool.free
      requires forall k :: 0 <= k < WINDOW && unacked.slots[k].Occupied? ==> unacked.slots[k].buf != buf
      modifies this, pool, pool.mem, unacked.slots, bitmap, reasm
      ensures Valid()
      ensures Spec.Receive(old(Value()), buf, clock) == Spec.Effect(Value(), tx, up)
    {
      hide Checksum, Spec.OnAck, Spec.OnData, View;
      tx, up := [], [];
      var ok := VerifyChecksum(View(pool.mem[buf]));
      if !ok {
        pool.Release(buf);
        return;
      }
      ghost var p := pool.mem[buf];
      Bystander(Value(), p.header, buf, clock);
      tx := AcceptAck(pool.mem[buf].header, clock);
      assert pool.mem[buf] == pool.Value().mem[buf] == p;
      up := AcceptData(View(pool.mem[buf]));
      pool.Release(buf);
    }

    /** The pump leaves a buffer it does not own alone. */
    static lemma Bystander(s0: Spec.Session, h: Header, buf: nat, clock: nat -> nat)
      requires Spec.Shape(s0) && buf < |s0.pool.mem| && buf !in s0.pool.free
      requires forall k :: 0 <= k < WINDOW && s0.slots[k].Occupied? ==> s0.slots[k].buf != buf
      ensures var e := Spec.OnAck(s0, h, clock);
              |e.s.pool.mem| == |s0.pool.mem| && e.s.pool.mem[buf] == s0.pool.mem[buf]
    {
      AckedBufsFrom(s0.slots, h.ackNum, buf);
      if HasAck(h) && Distance(h.ackNum, s0.sndUna) > 0 {
        PumpBystander(Spec.Acknowledge(s0, h.ackNum), clock, 0, buf);
      }
    }

    static lemma {:induction false} AckedBufsFrom(slots: seq<Spec.Slot>, ack: uint32, buf: nat)
      requires forall k :: 0 <= k < |slots| && slots[k].Occupied? ==> slots[k].buf != buf
      ensures buf !in Spec.AckedBufs(slots, ack)
    {
      if slots != [] {
        AckedBufsFrom(slots[..|slots| - 1], ack, buf);
      }
    }

    static lemma {:induction false} PumpBystander(s: Spec.Session, clock: nat -> nat, i: nat, buf: nat)
      requires Spec.Shape(s) && buf < |s.pool.mem| && buf !in s.pool.free
      requires forall k :: 0 <= k < WINDOW && s.slots[k].Occupied? ==> s.slots[k].buf != buf
      ensures var e := Spec.PumpLoop(s, clock, i);
              |e.s.pool.mem| == |s.pool.mem| && e.s.pool.mem[buf] == s.pool.mem[buf]
      decreases |s.pendingTx| - s.txOff
    {
      if Spec.CanSend(s) {
        PumpBystander(Spec.SendOne(s, clock(i)), clock, i + 1, buf);
      }
    }

    /** The body of the delivery loop. */
    method DeliverNext() returns (chunk: seq<byte>)
      requires Valid()
      modifies this, bitmap, reasm
      ensures Valid()
      ensures Value() == Spec.DeliverOne(old(Value()))
      ensures chunk == old(reasm[SlotOf(bitmap.base)])
    {
      var k := SlotOf(bitmap.base);
      chunk := reasm[k];
      bytesReceived := bytesReceived + |chunk|;
      reasm[k] := [];
      assert Sub(Wrap(bitmap.base + 1), bitmap.base) == 1;
      bitmap.Advance(Wrap(bitmap.base + 1));
    }

    static lemma SelfDistance(base: uint32)
      ensures Distance(base, base) == 0
    {
    }

    static lemma RunDrops(s: Spec.Session, t: Spec.Session)
      requires Spec.Shape(s) && s.received[0] && t == Spec.DeliverOne(s)
      ensures Spec.RunLength(t.received) < Spec.RunLength(s.received)
    {
      hide Spec.RunLength;
      Spec.RunShrinks(s.received);
    }

    method DeliverInOrder() returns (up: seq<seq<byte>>)
      requires Valid()
      modifies this, bitmap, reasm
      ensures Valid()
      ensures Spec.Deliver(old(Value())) == Spec.Effect(Value(), [], up)
    {
      hide Spec.RunLength, Distance, Spec.DeliverOne, SlotOf;
      SelfDistance(bitmap.base);
      up := [];
      ghost var goal := Spec.Deliver(Value());
      var more := bitmap.Has(bitmap.base);
      while more
        invariant Valid()
        invariant more == bitmap.received[0]
        invariant var e := Spec.Deliver(Value()); goal == Spec.Effect(e.s, [], up + e.up)
        decreases Spec.RunLength(bitmap.received)
      {
        Spec.RunShrinks(bitmap.received);
        ghost var was := Value();
        var chunk := DeliverNext();
        RunDrops(was, Value());
        up := up + [chunk];
        SelfDistance(bitmap.base);
        more := bitmap.Has(bitmap.base);
      }
    }

    /** The body of the retransmission loop. */
    method ResendOne(seqNum: uint32, now: nat) returns (tx: seq<Packet>)
      requires Valid()
      modifies this, unacked.slots
      ensures Valid()
      ensures var was := old(Value());
              if Spec.Holds(was.slots, seqNum)
              then Value() == Spec.Touch(was, seqNum, now) && tx == [was.pool.mem[was.slots[SlotOf(seqNum)].buf]]
              else Value() == was && tx == []
    {
      hide SlotOf;
      tx := [];
      var b := unacked.BufferFor(seqNum);
      if b.Some? {
        tx := [pool.mem[b.value]];
        unacked.Touch(seqNum, now);
        retransmits := retransmits + 1;
      }
    }

    method ResendTimedOut(now: nat, timeout: nat) returns (tx: seq<Packet>)
      requires Valid()
      modifies this, unacked.slots
      ensures Valid()
      ensures var was := old(Value());
              Spec.Resend(was, Spec.TimedOut(was.slots, now, timeout), now) == Spec.Effect(Value(), tx, [])
    {
      hide Spec.Touch, Spec.Holds, Spec.TimedOut, SlotOf;
      var seqs := unacked.CheckTimeouts(now, timeout);
      tx := [];
      ghost var goal := Spec.Resend(Value(), seqs, now);
      for i := 0 to |seqs|
        invariant Valid()
        invariant var e := Spec.Resend(Value(), seqs[i..], now); goal == Spec.Effect(e.s, tx + e.tx, [])
      {
        assert seqs[i..][1..] == seqs[i + 1..];
        var more := ResendOne(seqs[i], now);
        tx := tx + more;
      }
    }

    method Tick(now: nat, timeout: nat, clock: nat -> nat) returns (tx: seq<Packet>)
      requires Valid()
      modifies this, pool, pool.mem, unacked.slots
      ensures Valid()
      ensures Spec.Tick(old(Value()), now, timeout, clock) == Spec.Effect(Value(), tx, [])
    {
      hide Spec.Resend, Spec.Pump, Spec.AckIfPending, Spec.TimedOut;
      tx := ResendTimedOut(now, timeout);
      var more := PumpTx(clock);
      tx := tx + more;
      more := AcknowledgePending();
      tx := tx + more;
    }

    /** The acknowledgement a tick sends if one is pending. */
    method AcknowledgePending() returns (tx: seq<Packet>)
      requires Valid()
      modifies this
      ensures Valid()
      ensures Spec.AckIfPending(old(Value())) == Spec.Effect(Value(), tx, [])
    {
      hide Checksum, Spec.RunLength;
      tx := [];
      if pendingAck {
        var ack := bitmap.CumulativeAck();
        var pkt := ComputeChecksum(Packet(Header(nextSeq, ack, TCP_ACK, 0, ZERO), []));
        tx := [pkt];
        pendingAck := false;
      }
    }

    /** The destructor's release of every unacked buffer. */
    method Teardown()
      requires Valid()
      modifies pool, unacked.slots
      ensures Valid()
      ensures Value() == Spec.ReleaseAll(old(Value()))
    {
      unacked.ReleaseAll();
      assert unacked.slots[..] == seq(WINDOW, i => Spec.Vacant);
    }
  }
}
