/**
 Two views of the numbers a session keeps: the receive bitmap as a set of
 sequence numbers, and exactly how old a header may be before 32-bit comparison
 misreads it.
 */
module ReceiveWindow {
  import opened SerialNumbers
  import opened Wire
  import opened SessionSpec
  import opened Endpoint

  // -------------------------------------------------------------- the bitmap as a set

  /** The sequence numbers a bitmap marks when its base stands for `base`. */
  function Members(received: seq<bool>, base: nat): set<nat> {
    set i | 0 <= i < |received| && received[i] :: base + i
  }

  lemma MemberAt(received: seq<bool>, base: nat, n: nat)
    ensures n in Members(received, base) <==> base <= n < base + |received| && received[n - base]
  {
    if base <= n < base + |received| && received[n - base] {
      assert base + (n - base) == n;
    }
  }

  /** `has` is membership, for every number that is not too old to be read right. */
  lemma HasIffMember(received: seq<bool>, base: nat, n: nat)
    requires |received| == WINDOW && n < base + WINDOW && FreshSeq(n, base)
    ensures Marked(received, Wrap(base), Wrap(n)) <==> n in Members(received, base)
  {
    hide Distance, FreshSeq;
    SeqReadRightIff(n, base);
    MemberAt(received, base, n);
  }

  /** `mark_received` inserts a number the window has room for, and reports whether it was new. */
  lemma MarkInserts(s: Session, base: nat, n: nat)
    requires |s.received| == WINDOW && s.base == Wrap(base) && n < base + WINDOW && FreshSeq(n, base)
    ensures InWindowAndNew(s, Wrap(n)) <==> n >= base && n !in Members(s.received, base)
    ensures InWindowAndNew(s, Wrap(n)) ==>
              Distance(Wrap(n), s.base) == n - base
              && Members(s.received[n - base := true], base) == Members(s.received, base) + {n}
  {
    hide Distance, FreshSeq;
    SeqReadRightIff(n, base);
    MemberAt(s.received, base, n);
    if n >= base {
      var r := s.received[n - base := true];
      forall m ensures m in Members(r, base) <==> m in Members(s.received, base) + {n} {
        MemberAt(r, base, m);
        MemberAt(s.received, base, m);
      }
    }
  }

  /** `advance` to a later base forgets the numbers below it and keeps the others. */
  lemma AdvanceDrops(received: seq<bool>, base: nat, shift: nat)
    ensures Members(ShiftDown(received, shift), base + shift)
         == set n | n in Members(received, base) && n >= base + shift
  {
    var kept := set n | n in Members(received, base) && n >= base + shift;
    forall n ensures n in Members(ShiftDown(received, shift), base + shift) <==> n in kept {
      MemberAt(ShiftDown(received, shift), base + shift, n);
      MemberAt(received, base, n);
    }
  }

  /** The shift `advance` computes from wrapped bases is the ideal one. */
  lemma AdvanceShift(base: nat, newBase: nat)
    requires base <= newBase < base + TWO32
    ensures Sub(Wrap(newBase), Wrap(base)) == newBase - base
  {
    WrapSub(newBase, base);
  }

  // ------------------------------------------------------------------ how old is too old

  lemma {:induction false} PumpKeepsUna(s: Session, clock: nat -> nat, i: nat)
    requires Shape(s)
    ensures PumpLoop(s, clock, i).s.sndUna == s.sndUna
    decreases |s.pendingTx| - s.txOff
  {
    if CanSend(s) {
      PumpKeepsUna(SendOne(s, clock(i)), clock, i + 1);
    }
  }

  /** An acknowledgement of nothing new leaves the session alone if and only if it is fresh. */
  lemma OldAckIgnoredIff(x: End, h: Header, ack: nat, clock: nat -> nat)
    requires Local(x) && Shape(x.s) && HasAck(h) && h.ackNum == Wrap(ack) && ack <= x.una
    ensures OnAck(x.s, h, clock) == Effect(x.s, [], []) <==> FreshAck(ack, x.una)
  {
    hide SlotsOk, StreamOk, OutOk, Distance, FreshAck;
    AckReadRightIff(ack, x.una);
    if !FreshAck(ack, x.una) {
      PumpKeepsUna(Acknowledge(x.s, Wrap(ack)), clock, 0);
      StaleIsElsewhere(ack, x.una);
    }
  }

  lemma StaleIsElsewhere(ack: nat, una: nat)
    requires ack <= una && !FreshAck(ack, una)
    ensures Wrap(ack) != Wrap(una)
  {
    WrapSub(una, ack);
  }

  /** One that is too old frees the oldest packet still waiting for an acknowledgement. */
  lemma StaleAckLosesPacket(x: End, ack: nat)
    requires Local(x) && Shape(x.s) && ack <= x.una < |x.hist| && !FreshAck(ack, x.una)
    ensures x.s.slots[x.una % WINDOW].Occupied? && x.s.slots[x.una % WINDOW].seqNum == Wrap(x.una)
    ensures Distance(Wrap(ack), x.s.sndUna) > 0
    ensures Acknowledge(x.s, Wrap(ack)).slots[x.una % WINDOW].Vacant?
  {
    hide Encode;
    ResidentUnique(x.una, x.una);
    assert SlotOk(x.s, x.una, x.hist, x.una % WINDOW);
    AckReadRightIff(ack, x.una);
    WrapSub(x.una, ack);
    WrapSub(ack, x.una);
  }

  /**
   A packet delivered before is refused if and only if it is fresh, or it is misread as
   a number of the window that happens to be marked already.
   */
  lemma OldDataRefusedIff(s: Session, base: nat, n: nat)
    requires |s.received| == WINDOW && s.base == Wrap(base) && n < base
    ensures !InWindowAndNew(s, Wrap(n)) <==>
              FreshSeq(n, base) || Marked(s.received, s.base, Wrap(n))
  {
    hide Distance, FreshSeq;
    SeqReadRightIff(n, base);
  }

  /** Delivery hands up the payload filed for each number of the run from the base. */
  lemma {:induction false} DeliverHandsUp(s: Session, base: nat, i: nat)
    requires Shape(s) && s.base == Wrap(base) && i < RunLength(s.received)
    ensures i < |Deliver(s).up| && Deliver(s).up[i] == s.reasm[(base + i) % WINDOW]
    decreases i
  {
    hide RunLength;
    RunStarts(s.received);
    SlotOfWrap(base);
    if i > 0 {
      WrapAdd(base, 1);
      RunShrinks(s.received);
      DeliverHandsUp(DeliverOne(s), base + 1, i - 1);
      ResidentUnique(base, base + i);
      ResidentUnique(base, base);
    }
  }

  lemma RunStarts(bits: seq<bool>)
    ensures RunLength(bits) > 0 ==> bits != [] && bits[0]
    ensures RunLength(bits) <= |bits|
  {
  }

  /**
   The harm of a stale data packet. It is filed under a number `newer` that the sender
   gives to other data, and as soon as everything before that number has arrived it is
   handed up in its place.
   */
  lemma StaleDataDelivered(s: Session, base: nat, n: nat, p: Packet) returns (newer: nat)
    requires Shape(s) && s.base == Wrap(base) && n < base && p.header.seqNum == Wrap(n)
    requires !FreshSeq(n, base) && !Marked(s.received, s.base, Wrap(n))
    ensures n < base <= newer < base + WINDOW && Wrap(newer) == Wrap(n)
    ensures Store(s, p).received[newer - base] && Store(s, p).reasm[newer % WINDOW] == p.payload
    ensures (forall i :: 0 <= i < newer - base ==> s.received[i]) ==>
              var up := Deliver(Store(s, p)).up; newer - base < |up| && up[newer - base] == p.payload
  {
    hide Deliver;
    SeqReadRightIff(n, base);
    newer := base + Distance(Wrap(n), s.base);
    Misread(n, base);
    SlotOfWrap(newer);
    var r := Store(s, p);
    if forall i :: 0 <= i < newer - base ==> s.received[i] {
      RunReaches(r.received, newer - base);
      DeliverHandsUp(r, base, newer - base);
    }
  }

  lemma Misread(n: nat, base: nat)
    requires 0 <= Distance(Wrap(n), Wrap(base))
    ensures Wrap(base + Distance(Wrap(n), Wrap(base))) == Wrap(n)
  {
    WrapSub(n, base);
    WrapAdd(n - base, base);
  }

  lemma RunReaches(bits: seq<bool>, k: nat)
    requires k < |bits| && forall i :: 0 <= i <= k ==> bits[i]
    ensures RunLength(bits) > k
  {
    hide RunLength;
  }
}
