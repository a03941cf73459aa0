/**
 When a tick resends a packet, and what the clock has to do with it: exactly which
 packets go out again, how often, and which time stamps the slots carry.
 */
module Retransmission {
  import opened Words
  import opened SerialNumbers
  import opened Wire
  import Spec = SessionSpec
  import opened Ownership
  import opened Endpoint
  import opened Protocol
  import opened Connection

  /** Two packets of one window have different bits. */
  lemma EncodingsDiffer(hist: seq<Sent>, m: nat, n: nat)
    requires m < n < |hist| && n < m + TWO32
    ensures Encode(MessageAt(hist, m)) != Encode(MessageAt(hist, n))
  {
    hide DataPacket;
    assert Encode(MessageAt(hist, m)).header.seqNum == Wrap(m);
    assert Encode(MessageAt(hist, n)).header.seqNum == Wrap(n);
  }

  /** What one resend does to packet `n`: it goes out, freshly stamped, if it is the one asked for. */
  lemma TouchedOne(s: Spec.Session, una: nat, hist: seq<Sent>, q: uint32, now: nat, n: nat)
    requires Spec.Shape(s) && SlotsOk(s, una, hist) && Spec.Holds(s.slots, q)
    requires una <= n < |hist| && n < una + WINDOW
    ensures s.slots[SlotOf(q)].buf < |s.pool.mem|
    ensures s.pool.mem[s.slots[SlotOf(q)].buf] == Encode(MessageAt(hist, n)) <==> q == Wrap(n)
    ensures s.slots[n % WINDOW].Occupied?
    ensures Spec.Touch(s, q, now).slots[n % WINDOW]
         == if q == Wrap(n) then s.slots[n % WINDOW].(sentTsc := now) else s.slots[n % WINDOW]
  {
    hide Encode, Wrap;
    var k := SlotOf(q);
    assert SlotOk(s, una, hist, k);
    var m := Resident(una, k);
    HoldsResident(s, una, hist, n);
    SlotOfWrap(n);
    ResidentUnique(una, n);
    assert q == Wrap(m);
    if m < n { EncodingsDiffer(hist, m, n); }
    if n < m { EncodingsDiffer(hist, n, m); }
    if m != n { WrapsDiffer(m, n); }
  }

  lemma WrapsDiffer(m: nat, n: nat)
    requires m != n && m < n + TWO32 && n < m + TWO32
    ensures Wrap(m) != Wrap(n)
  {
  }

  /** A packet is resent as often as its number is listed, and then carries the tick's time. */
  lemma {:induction false} ResendCounts(s: Spec.Session, held: set<nat>, una: nat, hist: seq<Sent>,
                                        seqs: seq<uint32>, now: nat, n: nat)
    requires Spec.Shape(s) && SlotsOk(s, una, hist) && OwnedOnce(s, held)
    requires una <= n < |hist| && n < una + WINDOW
    ensures var e := Spec.Resend(s, seqs, now);
            && multiset(e.tx)[Encode(MessageAt(hist, n))] == multiset(seqs)[Wrap(n)]
            && s.slots[n % WINDOW].Occupied?
            && e.s.slots[n % WINDOW]
               == if Wrap(n) in seqs then s.slots[n % WINDOW].(sentTsc := now) else s.slots[n % WINDOW]
    decreases |seqs|
  {
    hide Encode, Wrap, OwnedOnce, SlotsOk, SlotOf, Spec.Touch;
    HoldsResident(s, una, hist, n);
    SlotOfWrap(n);
    if seqs != [] {
      var q, rest := seqs[0], seqs[1..];
      assert seqs == [q] + rest;
      if Spec.Holds(s.slots, q) {
        TouchOk(s, held, una, hist, q, now);
        TouchedOne(s, una, hist, q, now, n);
        ResendCounts(Spec.Touch(s, q, now), held, una, hist, rest, now, n);
      } else {
        ResendCounts(s, held, una, hist, rest, now, n);
      }
    }
  }

  /** The list of timed-out numbers has each at most once. */
  lemma {:induction false} ListedOnce(s: Spec.Session, una: nat, hist: seq<Sent>, now: nat, timeout: nat,
                                      n: nat, k: nat)
    requires SlotsOk(s, una, hist) && una <= n < |hist| && n < una + WINDOW && k <= WINDOW
    ensures multiset(Spec.TimedOut(s.slots[..k], now, timeout))[Wrap(n)]
         == if n % WINDOW < k && Spec.IsTimedOut(s.slots[n % WINDOW], now, timeout) then 1 else 0
    decreases k
  {
    hide Encode, Wrap, Spec.Elapsed;
    if k > 0 {
      ListedOnce(s, una, hist, now, timeout, n, k - 1);
      assert s.slots[..k][..k - 1] == s.slots[..k - 1];
      var slot := s.slots[k - 1];
      assert SlotOk(s, una, hist, k - 1);
      ResidentUnique(una, n);
      if slot.Occupied? && k - 1 != n % WINDOW {
        WrapsDiffer(Resident(una, k - 1), n);
      }
      HoldsResident(s, una, hist, n);
      SlotOfWrap(n);
    }
  }

  /** By the clock: packet `n` is due for retransmission. */
  ghost predicate IsDue(x: End, now: nat, timeout: nat, n: nat)
    requires |x.s.slots| == WINDOW
  {
    x.s.slots[n % WINDOW].Occupied? && Spec.Due(x.s.slots[n % WINDOW].sentTsc, now, timeout)
  }

  lemma ResentIffDue(x: End, now: nat, timeout: nat, n: nat)
    requires Local(x) && Spec.Shape(x.s) && x.una <= n < |x.hist|
    requires now < Spec.TWO64 && Spec.Stamps64(x.s.slots)
    ensures var e := Spec.Resend(x.s, Spec.TimedOut(x.s.slots, now, timeout), now);
            && multiset(e.tx)[Encode(MessageAt(x.hist, n))] == (if IsDue(x, now, timeout, n) then 1 else 0)
            && x.s.slots[n % WINDOW].Occupied?
            && e.s.slots[n % WINDOW]
               == if IsDue(x, now, timeout, n) then x.s.slots[n % WINDOW].(sentTsc := now)
                  else x.s.slots[n % WINDOW]
  {
    hide Encode, Wrap, OwnedOnce, SlotsOk, Local, Spec.Due, Spec.IsTimedOut, Spec.TimedOut, Spec.Resend;
    SenderParts(x);
    var seqs := Spec.TimedOut(x.s.slots, now, timeout);
    ResendCounts(x.s, x.held, x.una, x.hist, seqs, now, n);
    ListedOnce(x.s, x.una, x.hist, now, timeout, n, WINDOW);
    assert x.s.slots[..WINDOW] == x.s.slots;
    Spec.TimedOutIffDue(x.s.slots[n % WINDOW], now, timeout);
  }

  // ------------------------------------------------------------------ stamps of the pump

  /** What the pump leaves of packet `n`'s slot. */
  lemma {:induction false} PumpStamps(x: End, clock: nat -> nat, i: nat, n: nat)
    requires Local(x) && Spec.Shape(x.s) && x.una <= n < |PumpAll(x, clock, i).hist|
    ensures var y := PumpAll(x, clock, i);
            && |y.s.slots| == WINDOW && y.s.slots[n % WINDOW].Occupied?
            && if n < |x.hist| then y.s.slots[n % WINDOW] == x.s.slots[n % WINDOW]
               else y.s.slots[n % WINDOW].sentTsc == clock(i + (n - |x.hist|))
    decreases |x.s.pendingTx| - x.s.txOff
  {
    hide Local, Encode, Spec.NextPacket, Spec.NextChunk, PumpStep;
    if Spec.CanSend(x.s) {
      PumpStepOk(x, clock(i));
      StampsNext(x, clock(i));
      PumpStamps(PumpStep(x, clock(i)), clock, i + 1, n);
    } else {
      UnackedOccupied(x, n);
    }
  }

  lemma UnackedOccupied(x: End, n: nat)
    requires Local(x) && x.una <= n < |x.hist|
    ensures |x.s.slots| == WINDOW && x.s.slots[n % WINDOW].Occupied?
  {
    hide Encode;
    ResidentUnique(x.una, n);
    assert SlotOk(x.s, x.una, x.hist, n % WINDOW);
  }

  lemma StampsNext(x: End, tsc: nat)
    requires Local(x) && Spec.Shape(x.s) && Spec.CanSend(x.s)
    ensures var y := PumpStep(x, tsc); var k := |x.hist| % WINDOW;
            && Spec.Shape(y.s) && |y.hist| == |x.hist| + 1 && y.una == x.una && |y.s.slots| == WINDOW
            && y.s.slots[k].Occupied? && y.s.slots[k].sentTsc == tsc
            && (forall n :: x.una <= n < |x.hist| ==> y.s.slots[n % WINDOW] == x.s.slots[n % WINDOW])
            && |y.s.pendingTx| - y.s.txOff < |x.s.pendingTx| - x.s.txOff
  {
    hide Encode, Spec.NextPacket, SlotsOk, StreamOk, OutOk, Sub;
    WindowHasRoom(x);
    NextSlotVacant(x);
    forall n | x.una <= n < |x.hist| ensures n % WINDOW != |x.hist| % WINDOW {
      ResidentUnique(x.una, n);
      ResidentUnique(x.una, |x.hist|);
    }
  }

  // --------------------------------------------------------------------- the whole tick

  lemma NotPumped(x: End, tx: seq<Packet>, hist: seq<Sent>, n: nat)
    requires n < |x.hist| && x.hist <= hist && |tx| == |hist| - |x.hist| && |hist| <= n + TWO32
    requires forall j :: 0 <= j < |tx| ==> tx[j] == Encode(MessageAt(hist, |x.hist| + j))
    ensures multiset(tx)[Encode(MessageAt(x.hist, n))] == 0
  {
    hide Encode;
    var p := Encode(MessageAt(x.hist, n));
    assert MessageAt(x.hist, n) == MessageAt(hist, n);
    forall j | 0 <= j < |tx| ensures tx[j] != p {
      EncodingsDiffer(hist, n, |x.hist| + j);
    }
    assert p !in tx;
  }

  lemma NotTheAck(x: End, hist: seq<Sent>, n: nat)
    requires n < |hist| && |hist[n].payload| > 0
    ensures multiset(Spec.AckIfPending(x.s).tx)[Encode(MessageAt(hist, n))] == 0
  {
    hide Spec.CumulativeAck;
  }

  /**
   A tick transmits an unacknowledged packet exactly once if its timeout has elapsed
   since it was last sent, and not at all if it has not; and it restamps exactly those.
   */
  lemma TickResendsIffDue(x: End, now: nat, timeout: nat, clock: nat -> nat, n: nat)
    requires Local(x) && Spec.Shape(x.s) && x.una <= n < |x.hist|
    requires now < Spec.TWO64 && Spec.Stamps64(x.s.slots)
    ensures var e := Spec.Tick(x.s, now, timeout, clock);
            && multiset(e.tx)[Encode(MessageAt(x.hist, n))] == (if IsDue(x, now, timeout, n) then 1 else 0)
            && x.s.slots[n % WINDOW].Occupied? && |e.s.slots| == WINDOW
            && e.s.slots[n % WINDOW]
               == if IsDue(x, now, timeout, n) then x.s.slots[n % WINDOW].(sentTsc := now)
                  else x.s.slots[n % WINDOW]
  {
    hide Encode, Local, Pumped, PumpAll, Spec.Pump, Spec.Resend, Spec.TimedOut, Spec.AckIfPending, IsDue;
    var r := Spec.Resend(x.s, Spec.TimedOut(x.s.slots, now, timeout), now);
    var x1 := Resent(x, now, timeout);
    ResentIffDue(x, now, timeout, n);
    ResentOk(x, now, timeout);
    PumpedOk(x1, clock);
    PumpedStamps(x1, clock, n);
    var x2 := Pumped(x1, clock);
    LocalWindow(x2);
    NotPumped(x, Spec.Pump(x1.s, clock).tx, x2.hist, n);
    PayloadThere(x, n);
    NotTheAck(x2, x.hist, n);
    AckKeepsSlots(x2.s);
    assert n >= x1.una && n < |x1.hist|;
  }

  lemma PayloadThere(x: End, n: nat)
    requires Local(x) && n < |x.hist|
    ensures |x.hist[n].payload| > 0
  {
  }

  lemma AckKeepsSlots(s: Spec.Session)
    ensures Spec.AckIfPending(s).s.slots == s.slots
  {
  }

  /** The pump stamps its j-th packet with the j-th reading of the clock and leaves other stamps alone. */
  lemma PumpedStamps(x: End, clock: nat -> nat, n: nat)
    requires Local(x) && Spec.Shape(x.s) && x.una <= n < |Pumped(x, clock).hist|
    ensures var y := Pumped(x, clock);
            && |y.s.slots| == WINDOW && y.s.slots[n % WINDOW].Occupied?
            && if n < |x.hist| then y.s.slots[n % WINDOW] == x.s.slots[n % WINDOW]
               else y.s.slots[n % WINDOW].sentTsc == clock(n - |x.hist|)
  {
    hide Local, PumpAll;
    PumpStamps(x, clock, 0, n);
  }
}
