/**
 Who owns each pool buffer: the free list, one unacked slot, or the caller that
 is about to hand it to the session or give it back.
 */
module Ownership {
  import opened Words
  import opened SerialNumbers
  import opened SessionSpec

  /** Every claim on a buffer, with multiplicity. */
  ghost function Owners(s: Session, held: set<nat>): multiset<nat> {
    multiset(s.pool.free) + multiset(OccupiedBufs(s.slots)) + multiset(held)
  }

  /** Each buffer of the pool is claimed exactly once, and nothing else is. */
  ghost predicate OwnedOnce(s: Session, held: set<nat>) {
    forall b: nat :: Owners(s, held)[b] == if b < |s.pool.mem| then 1 else 0
  }

  lemma {:induction false} OccupiedBufsHas(slots: seq<Slot>, k: nat)
    requires k < |slots| && slots[k].Occupied?
    ensures slots[k].buf in OccupiedBufs(slots)
  {
    if k < |slots| - 1 {
      OccupiedBufsHas(slots[..|slots| - 1], k);
    }
  }

  function Claim(slot: Slot): multiset<nat> {
    if slot.Occupied? then multiset{slot.buf} else multiset{}
  }

  lemma LastClaim(slots: seq<Slot>)
    requires slots != []
    ensures multiset(OccupiedBufs(slots))
         == multiset(OccupiedBufs(slots[..|slots| - 1])) + Claim(slots[|slots| - 1])
  {
  }

  /** Filing a buffer in a vacant slot adds one claim. */
  lemma {:induction false} FileSlot(slots: seq<Slot>, k: nat, slot: Slot)
    requires k < |slots| && slots[k].Vacant? && slot.Occupied?
    ensures multiset(OccupiedBufs(slots[k := slot])) == multiset(OccupiedBufs(slots)) + multiset{slot.buf}
  {
    hide OccupiedBufs;
    var n := |slots| - 1;
    var slots' := slots[k := slot];
    LastClaim(slots);
    LastClaim(slots');
    if k < n {
      FileSlot(slots[..n], k, slot);
      assert slots'[..n] == slots[..n][k := slot];
    } else {
      assert slots'[..n] == slots[..n];
    }
  }

  /** Refreshing a slot's time stamp changes no claim. */
  lemma {:induction false} RestampSlot(slots: seq<Slot>, k: nat, now: nat)
    requires k < |slots| && slots[k].Occupied?
    ensures OccupiedBufs(slots[k := slots[k].(sentTsc := now)]) == OccupiedBufs(slots)
  {
    var n := |slots| - 1;
    var slots' := slots[k := slots[k].(sentTsc := now)];
    if k < n {
      RestampSlot(slots[..n], k, now);
      assert slots'[..n] == slots[..n][k := slots[k].(sentTsc := now)];
    } else {
      assert slots'[..n] == slots[..n];
    }
  }

  /** An acknowledgement moves claims from slots to the free list and loses none. */
  lemma {:induction false} AckMovesClaims(slots: seq<Slot>, upTo: uint32)
    ensures multiset(OccupiedBufs(slots))
         == multiset(AckedBufs(slots, upTo)) + multiset(OccupiedBufs(SlotsAfterAck(slots, upTo)))
  {
    if slots != [] {
      var n := |slots| - 1;
      AckMovesClaims(slots[..n], upTo);
      assert SlotsAfterAck(slots, upTo)[..n] == SlotsAfterAck(slots[..n], upTo);
    }
  }

  lemma {:induction false} NoneOccupied(slots: seq<Slot>)
    requires forall k :: 0 <= k < |slots| ==> slots[k].Vacant?
    ensures OccupiedBufs(slots) == []
  {
    if slots != [] {
      NoneOccupied(slots[..|slots| - 1]);
    }
  }

  // --------------------------------------------------------- what a claim implies

  lemma FreeIsUnfiled(s: Session, held: set<nat>, i: nat, k: nat)
    requires OwnedOnce(s, held) && i < |s.pool.free| && k < |s.slots| && s.slots[k].Occupied?
    ensures s.pool.free[i] != s.slots[k].buf
  {
    OccupiedBufsHas(s.slots, k);
    var b := s.pool.free[i];
    assert b in multiset(s.pool.free);
    assert b == s.slots[k].buf ==> Owners(s, held)[b] >= 2;
  }

  lemma HeldIsElsewhere(s: Session, held: set<nat>, buf: nat)
    requires OwnedOnce(s, held) && buf in held
    ensures buf < |s.pool.mem| && buf !in s.pool.free
    ensures forall k :: 0 <= k < |s.slots| && s.slots[k].Occupied? ==> s.slots[k].buf != buf
  {
    assert Owners(s, held)[buf] >= 1;
    assert buf in multiset(s.pool.free) ==> Owners(s, held)[buf] >= 2;
    forall k | 0 <= k < |s.slots| && s.slots[k].Occupied? ensures s.slots[k].buf != buf {
      OccupiedBufsHas(s.slots, k);
      assert s.slots[k].buf == buf ==> Owners(s, held)[buf] >= 2;
    }
  }

  lemma OwnedIsInRange(s: Session, held: set<nat>)
    requires OwnedOnce(s, held)
    ensures PoolShape(s.pool, s.slots)
    ensures forall b :: b in held ==> b < |s.pool.mem|
  {
    forall i | 0 <= i < |s.pool.free| ensures s.pool.free[i] < |s.pool.mem| {
      assert s.pool.free[i] in multiset(s.pool.free);
      assert Owners(s, held)[s.pool.free[i]] >= 1;
    }
    forall k | 0 <= k < |s.slots| && s.slots[k].Occupied? ensures s.slots[k].buf < |s.pool.mem| {
      OccupiedBufsHas(s.slots, k);
      assert Owners(s, held)[s.slots[k].buf] >= 1;
    }
    forall b | b in held ensures b < |s.pool.mem| {
      assert Owners(s, held)[b] >= 1;
    }
  }

  // ------------------------------------------------------------- session operations

  lemma SendOneKeepsOwners(s: Session, held: set<nat>, tsc: nat)
    requires Shape(s) && CanSend(s) && s.slots[SlotOf(s.nextSeq)].Vacant?
    ensures Owners(SendOne(s, tsc), held) == Owners(s, held)
    ensures |SendOne(s, tsc).pool.mem| == |s.pool.mem|
  {
    hide NextPacket, OccupiedBufs, Sub;
    var n := |s.pool.free| - 1;
    var buf := s.pool.free[n];
    var r := SendOne(s, tsc);
    FileSlot(s.slots, SlotOf(s.nextSeq), Occupied(s.nextSeq, buf, tsc));
    assert s.pool.free == r.pool.free + [buf];
  }

  lemma AcknowledgeKeepsOwners(s: Session, held: set<nat>, ack: uint32)
    requires Shape(s)
    ensures Owners(Acknowledge(s, ack), held) == Owners(s, held)
  {
    AckMovesClaims(s.slots, ack);
  }

  lemma ReleaseReturnsClaim(s: Session, held: set<nat>, buf: nat)
    requires buf in held
    ensures Owners(s.(pool := ReleaseTo(s.pool, buf)), held - {buf}) == Owners(s, held)
  {
    assert multiset(held) == multiset(held - {buf}) + multiset{buf};
  }

  /**
   Teardown: with nothing left in the caller's hands every buffer ends up free,
   once; the queue's own destructor, running second, releases nothing more.
   */
  lemma TeardownReturnsEverything(s: Session, held: set<nat>)
    requires OwnedOnce(s, held)
    ensures OwnedOnce(ReleaseAll(s), held)
    ensures ReleaseAll(ReleaseAll(s)) == ReleaseAll(s)
    ensures held == {} ==> forall b: nat ::
              multiset(ReleaseAll(s).pool.free)[b] == if b < |s.pool.mem| then 1 else 0
  {
    var r := ReleaseAll(s);
    NoneOccupied(r.slots);
    assert Owners(r, held) == Owners(s, held);
    assert ReleaseAll(r).slots == r.slots && r.pool.free + [] == r.pool.free;
    assert held == {} ==> Owners(r, held) == multiset(r.pool.free);
  }
}
