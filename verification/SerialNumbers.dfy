/**
 32-bit sequence numbers. A session stores and compares them modulo 2^32; the
 proofs carry the unbounded ("ideal") numbers beside them.
 */
module SerialNumbers {
  import opened Words

  const TWO31: int := 0x8000_0000
  const TWO32: int := 0x1_0000_0000
  const WINDOW: int := 256

  /** The 32-bit image of an ideal number. */
  function Wrap(n: int): (w: uint32) {
    n % 0x1_0000_0000
  }

  /** Unsigned 32-bit subtraction. */
  function Sub(a: uint32, b: uint32): uint32 {
    Wrap(a - b)
  }

  /** Reinterpretation of an unsigned word as a signed one. */
  function AsInt32(x: uint32): int {
    if x < 0x8000_0000 then x else x - 0x1_0000_0000
  }

  /** `static_cast<int32_t>(a - b)`. */
  function Distance(a: uint32, b: uint32): int {
    AsInt32(Sub(a, b))
  }

  /** `seq & (TCP_LITE_WINDOW - 1)`. */
  function SlotOf(s: uint32): (k: nat)
    ensures k < WINDOW
  {
    s % WINDOW
  }

  /** The signed distance is the true one exactly within half the number space. */
  lemma DistanceIsTrue(x: int, y: int)
    ensures Distance(Wrap(x), Wrap(y)) == x - y <==> -TWO31 <= x - y < TWO31
  {
    WrapSub(x, y);
    var d := x - y;
    assert Wrap(d) - d == TWO32 * (-(d / 0x1_0000_0000));
  }

  lemma WrapSub(x: int, y: int)
    ensures Sub(Wrap(x), Wrap(y)) == Wrap(x - y)
  {
  }

  lemma WrapAdd(x: int, y: int)
    ensures Wrap(Wrap(x) + y) == Wrap(x + y)
  {
  }

  /** Wrapping loses nothing of the slot index, since 256 divides 2^32. */
  lemma SlotOfWrap(n: nat)
    ensures SlotOf(Wrap(n)) == n % WINDOW
  {
    var q := n / 0x1_0000_0000;
    assert n == 0x1_0000_0000 * q + Wrap(n);
    assert n == WINDOW * (0x100_0000 * q + Wrap(n) / WINDOW) + Wrap(n) % WINDOW;
  }

  /** The one ideal number in the window from `from` that lives in slot `k`. */
  function Resident(from: nat, k: nat): (n: nat)
    requires k < WINDOW
    ensures from <= n < from + WINDOW && n % WINDOW == k
  {
    from + (k - from) % WINDOW
  }

  lemma ResidentUnique(from: nat, n: nat)
    requires from <= n < from + WINDOW
    ensures Resident(from, n % WINDOW) == n
  {
  }

  /** Moving the window on keeps later residents and ages earlier ones by a lap. */
  lemma ResidentAdvance(from: nat, from': nat, k: nat)
    requires k < WINDOW && from <= from' <= from + WINDOW
    ensures Resident(from', k)
         == if Resident(from, k) < from' then Resident(from, k) + WINDOW else Resident(from, k)
  {
  }

  // ----------------------------------------------------------------- staleness

  /**
   An acknowledgement that lags is read as old exactly when its lag, modulo
   2^32, is at most 2^31.
   */
  predicate FreshAck(ack: nat, una: nat) {
    ack <= una ==> (una - ack) % TWO32 <= TWO31
  }

  /** `ack_num` is taken for news exactly when it is news, iff it is fresh. */
  lemma AckReadRightIff(ack: nat, una: nat)
    requires ack <= una + WINDOW
    ensures (Distance(Wrap(ack), Wrap(una)) > 0 <==> ack > una) <==> FreshAck(ack, una)
  {
    WrapSub(ack, una);
    if ack <= una { WrapOfLag(una - ack); } else { SmallWrap(ack - una); }
    hide Wrap, Sub;
  }

  lemma WrapOfLag(lag: nat)
    ensures Wrap(0 - lag) == if lag % TWO32 == 0 then 0 else TWO32 - lag % TWO32
  {
    var q, m := lag / 0x1_0000_0000, lag % 0x1_0000_0000;
    assert 0 - lag == 0x1_0000_0000 * (-q) - m;
  }

  lemma SmallWrap(n: nat)
    requires n < TWO32
    ensures Wrap(n) == n
  {
  }

  /**
   A data packet behind the window is refused exactly when its lag, modulo 2^32,
   is positive and leaves room for a whole window.
   */
  predicate FreshSeq(s: nat, base: nat) {
    s < base ==> 0 < (base - s) % TWO32 <= TWO32 - WINDOW
  }

  /** A sequence number falls in the receive window exactly when it should, iff it is fresh. */
  lemma SeqReadRightIff(s: nat, base: nat)
    requires s < base + WINDOW
    ensures (0 <= Distance(Wrap(s), Wrap(base)) < WINDOW <==> s >= base) <==> FreshSeq(s, base)
    ensures s >= base ==> Distance(Wrap(s), Wrap(base)) == s - base
  {
    WrapSub(s, base);
    if s < base { WrapOfLag(base - s); } else { SmallWrap(s - base); }
    hide Wrap, Sub;
  }

  /** A header at most 2^31 behind is always fresh. */
  lemma HalfSpaceIsFresh(n: nat, reference: nat)
    requires n <= reference ==> reference - n <= TWO31
    ensures FreshAck(n, reference) && FreshSeq(n, reference)
  {
  }
}
