/**
 Machine words as bit vectors: a word is the sequence of its bits, least
 significant first, so that XOR and shifts are operations on sequences.
 */
module Words {
  type byte = n: nat | n < 256
  type uint16 = n: nat | n < 0x1_0000
  type uint32 = n: nat | n < 0x1_0000_0000

  datatype Vector = Vec(bits: seq<bool>)

  type Word = v: Vector | |v.bits| == 32 witness Vec(seq(32, i => false))

  function Fill(bit: bool): (w: Word)
    ensures forall i :: 0 <= i < 32 ==> w.bits[i] == bit
  {
    Vec(seq(32, i => bit))
  }

  const ZERO: Word := Fill(false)
  const ONES: Word := Fill(true)

  function XorBits(a: seq<bool>, b: seq<bool>): (c: seq<bool>)
    requires |a| == |b|
    ensures |c| == |a| && forall i :: 0 <= i < |a| ==> c[i] == (a[i] != b[i])
  {
    seq(|a|, i requires 0 <= i < |a| => a[i] != b[i])
  }

  function Xor(a: Word, b: Word): Word {
    Vec(XorBits(a.bits, b.bits))
  }

  /** Logical shift right. */
  function Shr(w: Word, n: nat): (r: Word)
    requires n <= 32
    ensures forall i :: 0 <= i < 32 ==> r.bits[i] == (i + n < 32 && w.bits[i + n])
  {
    Vec(w.bits[n..] + seq(n, i => false))
  }

  /** Shift left by one place, bringing in `bit` at the bottom. */
  function Shl1(w: Word, bit: bool): (r: Word)
    ensures r.bits[0] == bit && forall i :: 1 <= i < 32 ==> r.bits[i] == w.bits[i - 1]
  {
    Vec([bit] + w.bits[..31])
  }

  /** A narrower value zero-extended to a word. */
  function Widen(bits: seq<bool>): (r: Word)
    requires |bits| <= 32
    ensures forall i :: 0 <= i < 32 ==> r.bits[i] == (i < |bits| && bits[i])
  {
    Vec(bits + seq(32 - |bits|, i => false))
  }

  lemma SameBits(a: Word, b: Word)
    requires forall i :: 0 <= i < 32 ==> a.bits[i] == b.bits[i]
    ensures a == b
  {
    assert a.bits == b.bits;
  }

  // -------------------------------------------------------------- XOR algebra

  lemma XorSelf(a: Word)
    ensures Xor(a, a) == ZERO && Xor(a, ZERO) == a && Xor(ZERO, a) == a
  {
    SameBits(Xor(a, a), ZERO);
    SameBits(Xor(a, ZERO), a);
    SameBits(Xor(ZERO, a), a);
  }

  lemma XorSwap(a: Word, b: Word, x: Word, y: Word)
    ensures Xor(Xor(a, x), Xor(b, y)) == Xor(Xor(a, b), Xor(x, y))
  {
    SameBits(Xor(Xor(a, x), Xor(b, y)), Xor(Xor(a, b), Xor(x, y)));
  }

  lemma XorCancel(a: Word, b: Word, c: Word)
    requires Xor(a, c) == Xor(b, c)
    ensures a == b
  {
    forall i | 0 <= i < 32 ensures a.bits[i] == b.bits[i] {
      assert Xor(a, c).bits[i] == Xor(b, c).bits[i];
    }
    SameBits(a, b);
  }

  // ------------------------------------------------------------- numeric value

  function Pow2(n: nat): (p: nat)
    ensures p > 0
  {
    if n == 0 then 1 else 2 * Pow2(n - 1)
  }

  /** The low `width` bits of `n`. */
  function BitsOf(n: nat, width: nat): (bits: seq<bool>)
    ensures |bits| == width
    decreases width
  {
    if width == 0 then [] else [n % 2 == 1] + BitsOf(n / 2, width - 1)
  }

  function ValueOf(bits: seq<bool>): (v: nat)
    ensures v < Pow2(|bits|)
  {
    if bits == [] then 0 else (if bits[0] then 1 else 0) + 2 * ValueOf(bits[1..])
  }

  lemma {:induction false} ValueRoundTrip(bits: seq<bool>)
    ensures BitsOf(ValueOf(bits), |bits|) == bits
  {
    if bits != [] {
      ValueRoundTrip(bits[1..]);
    }
  }

  lemma {:induction false} BitsRoundTrip(n: nat, width: nat)
    requires n < Pow2(width)
    ensures ValueOf(BitsOf(n, width)) == n
    decreases width
  {
    if width > 0 {
      BitsRoundTrip(n / 2, width - 1);
    }
  }

  lemma {:induction false} ValueConcat(a: seq<bool>, b: seq<bool>)
    ensures ValueOf(a + b) == ValueOf(a) + Pow2(|a|) * ValueOf(b)
  {
    if a == [] {
      assert a + b == b;
    } else {
      ValueConcat(a[1..], b);
      assert (a + b)[1..] == a[1..] + b;
      assert Pow2(|a|) == 2 * Pow2(|a[1..]|);
      var p, v := Pow2(|a[1..]|), ValueOf(b);
      TwiceOf(p, v);
    }
  }

  lemma TwiceOf(p: nat, v: nat)
    ensures (2 * p) * v == 2 * (p * v)
  {
  }

  /** The bits of a number are those of its low part followed by those of its high part. */
  lemma BitsConcat(lo: nat, hi: nat, low: nat, high: nat)
    requires low < Pow2(lo) && high < Pow2(hi)
    ensures BitsOf(low + Pow2(lo) * high, lo + hi) == BitsOf(low, lo) + BitsOf(high, hi)
  {
    var bits := BitsOf(low, lo) + BitsOf(high, hi);
    BitsRoundTrip(low, lo);
    BitsRoundTrip(high, hi);
    ValueConcat(BitsOf(low, lo), BitsOf(high, hi));
    ValueRoundTrip(bits);
  }

  /** `n` halved `k` times. */
  function Halved(n: nat, k: nat): nat
    decreases k
  {
    if k == 0 then n else Halved(n / 2, k - 1)
  }

  lemma {:induction false} BitsOfAt(n: nat, width: nat, i: nat)
    requires i < width
    ensures BitsOf(n, width)[i] == (Halved(n, i) % 2 == 1)
    decreases i
  {
    if i > 0 {
      BitsOfAt(n / 2, width - 1, i - 1);
      assert BitsOf(n, width)[i] == BitsOf(n / 2, width - 1)[i - 1];
    }
  }

  // --------------------------------------------------------------------- bytes

  const BYTE: nat := 8

  function ByteBits(b: byte): (bits: seq<bool>)
    ensures |bits| == 8
  {
    BitsOf(b, BYTE)
  }

  lemma ByteBitsInjective(a: byte, b: byte)
    requires ByteBits(a) == ByteBits(b)
    ensures a == b
  {
    assert Pow2(8) == 256;
    BitsRoundTrip(a, BYTE);
    BitsRoundTrip(b, BYTE);
  }

  /** The low byte of a word. */
  function LowByte(w: Word): byte {
    assert Pow2(8) == 256;
    ValueOf(w.bits[..BYTE])
  }

  lemma LowByteBits(w: Word)
    ensures ByteBits(LowByte(w)) == w.bits[..8]
  {
    ValueRoundTrip(w.bits[..BYTE]);
  }
}
