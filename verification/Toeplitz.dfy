/**
 The Toeplitz receive-side-scaling hash (section 7.1.2.8 of the Intel 82599
 datasheet): a 32-bit window slides along the key and is XOR-ed in at every set
 input bit.
 */
module Toeplitz {
  import opened Words

  /** The standard 40-byte key. */
  const RSS_KEY: seq<byte> := KEY_0 + KEY_1 + KEY_2 + KEY_3 + KEY_4

  const KEY_0: seq<byte> := [0x6d, 0x5a, 0x56, 0xda, 0x25, 0x5b, 0x0e, 0xc2]
  const KEY_1: seq<byte> := [0x41, 0x67, 0x25, 0x3d, 0x43, 0xa3, 0x8f, 0xb0]
  const KEY_2: seq<byte> := [0xd0, 0xca, 0x2b, 0xcb, 0xae, 0x7b, 0x30, 0xb4]
  const KEY_3: seq<byte> := [0x77, 0xcb, 0x2d, 0xa3, 0x80, 0x30, 0xf2, 0x0c]
  const KEY_4: seq<byte> := [0x6a, 0x42, 0xb7, 0x3b, 0xbe, 0xac, 0x01, 0xfa]

  /** Eight key bytes are two of the datasheet's 32-bit registers, high byte first. */
  predicate Registers(key: seq<byte>, r: uint32, r': uint32) {
    |key| == 8 && key == Be32(r) + Be32(r')
  }

  lemma KeyParts()
    ensures Registers(KEY_0, 0x6d5a56da, 0x255b0ec2) && Registers(KEY_1, 0x4167253d, 0x43a38fb0)
    ensures Registers(KEY_2, 0xd0ca2bcb, 0xae7b30b4) && Registers(KEY_3, 0x77cb2da3, 0x8030f20c)
    ensures Registers(KEY_4, 0x6a42b73b, 0xbeac01fa)
  {
    hide Registers;
    TwoRegisters(0x6d, 0x5a, 0x56, 0xda, 0x25, 0x5b, 0x0e, 0xc2, 0x6d5a56da, 0x255b0ec2);
    TwoRegisters(0x41, 0x67, 0x25, 0x3d, 0x43, 0xa3, 0x8f, 0xb0, 0x4167253d, 0x43a38fb0);
    TwoRegisters(0xd0, 0xca, 0x2b, 0xcb, 0xae, 0x7b, 0x30, 0xb4, 0xd0ca2bcb, 0xae7b30b4);
    TwoRegisters(0x77, 0xcb, 0x2d, 0xa3, 0x80, 0x30, 0xf2, 0x0c, 0x77cb2da3, 0x8030f20c);
    TwoRegisters(0x6a, 0x42, 0xb7, 0x3b, 0xbe, 0xac, 0x01, 0xfa, 0x6a42b73b, 0xbeac01fa);
  }

  lemma TwoRegisters(a: byte, b: byte, c: byte, d: byte, a': byte, b': byte, c': byte, d': byte,
                     r: uint32, r': uint32)
    requires r / 0x1_0000 / 0x100 == a && r / 0x1_0000 % 0x100 == b
    requires r % 0x1_0000 / 0x100 == c && r % 0x1_0000 % 0x100 == d
    requires r' / 0x1_0000 / 0x100 == a' && r' / 0x1_0000 % 0x100 == b'
    requires r' % 0x1_0000 / 0x100 == c' && r' % 0x1_0000 % 0x100 == d'
    ensures Registers([a, b, c, d, a', b', c', d'], r, r')
  {
    assert Be32(r) == [a, b, c, d] && Be32(r') == [a', b', c', d'];
  }

  lemma KeyIsStandard()
    ensures |RSS_KEY| == 40
    ensures Registers(RSS_KEY[..8], 0x6d5a56da, 0x255b0ec2)
    ensures Registers(RSS_KEY[8..16], 0x4167253d, 0x43a38fb0)
    ensures Registers(RSS_KEY[16..24], 0xd0ca2bcb, 0xae7b30b4)
    ensures Registers(RSS_KEY[24..32], 0x77cb2da3, 0x8030f20c)
    ensures Registers(RSS_KEY[32..], 0x6a42b73b, 0xbeac01fa)
  {
    hide Registers;
    KeyParts();
    assert RSS_KEY[..8] == KEY_0 && RSS_KEY[8..16] == KEY_1 && RSS_KEY[16..24] == KEY_2;
    assert RSS_KEY[24..32] == KEY_3 && RSS_KEY[32..] == KEY_4;
  }

  /** Bit `i` of a byte string, most significant bit of each byte first. */
  function BitOf(m: seq<byte>, i: nat): bool
    requires i < 8 * |m|
  {
    ByteBits(m[i / 8])[7 - i % 8]
  }

  /** Key bits [i, i + 32), the first of them on top. */
  function KeyWindow(key: seq<byte>, i: nat): Word
    requires i + 32 <= 8 * |key|
  {
    hide BitOf;
    Vec(seq(32, j requires 0 <= j < 32 => BitOf(key, i + 31 - j)))
  }

  /** By definition: the XOR of the key windows at the set input bits below `n`. */
  function Hash(key: seq<byte>, input: seq<bool>, n: nat): Word
    requires n <= |input| && n + 31 <= 8 * |key|
  {
    if n == 0 then ZERO
    else Xor(Hash(key, input, n - 1), if input[n - 1] then KeyWindow(key, n - 1) else ZERO)
  }

  /** The hash of an XOR of inputs is the XOR of their hashes. */
  lemma {:induction false} HashLinear(key: seq<byte>, u: seq<bool>, v: seq<bool>, n: nat)
    requires |u| == |v| && n <= |u| && n + 31 <= 8 * |key|
    ensures Hash(key, XorBits(u, v), n) == Xor(Hash(key, u, n), Hash(key, v, n))
  {
    hide Xor, KeyWindow;
    if n == 0 {
      XorSelf(ZERO);
    } else {
      HashLinear(key, u, v, n - 1);
      var w := KeyWindow(key, n - 1);
      var x, y := if u[n - 1] then w else ZERO, if v[n - 1] then w else ZERO;
      XorSwap(Hash(key, u, n - 1), Hash(key, v, n - 1), x, y);
      XorSelf(w);
      XorSelf(ZERO);
    }
  }

  // ------------------------------------------------------------------ sliding window

  lemma PrimedWindow(key: seq<byte>)
    requires |key| >= 4
    ensures Vec(ByteBits(key[3]) + ByteBits(key[2]) + ByteBits(key[1]) + ByteBits(key[0]))
         == KeyWindow(key, 0)
  {
    hide ByteBits;
    var w: Word := Vec(ByteBits(key[3]) + ByteBits(key[2]) + ByteBits(key[1]) + ByteBits(key[0]));
    forall j | 0 <= j < 32 ensures w.bits[j] == KeyWindow(key, 0).bits[j] {
      assert BitOf(key, 31 - j) == ByteBits(key[(31 - j) / 8])[7 - (31 - j) % 8];
    }
    SameBits(w, KeyWindow(key, 0));
  }

  lemma WindowSlides(key: seq<byte>, i: nat)
    requires i + 33 <= 8 * |key|
    ensures Shl1(KeyWindow(key, i), BitOf(key, i + 32)) == KeyWindow(key, i + 1)
  {
    hide BitOf;
    SameBits(Shl1(KeyWindow(key, i), BitOf(key, i + 32)), KeyWindow(key, i + 1));
  }

  /** An input's bits, in the order the loop meets them. */
  function InputBits(input: seq<byte>): (bits: seq<bool>)
    ensures |bits| == 8 * |input|
  {
    seq(8 * |input|, i requires 0 <= i < 8 * |input| => BitOf(input, i))
  }

  /** The nested loop over bytes and bits, with its sliding window. */
  method SlidingHash(key: seq<byte>, input: seq<byte>) returns (result: Word)
    requires |key| >= 4 && 8 * |input| + 32 <= 8 * |key|
    ensures result == Hash(key, InputBits(input), 8 * |input|)
  {
    hide ByteBits, Xor, Hash;
    result := ZERO;
    assert result == Hash(key, InputBits(input), 0) by { HashOfNothing(key, InputBits(input)); }
    var window: Word := Vec(ByteBits(key[3]) + ByteBits(key[2]) + ByteBits(key[1]) + ByteBits(key[0]));
    PrimedWindow(key);
    var nextBit := 32;
    for b := 0 to |input|
      invariant nextBit == 8 * b + 32
      invariant window == KeyWindow(key, 8 * b)
      invariant result == Hash(key, InputBits(input), 8 * b)
    {
      var bit := 7;
      while bit >= 0
        invariant -1 <= bit <= 7 && nextBit == 8 * b + 7 - bit + 32
        invariant window == KeyWindow(key, 8 * b + 7 - bit)
        invariant result == Hash(key, InputBits(input), 8 * b + 7 - bit)
      {
        ghost var i := 8 * b + 7 - bit;
        assert i / 8 == b && i % 8 == 7 - bit;
        assert InputBits(input)[i] == ByteBits(input[b])[bit];
        HashNext(key, InputBits(input), i);
        if ByteBits(input[b])[bit] {
          result := Xor(result, window);
        }
        var keyByte := key[nextBit / 8];
        var keyBit := ByteBits(keyByte)[7 - nextBit % 8];
        WindowSlides(key, i);
        window := Shl1(window, keyBit);
        nextBit := nextBit + 1;
        bit := bit - 1;
      }
    }
  }

  lemma HashOfNothing(key: seq<byte>, input: seq<bool>)
    requires 31 <= 8 * |key|
    ensures Hash(key, input, 0) == ZERO
  {
  }

  lemma HashNext(key: seq<byte>, input: seq<bool>, i: nat)
    requires i < |input| && i + 32 <= 8 * |key|
    ensures Hash(key, input, i + 1)
         == if input[i] then Xor(Hash(key, input, i), KeyWindow(key, i)) else Hash(key, input, i)
  {
    XorSelf(Hash(key, input, i));
  }

  // ---------------------------------------------------------------------- 4-tuples

  datatype Tuple = Tuple(srcIp: uint32, dstIp: uint32, srcPort: uint16, dstPort: uint16)

  function Be16(x: uint16): seq<byte> {
    [x / 0x100, x % 0x100]
  }

  function Be32(x: uint32): seq<byte> {
    Be16(x / 0x1_0000) + Be16(x % 0x1_0000)
  }

  /** The 12 input bytes, all in network order. */
  function TupleBytes(t: Tuple): (b: seq<byte>)
    ensures |b| == 12
  {
    Be32(t.srcIp) + Be32(t.dstIp) + Be16(t.srcPort) + Be16(t.dstPort)
  }

  const TUPLE_BITS: nat := 96

  function TupleHash(t: Tuple): Word {
    Hash(RSS_KEY, InputBits(TupleBytes(t)), TUPLE_BITS)
  }

  // ------------------------------------------------------------------- field by field

  /**
   A field's share of the hash: the key window at `at` goes with its most significant
   bit, the next one with the next bit, for the first `n` bits.
   */
  function FieldHash(bits: seq<bool>, at: nat, n: nat): Word
    requires n <= |bits| && at + n + 31 <= 8 * |RSS_KEY|
  {
    if n == 0 then ZERO
    else Xor(FieldHash(bits, at, n - 1),
             if bits[|bits| - n] then KeyWindow(RSS_KEY, at + n - 1) else ZERO)
  }

  const IP_BITS: nat := 32
  const PORT_BITS: nat := 16

  /**
   By the fields alone: bit j of the source address goes with key bits [31 - j, 63 - j),
   of the destination address with [63 - j, 95 - j), of the source port with
   [79 - j, 111 - j), of the destination port with [95 - j, 127 - j).
   */
  function FourFieldHash(srcIp: uint32, dstIp: uint32, srcPort: uint16, dstPort: uint16): Word {
    Xor(Xor(FieldHash(BitsOf(srcIp, IP_BITS), 0, IP_BITS), FieldHash(BitsOf(dstIp, IP_BITS), 32, IP_BITS)),
        Xor(FieldHash(BitsOf(srcPort, PORT_BITS), 64, PORT_BITS), FieldHash(BitsOf(dstPort, PORT_BITS), 80, PORT_BITS)))
  }

  lemma Be16Bits(x: uint16, i: nat)
    requires i < 16
    ensures |Be16(x)| == 2 && BitOf(Be16(x), i) == BitsOf(x, PORT_BITS)[15 - i]
  {
    hide BitsOf;
    var hi, lo := x / 0x100, x % 0x100;
    PowersUsed();
    BitsConcat(BYTE, BYTE, lo, hi);
    assert BitsOf(x, PORT_BITS) == ByteBits(lo) + ByteBits(hi);
    assert Be16(x)[0] == hi && Be16(x)[1] == lo;
  }

  lemma PowersUsed()
    ensures Pow2(BYTE) == 0x100 && Pow2(PORT_BITS) == 0x1_0000
  {
    assert Pow2(8) == 256;
    assert Pow2(16) == 0x1_0000;
  }

  lemma Be32Bits(x: uint32, i: nat)
    requires i < 32
    ensures |Be32(x)| == 4 && BitOf(Be32(x), i) == BitsOf(x, IP_BITS)[31 - i]
  {
    hide BitsOf, ByteBits;
    var hi, lo := x / 0x1_0000, x % 0x1_0000;
    PowersUsed();
    BitsConcat(PORT_BITS, PORT_BITS, lo, hi);
    assert BitsOf(x, IP_BITS) == BitsOf(lo, PORT_BITS) + BitsOf(hi, PORT_BITS);
    if i < 16 {
      Be16Bits(hi, i);
      BitOfConcat(Be16(hi), Be16(lo), i);
    } else {
      Be16Bits(lo, i - 16);
      BitOfConcat(Be16(hi), Be16(lo), i);
    }
  }

  lemma BitOfConcat(a: seq<byte>, b: seq<byte>, i: nat)
    requires i < 8 * (|a| + |b|)
    ensures BitOf(a + b, i) == if i < 8 * |a| then BitOf(a, i) else BitOf(b, i - 8 * |a|)
  {
    hide ByteBits;
  }

  /** The bits of the input, field by field, each most significant bit first. */
  lemma TupleBitAt(t: Tuple, i: nat)
    requires i < 96
    ensures InputBits(TupleBytes(t))[i] ==
              if i < 32 then BitsOf(t.srcIp, IP_BITS)[31 - i]
              else if i < 64 then BitsOf(t.dstIp, IP_BITS)[63 - i]
              else if i < 80 then BitsOf(t.srcPort, PORT_BITS)[79 - i]
              else BitsOf(t.dstPort, PORT_BITS)[95 - i]
  {
    hide BitOf, BitsOf, Be16, Be32;
    Lengths(t);
    var a, b, c, d := Be32(t.srcIp), Be32(t.dstIp), Be16(t.srcPort), Be16(t.dstPort);
    BitOfConcat(a + b + c, d, i);
    if i < 80 { BitOfConcat(a + b, c, i); } else { Be16Bits(t.dstPort, i - 80); }
    if i < 64 { BitOfConcat(a, b, i); } else if i < 80 { Be16Bits(t.srcPort, i - 64); }
    if i < 32 { Be32Bits(t.srcIp, i); } else if i < 64 { Be32Bits(t.dstIp, i - 32); }
  }

  lemma Lengths(t: Tuple)
    ensures |Be32(t.srcIp)| == 4 && |Be32(t.dstIp)| == 4 && |Be16(t.srcPort)| == 2 && |Be16(t.dstPort)| == 2
  {
  }

  /** From place `at` on, the input reads the field's top `n` bits, most significant first. */
  ghost predicate Spells(input: seq<bool>, at: nat, bits: seq<bool>, n: nat)
    requires n <= |bits| && at + n <= |input|
  {
    forall i :: at <= i < at + n ==> input[i] == bits[|bits| - 1 - (i - at)]
  }

  /** A stretch of input that spells a field, most significant bit first, adds that field's share. */
  lemma {:induction false} HashOverField(input: seq<bool>, bits: seq<bool>, at: nat, n: nat)
    requires n <= |bits| && at + n <= |input| && at + n + 31 <= 8 * |RSS_KEY|
    requires Spells(input, at, bits, n)
    ensures Hash(RSS_KEY, input, at + n) == Xor(Hash(RSS_KEY, input, at), FieldHash(bits, at, n))
    decreases n
  {
    hide Xor, KeyWindow;
    if n == 0 {
      XorSelf(Hash(RSS_KEY, input, at));
    } else {
      HashOverField(input, bits, at, n - 1);
      assert input[at + (n - 1)] == bits[|bits| - n];
      XorAssoc(Hash(RSS_KEY, input, at), FieldHash(bits, at, n - 1),
               if bits[|bits| - n] then KeyWindow(RSS_KEY, at + n - 1) else ZERO);
    }
  }

  lemma XorAssoc(a: Word, b: Word, c: Word)
    ensures Xor(Xor(a, b), c) == Xor(a, Xor(b, c))
  {
    SameBits(Xor(Xor(a, b), c), Xor(a, Xor(b, c)));
  }

  lemma TupleSpells(t: Tuple)
    ensures var input := InputBits(TupleBytes(t));
            && Spells(input, 0, BitsOf(t.srcIp, IP_BITS), IP_BITS)
            && Spells(input, 32, BitsOf(t.dstIp, IP_BITS), IP_BITS)
            && Spells(input, 64, BitsOf(t.srcPort, PORT_BITS), PORT_BITS)
            && Spells(input, 80, BitsOf(t.dstPort, PORT_BITS), PORT_BITS)
  {
    hide BitsOf, TupleBytes, BitOf;
    var input := InputBits(TupleBytes(t));
    forall i | 0 <= i < 32 ensures input[i] == BitsOf(t.srcIp, IP_BITS)[31 - i] { TupleBitAt(t, i); }
    forall i | 32 <= i < 64 ensures input[i] == BitsOf(t.dstIp, IP_BITS)[63 - i] { TupleBitAt(t, i); }
    forall i | 64 <= i < 80 ensures input[i] == BitsOf(t.srcPort, PORT_BITS)[79 - i] { TupleBitAt(t, i); }
    forall i | 80 <= i < 96 ensures input[i] == BitsOf(t.dstPort, PORT_BITS)[95 - i] { TupleBitAt(t, i); }
  }

  /** Which field meets which key bits. */
  lemma HashByFields(t: Tuple)
    ensures TupleHash(t) == FourFieldHash(t.srcIp, t.dstIp, t.srcPort, t.dstPort)
  {
    hide Hash, FieldHash, Xor, BitsOf, TupleBytes, InputBits, Spells, TupleHash, FourFieldHash, Joined;
    TupleSpells(t);
    FourStretches(InputBits(TupleBytes(t)), BitsOf(t.srcIp, IP_BITS), BitsOf(t.dstIp, IP_BITS),
                  BitsOf(t.srcPort, PORT_BITS), BitsOf(t.dstPort, PORT_BITS));
    DefinedBy(t);
  }

  lemma DefinedBy(t: Tuple)
    ensures TupleHash(t) == Hash(RSS_KEY, InputBits(TupleBytes(t)), 96)
    ensures FourFieldHash(t.srcIp, t.dstIp, t.srcPort, t.dstPort)
         == Joined(BitsOf(t.srcIp, IP_BITS), BitsOf(t.dstIp, IP_BITS),
                   BitsOf(t.srcPort, PORT_BITS), BitsOf(t.dstPort, PORT_BITS))
  {
    hide Hash, FieldHash, Xor, BitsOf, TupleBytes, InputBits;
  }

  function Joined(a: seq<bool>, b: seq<bool>, c: seq<bool>, d: seq<bool>): Word
    requires |a| == |b| == 32 && |c| == |d| == 16
  {
    Xor(Xor(FieldHash(a, 0, IP_BITS), FieldHash(b, 32, IP_BITS)),
        Xor(FieldHash(c, 64, PORT_BITS), FieldHash(d, 80, PORT_BITS)))
  }

  lemma FourStretches(input: seq<bool>, a: seq<bool>, b: seq<bool>, c: seq<bool>, d: seq<bool>)
    requires |input| == 96 && |a| == |b| == 32 && |c| == |d| == 16
    requires Spells(input, 0, a, IP_BITS) && Spells(input, 32, b, IP_BITS)
    requires Spells(input, 64, c, PORT_BITS) && Spells(input, 80, d, PORT_BITS)
    ensures Hash(RSS_KEY, input, 96) == Joined(a, b, c, d)
  {
    hide Hash, FieldHash, Xor, Spells;
    HashOverField(input, a, 0, IP_BITS);
    HashOverField(input, b, 32, IP_BITS);
    HashOverField(input, c, 64, PORT_BITS);
    HashOverField(input, d, 80, PORT_BITS);
    HashOfNothing(RSS_KEY, input);
    var x, y := FieldHash(a, 0, IP_BITS), FieldHash(b, 32, IP_BITS);
    XorZero(x);
    XorAssoc(Xor(x, y), FieldHash(c, 64, PORT_BITS), FieldHash(d, 80, PORT_BITS));
  }

  lemma XorZero(a: Word)
    ensures Xor(ZERO, a) == a
  {
    SameBits(Xor(ZERO, a), a);
  }

  method ToeplitzHash(srcIp: uint32, dstIp: uint32, srcPort: uint16, dstPort: uint16)
    returns (result: Word)
    ensures result == FourFieldHash(srcIp, dstIp, srcPort, dstPort)
    ensures result == TupleHash(Tuple(srcIp, dstIp, srcPort, dstPort))
  {
    hide Hash, TupleBytes, FourFieldHash;
    HashByFields(Tuple(srcIp, dstIp, srcPort, dstPort));
    result := SlidingHash(RSS_KEY, TupleBytes(Tuple(srcIp, dstIp, srcPort, dstPort)));
  }

  /** `d` is the bitwise XOR of `s` and `t`, field by field. */
  ghost predicate XorOf(d: Tuple, s: Tuple, t: Tuple) {
    && BitsOf(d.srcIp, IP_BITS) == XorBits(BitsOf(s.srcIp, IP_BITS), BitsOf(t.srcIp, IP_BITS))
    && BitsOf(d.dstIp, IP_BITS) == XorBits(BitsOf(s.dstIp, IP_BITS), BitsOf(t.dstIp, IP_BITS))
    && BitsOf(d.srcPort, PORT_BITS) == XorBits(BitsOf(s.srcPort, PORT_BITS), BitsOf(t.srcPort, PORT_BITS))
    && BitsOf(d.dstPort, PORT_BITS) == XorBits(BitsOf(s.dstPort, PORT_BITS), BitsOf(t.dstPort, PORT_BITS))
  }

  /** Flipping bits of the fields flips hash bits by an amount that depends only on which bits flipped. */
  lemma TupleHashLinear(s: Tuple, t: Tuple, d: Tuple)
    requires XorOf(d, s, t)
    ensures TupleHash(d) == Xor(TupleHash(s), TupleHash(t))
  {
    hide Hash, Xor, TupleBytes, BitsOf, BitOf;
    var a, b, c := InputBits(TupleBytes(s)), InputBits(TupleBytes(t)), InputBits(TupleBytes(d));
    forall i | 0 <= i < 96 ensures c[i] == (a[i] != b[i]) {
      TupleBitAt(s, i);
      TupleBitAt(t, i);
      TupleBitAt(d, i);
    }
    assert c == XorBits(a, b);
    HashLinear(RSS_KEY, a, b, TUPLE_BITS);
  }
}
