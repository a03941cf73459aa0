/**
 The reflected CRC-32 of section 8 of RFC 1952, as TCP-Lite computes it: a
 256-entry table and two loops, one over the header and one over the payload.
 The reference is the bit-serial shift register, fed one message bit at a time.
 */
module Crc32 {
  import opened Words

  const WORD: nat := 32

  /** The reflected polynomial. */
  const POLY: Word := Vec(BitsOf(0xEDB8_8320, WORD))

  lemma PolynomialTop()
    ensures POLY.bits[31]
  {
    hide BitsOf;
    PolynomialTerms(0);
  }

  /** The exponents of the generator below 32 (section 8 of RFC 1952); bit 31 - e stands for x^e. */
  const GENERATOR: set<nat> := {26, 23, 22, 16, 12, 11, 10, 8, 7, 5, 4, 2, 1, 0}

  lemma PolynomialTerms(e: nat)
    requires e < 32
    ensures POLY.bits[31 - e] <==> e in GENERATOR
  {
    hide Halved;
    BitsOfAt(0xEDB8_8320, WORD, 31 - e);
    NibbleOf(31 - e);
  }

  /** Bit `i` of the polynomial, one hexadecimal digit at a time. */
  lemma NibbleOf(i: nat)
    requires i < 32
    ensures Halved(0xEDB8_8320, i) % 2 == 1 <==> 31 - i in GENERATOR
  {
    hide Halved;
    if i >= 4 { FourHalvings(0xEDB8_8320, i); }
    if i >= 8 { FourHalvings(0xEDB_8832, i - 4); }
    if i >= 12 { FourHalvings(0xED_B883, i - 8); }
    if i >= 16 { FourHalvings(0xE_DB88, i - 12); }
    if i >= 20 { FourHalvings(0xEDB8, i - 16); }
    if i >= 24 { FourHalvings(0xEDB, i - 20); }
    if i >= 28 { FourHalvings(0xED, i - 24); }
    var digit := if i < 4 then 0xEDB8_8320 else if i < 8 then 0xEDB_8832 else if i < 12 then 0xED_B883
                 else if i < 16 then 0xE_DB88 else if i < 20 then 0xEDB8 else if i < 24 then 0xEDB
                 else if i < 28 then 0xED else 0xE;
    DigitBit(digit, i % 4);
  }

  lemma DigitBit(n: nat, k: nat)
    requires k < 4
    ensures Halved(n, k) == n / (if k == 0 then 1 else if k == 1 then 2 else if k == 2 then 4 else 8)
  {
    hide Halved;
    OneHalving(n, k);
    if k > 0 { OneHalving(n / 2, k - 1); }
    if k > 1 { OneHalving(n / 4, k - 2); }
    if k > 2 { OneHalving(n / 8, k - 3); }
  }

  lemma OneHalving(n: nat, k: nat)
    ensures Halved(n, k) == if k == 0 then n else Halved(n / 2, k - 1)
  {
  }

  lemma FourHalvings(n: nat, k: nat)
    requires k >= 4
    ensures Halved(n, k) == Halved(n / 16, k - 4)
  {
    assert Halved(n, k) == Halved(n / 2, k - 1) == Halved(n / 4, k - 2) == Halved(n / 8, k - 3);
  }

  // ---------------------------------------------------------------- reference

  /** One shift of the register. */
  function BitStep(r: Word): Word {
    if r.bits[0] then Xor(POLY, Shr(r, 1)) else Shr(r, 1)
  }

  function Unit(bit: bool): (r: Word)
    ensures r.bits[0] == bit && forall i :: 1 <= i < 32 ==> !r.bits[i]
  {
    Widen([bit])
  }

  /** The register after absorbing `bits`, first bit first. */
  function BitSerial(r: Word, bits: seq<bool>): Word
    decreases |bits|
  {
    if bits == [] then r else BitSerial(BitStep(Xor(r, Unit(bits[0]))), bits[1..])
  }

  /** A message as the bit string the register sees. */
  function Bits(m: seq<byte>): (bits: seq<bool>)
    ensures |bits| == 8 * |m|
  {
    if m == [] then [] else ByteBits(m[0]) + Bits(m[1..])
  }

  /** CRC-32 by definition: preset to ones, feed every bit, complement. */
  function BitwiseCrc(m: seq<byte>): Word {
    Xor(BitSerial(ONES, Bits(m)), ONES)
  }

  // ------------------------------------------------------------ linear algebra

  lemma BitStepAt(r: Word, i: nat)
    requires i < 32
    ensures BitStep(r).bits[i]
         == ((r.bits[0] && POLY.bits[i]) != (i < 31 && r.bits[i + 1]))
  {
  }

  lemma BitStepLinear(a: Word, b: Word)
    ensures BitStep(Xor(a, b)) == Xor(BitStep(a), BitStep(b))
  {
    forall i | 0 <= i < 32
      ensures BitStep(Xor(a, b)).bits[i] == Xor(BitStep(a), BitStep(b)).bits[i]
    {
      BitStepAt(Xor(a, b), i);
      BitStepAt(a, i);
      BitStepAt(b, i);
    }
    SameBits(BitStep(Xor(a, b)), Xor(BitStep(a), BitStep(b)));
  }

  /** `n` shifts with no input. */
  function Steps(r: Word, n: nat): Word
    decreases n
  {
    if n == 0 then r else Steps(BitStep(r), n - 1)
  }

  lemma {:induction false} StepsLinear(a: Word, b: Word, n: nat)
    ensures Steps(Xor(a, b), n) == Xor(Steps(a, n), Steps(b, n))
    decreases n
  {
    if n > 0 {
      BitStepLinear(a, b);
      StepsLinear(BitStep(a), BitStep(b), n - 1);
    }
  }

  lemma ShrShr(w: Word, n: nat)
    requires n < 32
    ensures Shr(Shr(w, 1), n) == Shr(w, n + 1) && Shr(w, 0) == w
  {
    SameBits(Shr(Shr(w, 1), n), Shr(w, n + 1));
    SameBits(Shr(w, 0), w);
  }

  lemma AbsorbOne(r: Word, w: Word)
    ensures BitStep(Xor(r, w)) == Xor(BitStep(Xor(r, Unit(w.bits[0]))), Shr(w, 1))
  {
    var x, y := BitStep(Xor(r, w)), BitStep(Xor(r, Unit(w.bits[0])));
    forall i | 0 <= i < 32 ensures x.bits[i] == Xor(y, Shr(w, 1)).bits[i] {
      BitStepAt(Xor(r, w), i);
      BitStepAt(Xor(r, Unit(w.bits[0])), i);
    }
    SameBits(x, Xor(y, Shr(w, 1)));
  }

  /** Absorbing bits one by one is XOR-ing them in together and then shifting. */
  lemma {:induction false} WordAbsorbed(r: Word, w: Word, n: nat)
    requires n <= 32
    ensures Steps(Xor(r, w), n) == Xor(BitSerial(r, w.bits[..n]), Shr(w, n))
    decreases n
  {
    hide Xor, BitStep;
    if n == 0 {
      ShrShr(w, 0);
    } else {
      AbsorbOne(r, w);
      WordAbsorbed(BitStep(Xor(r, Unit(w.bits[0]))), Shr(w, 1), n - 1);
      assert Shr(w, 1).bits[..n - 1] == w.bits[..n][1..];
      ShrShr(w, n - 1);
    }
  }

  lemma {:induction false} BitSerialConcat(r: Word, u: seq<bool>, v: seq<bool>)
    ensures BitSerial(r, u + v) == BitSerial(BitSerial(r, u), v)
    decreases |u|
  {
    if u == [] {
      assert u + v == v;
    } else {
      assert (u + v)[1..] == u[1..] + v;
      BitSerialConcat(BitStep(Xor(r, Unit(u[0]))), u[1..], v);
    }
  }

  // -------------------------------------------------------------- table lookup

  /** Shifting a register whose low bits are clear never meets the polynomial. */
  lemma {:induction false} ClearSteps(r: Word, n: nat)
    requires n <= 32 && forall i :: 0 <= i < n ==> !r.bits[i]
    ensures Steps(r, n) == Shr(r, n)
    decreases n
  {
    if n == 0 {
      ShrShr(r, 0);
    } else {
      ClearSteps(Shr(r, 1), n - 1);
      ShrShr(r, n - 1);
    }
  }

  /** The table entry for a byte. */
  function Entry(b: byte): Word {
    Steps(Widen(ByteBits(b)), BYTE)
  }

  /** One byte of the loop: look the low byte up and shift the rest down. */
  function Lookup(r: Word, b: byte): Word {
    Xor(Entry(LowByte(Xor(r, Widen(ByteBits(b))))), Shr(r, 8))
  }

  lemma SplitByte(r: Word, w: Word)
    requires forall i :: 8 <= i < 32 ==> !w.bits[i]
    ensures Xor(Widen(Xor(r, w).bits[..8]), ClearLowByte(r)) == Xor(r, w)
    ensures Shr(ClearLowByte(r), BYTE) == Shr(r, 8)
    ensures Shr(w, BYTE) == ZERO
  {
    SameBits(Xor(Widen(Xor(r, w).bits[..8]), ClearLowByte(r)), Xor(r, w));
    SameBits(Shr(ClearLowByte(r), BYTE), Shr(r, 8));
    SameBits(Shr(w, BYTE), ZERO);
  }

  function ClearLowByte(r: Word): (hi: Word)
    ensures forall i :: 0 <= i < 32 ==> hi.bits[i] == (i >= 8 && r.bits[i])
  {
    Vec(seq(8, i => false) + r.bits[8..])
  }

  /** One table lookup does the work of eight register shifts. */
  lemma TableStep(r: Word, b: byte)
    ensures BitSerial(r, ByteBits(b)) == Lookup(r, b)
  {
    hide ByteBits, BitStep;
    var w := Widen(ByteBits(b));
    var x := Xor(r, w);
    var hi := ClearLowByte(r);
    assert w.bits[..8] == ByteBits(b);
    SplitByte(r, w);
    WordAbsorbed(r, w, BYTE);
    XorSelf(BitSerial(r, ByteBits(b)));
    StepsLinear(Widen(x.bits[..8]), hi, BYTE);
    ClearSteps(hi, BYTE);
    LowByteBits(x);
  }

  ghost predicate IsTable(t: seq<Word>) {
    |t| == 256 && forall b :: 0 <= b < 256 ==> t[b] == Entry(b)
  }

  /** The inner loop that fills one table entry. */
  method TableEntry(b: byte) returns (c: Word)
    ensures c == Entry(b)
  {
    c := Widen(ByteBits(b));
    var k := 0;
    while k < BYTE
      invariant k <= BYTE && Steps(c, BYTE - k) == Entry(b)
    {
      c := if c.bits[0] then Xor(POLY, Shr(c, 1)) else Shr(c, 1);
      k := k + 1;
    }
  }

  /** The lazily built lookup table. */
  method CrcTable() returns (t: array<Word>)
    ensures IsTable(t[..])
  {
    hide Entry;
    t := new Word[256];
    for i := 0 to 256
      invariant forall b :: 0 <= b < i ==> t[b] == Entry(b)
    {
      var c := TableEntry(i);
      t[i] := c;
    }
  }

  lemma {:induction false} BitsConcat(m: seq<byte>, m': seq<byte>)
    ensures Bits(m + m') == Bits(m) + Bits(m')
  {
    if m == [] {
      assert m + m' == m';
    } else {
      assert (m + m')[1..] == m[1..] + m';
      BitsConcat(m[1..], m');
    }
  }

  lemma AbsorbByte(r: Word, m: seq<byte>, i: nat)
    requires i < |m|
    ensures BitSerial(r, Bits(m[..i + 1])) == Lookup(BitSerial(r, Bits(m[..i])), m[i])
  {
    assert m[..i + 1] == m[..i] + [m[i]];
    BitsConcat(m[..i], [m[i]]);
    assert Bits([m[i]]) == ByteBits(m[i]);
    BitSerialConcat(r, Bits(m[..i]), ByteBits(m[i]));
    TableStep(BitSerial(r, Bits(m[..i])), m[i]);
  }

  lemma TableLookup(t: seq<Word>, r: Word, b: byte)
    requires IsTable(t)
    ensures Xor(t[LowByte(Xor(r, Widen(ByteBits(b))))], Shr(r, 8)) == Lookup(r, b)
  {
    var k := LowByte(Xor(r, Widen(ByteBits(b))));
    assert t[k] == Entry(k);
  }

  /** One of the two byte loops. */
  method AbsorbSegment(t: array<Word>, start: Word, m: seq<byte>) returns (crc: Word)
    requires IsTable(t[..])
    ensures crc == BitSerial(start, Bits(m))
  {
    crc := start;
    for i := 0 to |m|
      invariant crc == BitSerial(start, Bits(m[..i]))
    {
      AbsorbByte(start, m, i);
      TableLookup(t[..], crc, m[i]);
      crc := Xor(t[LowByte(Xor(crc, Widen(ByteBits(m[i]))))], Shr(crc, 8));
    }
    assert m[..|m|] == m;
  }

  /** The two table-driven loops compute the CRC of header followed by payload. */
  method Crc32Seg(h: seq<byte>, p: seq<byte>) returns (r: Word)
    ensures r == BitwiseCrc(h + p)
  {
    var t := CrcTable();
    var crc := AbsorbSegment(t, ONES, h);
    crc := AbsorbSegment(t, crc, p);
    BitsConcat(h, p);
    BitSerialConcat(ONES, Bits(h), Bits(p));
    r := Xor(crc, ONES);
  }

  // ------------------------------------------------------------ error detection

  lemma AbsorbLinear(a: Word, b: Word, x: bool, y: bool)
    ensures BitStep(Xor(Xor(a, b), Unit(x != y)))
         == Xor(BitStep(Xor(a, Unit(x))), BitStep(Xor(b, Unit(y))))
  {
    XorSwap(a, b, Unit(x), Unit(y));
    SameBits(Xor(Unit(x), Unit(y)), Unit(x != y));
    BitStepLinear(Xor(a, Unit(x)), Xor(b, Unit(y)));
  }

  /** The register is linear in its start value and its input together. */
  lemma {:induction false} BitSerialLinear(a: Word, b: Word, u: seq<bool>, v: seq<bool>)
    requires |u| == |v|
    ensures Xor(BitSerial(a, u), BitSerial(b, v)) == BitSerial(Xor(a, b), XorBits(u, v))
    decreases |u|
  {
    hide BitStep, Xor;
    if u != [] {
      AbsorbLinear(a, b, u[0], v[0]);
      BitSerialLinear(BitStep(Xor(a, Unit(u[0]))), BitStep(Xor(b, Unit(v[0]))), u[1..], v[1..]);
      assert XorBits(u[1..], v[1..]) == XorBits(u, v)[1..];
    }
  }

  /** All ones of `r` lie below bit `k`. */
  ghost predicate Below(r: Word, k: nat) {
    forall i :: k <= i < 32 ==> !r.bits[i]
  }

  /** Undoing one shift widens a register by at most one place, short of bit 31. */
  lemma BitStepBelow(r: Word, bit: bool, k: nat)
    requires k < 31 && Below(BitStep(Xor(r, Unit(bit))), k)
    ensures Below(r, k + 1)
  {
    var x := Xor(r, Unit(bit));
    PolynomialTop();
    BitStepAt(x, 31);
    forall i | k + 1 <= i < 32 ensures !r.bits[i] {
      BitStepAt(x, i - 1);
    }
  }

  lemma BitStepKernel(r: Word)
    requires Below(BitStep(r), 0)
    ensures Below(r, 0)
  {
    PolynomialTop();
    BitStepAt(r, 31);
    forall i | 1 <= i < 32 ensures !r.bits[i] {
      BitStepAt(r, i - 1);
    }
  }

  /**
   A register that ends at zero with input ones only in the next `k` places was
   below 2^k: the polynomial's top bit is out of reach.
   */
  lemma {:induction false} EndsAtZero(r: Word, d: seq<bool>, k: nat)
    requires k <= 31 && BitSerial(r, d) == ZERO
    requires forall i :: k <= i < |d| ==> !d[i]
    ensures Below(r, k)
    decreases |d|
  {
    if d != [] {
      var x := Xor(r, Unit(d[0]));
      EndsAtZero(BitStep(x), d[1..], if k == 0 then 0 else k - 1);
      if k == 0 {
        BitStepKernel(x);
        SameBits(x, r);
      } else {
        BitStepBelow(r, d[0], k - 1);
      }
    }
  }

  lemma FirstStep(bit: bool)
    ensures BitStep(Xor(ZERO, Unit(bit))) == if bit then POLY else ZERO
  {
    var r := BitStep(Xor(ZERO, Unit(bit)));
    forall i | 0 <= i < 32 ensures r.bits[i] == (if bit then POLY else ZERO).bits[i] {
      BitStepAt(Xor(ZERO, Unit(bit)), i);
    }
    SameBits(r, if bit then POLY else ZERO);
  }

  lemma {:induction false} BurstLeavesResidue(d: seq<bool>, lo: nat)
    requires exists i :: 0 <= i < |d| && d[i]
    requires forall i :: 0 <= i < |d| && d[i] ==> lo <= i < lo + 32
    ensures BitSerial(ZERO, d) != ZERO
    decreases |d|
  {
    FirstStep(d[0]);
    if d[0] {
      if BitSerial(ZERO, d) == ZERO {
        EndsAtZero(POLY, d[1..], 31);
        PolynomialTop();
      }
    } else {
      var i :| 0 <= i < |d| && d[i];
      assert d[1..][i - 1];
      BurstLeavesResidue(d[1..], if lo == 0 then 0 else lo - 1);
    }
  }

  /** Every error burst of at most 32 consecutive bits changes the register. */
  lemma BurstDetected(r: Word, u: seq<bool>, v: seq<bool>, lo: nat)
    requires |u| == |v| && u != v
    requires forall i :: 0 <= i < |u| && u[i] != v[i] ==> lo <= i < lo + 32
    ensures BitSerial(r, u) != BitSerial(r, v)
  {
    var i :| 0 <= i < |u| && u[i] != v[i];
    assert XorBits(u, v)[i];
    BitSerialLinear(r, r, u, v);
    XorSelf(r);
    BurstLeavesResidue(XorBits(u, v), lo);
    XorSelf(BitSerial(r, u));
  }

  lemma IndexPast(u: seq<bool>, v: seq<bool>, k: nat)
    requires k < |v|
    ensures (u + v)[|u| + k] == v[k]
  {
  }

  lemma {:induction false} BitsAt(m: seq<byte>, i: nat, j: nat)
    requires i < |m| && j < 8
    ensures Bits(m)[8 * i + j] == ByteBits(m[i])[j]
  {
    hide ByteBits;
    if i > 0 {
      BitsAt(m[1..], i - 1, j);
      IndexPast(ByteBits(m[0]), Bits(m[1..]), 8 * (i - 1) + j);
    }
  }

  lemma BytesDiffer(m: seq<byte>, m': seq<byte>, i: nat)
    requires |m| == |m'| && i < |m| && m[i] != m'[i]
    ensures Bits(m) != Bits(m')
  {
    if ByteBits(m[i]) == ByteBits(m'[i]) {
      ByteBitsInjective(m[i], m'[i]);
    }
    var j :| 0 <= j < 8 && ByteBits(m[i])[j] != ByteBits(m'[i])[j];
    BitsAt(m, i, j);
    BitsAt(m', i, j);
  }

  /** Any change confined to four consecutive bytes of a message changes its CRC. */
  lemma FourByteBurstDetected(m: seq<byte>, m': seq<byte>, k: nat)
    requires |m| == |m'| && m != m'
    requires forall i :: 0 <= i < |m| && m[i] != m'[i] ==> k <= i < k + 4
    ensures BitwiseCrc(m) != BitwiseCrc(m')
  {
    hide Bits, BitSerial, ByteBits;
    var u, v := Bits(m), Bits(m');
    forall j | 0 <= j < |u| && u[j] != v[j] ensures 8 * k <= j < 8 * k + 32 {
      BitsAt(m, j / 8, j % 8);
      BitsAt(m', j / 8, j % 8);
    }
    var i :| 0 <= i < |m| && m[i] != m'[i];
    BytesDiffer(m, m', i);
    BurstDetected(ONES, u, v, 8 * k);
    if BitwiseCrc(m) == BitwiseCrc(m') {
      XorCancel(BitSerial(ONES, u), BitSerial(ONES, v), ONES);
    }
  }
}
