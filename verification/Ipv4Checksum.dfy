/**
 The IPv4 header check (section 3.1 of RFC 791): add the 16-bit words, fold the
 carries back in, and compare with all ones.
 */
module Ipv4Checksum {
  import opened Words

  /** Big-endian 16-bit word at `i`. */
  function Rd16(m: seq<byte>, i: nat): (w: nat)
    requires i + 1 < |m|
    ensures w <= 0xFFFF
  {
    var hi: nat, lo: nat := m[i], m[i + 1];
    hi * 0x100 + lo
  }

  /** The header length its first byte declares: four times its low half, whatever the version above. */
  function HeaderLen(m: seq<byte>): (n: nat)
    requires |m| > 0
    ensures forall v: nat, k: nat :: k < 16 && m[0] == 16 * v + k ==> n == 4 * k
    ensures n <= 60 && n % 4 == 0
  {
    m[0] % 16 * 4
  }

  /** Two bytes as a word, the first one on top. */
  function Pair(hi: nat, lo: nat): nat {
    0x100 * hi + lo
  }

  /** Sum of the words below byte `n`. */
  function WordSum(m: seq<byte>, n: nat): (s: nat)
    requires n <= |m| && n % 2 == 0
    ensures s <= 0xFFFF * (n / 2)
  {
    if n == 0 then 0 else WordSum(m, n - 2) + Pair(m[n - 2], m[n - 1])
  }

  /** A header of `n` bytes is good when its word sum is a positive multiple of 65535. */
  predicate Good(m: seq<byte>, n: nat)
    requires n <= |m| && n % 2 == 0
  {
    WordSum(m, n) > 0 && WordSum(m, n) % 0xFFFF == 0
  }

  lemma FoldKeepsResidue(sum: nat)
    ensures (sum % 0x1_0000 + sum / 0x1_0000) % 0xFFFF == sum % 0xFFFF
    ensures sum > 0 ==> sum % 0x1_0000 + sum / 0x1_0000 > 0
  {
    var hi, lo := sum / 0x1_0000, sum % 0x1_0000;
    assert sum == 0xFFFF * hi + (hi + lo);
  }

  /**
   Add up, fold until it fits, compare: the 32-bit sum never overflows on the way. A first
   byte 16 * v + k has exactly the first 4 * k bytes examined.
   */
  method ChecksumValid(m: seq<byte>, ghost v: nat, ghost k: nat) returns (ok: bool)
    requires |m| > 0 && k < 16 && m[0] == 16 * v + k && 4 * k <= |m|
    ensures ok <==> Good(m, 4 * k)
  {
    var hl := HeaderLen(m);
    var sum := 0;
    var i := 0;
    while i + 1 < hl
      invariant 0 <= i <= hl && i % 2 == 0
      invariant sum == WordSum(m, i) && sum <= 0xFFFF * (i / 2) < 0x1_0000_0000
    {
      sum := sum + Rd16(m, i);
      i := i + 2;
    }
    ghost var total := sum;
    while sum / 0x1_0000 != 0
      invariant sum % 0xFFFF == total % 0xFFFF && (sum > 0 <==> total > 0)
      invariant 0 <= sum < 0x1_0000_0000
      decreases sum
    {
      FoldKeepsResidue(sum);
      sum := sum % 0x1_0000 + sum / 0x1_0000;
    }
    ok := sum == 0xFFFF;
  }

  // -------------------------------------------------------------- storing a checksum

  /** Ones'-complement reduction of a word sum to 16 bits. */
  function Fold(sum: nat): (f: nat)
    ensures f <= 0xFFFF && f % 0xFFFF == sum % 0xFFFF && (f > 0 <==> sum > 0)
  {
    if sum == 0 then 0 else 1 + (sum - 1) % 0xFFFF
  }

  /** The header with the complement of its folded sum stored, high byte first, in bytes 10 and 11. */
  function WithChecksum(m: seq<byte>, n: nat): (r: seq<byte>)
    requires 20 <= n <= |m| && n % 2 == 0
    ensures |r| == |m| && forall i :: 0 <= i < |m| && i != 10 && i != 11 ==> r[i] == m[i]
    ensures var f := Fold(WordSum(m, n)); Pair(r[10], r[11]) + f == 0xFFFF
  {
    var c := 0xFFFF - Fold(WordSum(m, n));
    m[10 := c / 0x100][11 := c % 0x100]
  }

  lemma {:induction false} SumWithField(m: seq<byte>, r: seq<byte>, n: nat)
    requires |r| == |m| && n <= |m| && n % 2 == 0 && |m| >= 20
    requires forall i :: 0 <= i < |m| && i != 10 && i != 11 ==> r[i] == m[i]
    ensures n <= 10 ==> WordSum(r, n) == WordSum(m, n)
    ensures n > 10 ==>
              WordSum(r, n) == WordSum(m, n) - Pair(m[10], m[11]) + Pair(r[10], r[11])
  {
    if n > 0 {
      SumWithField(m, r, n - 2);
    }
  }

  /**
   A version-4 header of 20 to 60 bytes whose checksum field was zero passes once its
   checksum is stored, and nothing else in it has changed.
   */
  lemma StoredChecksumIsGood(m: seq<byte>, k: nat)
    requires 5 <= k < 16 && 4 * k <= |m| && m[0] == 16 * 4 + k && m[10] == 0 && m[11] == 0
    ensures var r := WithChecksum(m, 4 * k);
            r[0] == m[0] && HeaderLen(r) == 4 * k && Good(r, 4 * k)
  {
    var r, n := WithChecksum(m, 4 * k), 4 * k;
    SumWithField(m, r, n);
    assert WordSum(r, n) == WordSum(m, n) + (0xFFFF - Fold(WordSum(m, n)));
    assert r[0] == 16 * 4 + k;
  }
}
