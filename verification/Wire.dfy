/**
 The TCP-Lite wire format: a packed 16-byte little-endian header, a payload, and
 a CRC-32 over both with the checksum field read as zero.
 */
module Wire {
  import opened Words
  import opened Crc32

  const TCP_ACK: uint16 := 0x02
  const MAX_PAYLOAD: nat := 1024

  datatype Header = Header(seqNum: uint32, ackNum: uint32, flags: uint16,
                           payloadLen: uint16, checksum: Word)

  /** A wire packet, or the bytes a pool buffer holds. */
  datatype Packet = Packet(header: Header, payload: seq<byte>)

  predicate HasAck(h: Header) {
    h.flags / 2 % 2 == 1
  }

  /** What a receiver reads of a buffer: the header and as many bytes as it declares. */
  function View(p: Packet): (v: Packet)
    ensures v.header == p.header
    ensures p.header.payloadLen == |p.payload| ==> v == p
  {
    if p.header.payloadLen <= |p.payload| then p.(payload := p.payload[..p.header.payloadLen]) else p
  }

  // -------------------------------------------------------------------- layout

  function Le16(x: uint16): (b: seq<byte>)
    ensures |b| == 2
  {
    [x % 0x100, x / 0x100]
  }

  function Le32(x: uint32): (b: seq<byte>)
    ensures |b| == 4
  {
    Le16(x % 0x1_0000) + Le16(x / 0x1_0000)
  }

  /** Header bytes with the checksum field zeroed. */
  function HeaderBytes(h: Header): (b: seq<byte>)
    ensures |b| == 16
  {
    Le32(h.seqNum) + Le32(h.ackNum) + Le16(h.flags) + Le16(h.payloadLen) + [0, 0, 0, 0]
  }

  /** The number four bytes spell, least significant first. */
  function Little(a: nat, b: nat, c: nat, d: nat): nat {
    a + 0x100 * b + 0x1_0000 * c + 0x100_0000 * d
  }

  /** Where each field lies in the packed header: sequence, acknowledgement, flags, length, checksum as 0. */
  lemma HeaderLayout(h: Header)
    ensures var b := HeaderBytes(h);
            && Little(b[0], b[1], b[2], b[3]) == h.seqNum
            && Little(b[4], b[5], b[6], b[7]) == h.ackNum
            && Little(b[8], b[9], 0, 0) == h.flags
            && Little(b[10], b[11], 0, 0) == h.payloadLen
            && b[12..] == [0, 0, 0, 0]
  {
    Le32Spells(h.seqNum);
    Le32Spells(h.ackNum);
    hide Le32;
    var b := HeaderBytes(h);
    assert b[..4] == Le32(h.seqNum) && b[4..8] == Le32(h.ackNum);
    assert b[8..10] == Le16(h.flags) && b[10..12] == Le16(h.payloadLen);
  }

  lemma Le32Spells(x: uint32)
    ensures var b := Le32(x); Little(b[0], b[1], b[2], b[3]) == x
  {
    var hi, lo := x / 0x1_0000, x % 0x1_0000;
    assert Le32(x)[0] == lo % 0x100 && Le32(x)[1] == lo / 0x100;
    assert Le32(x)[2] == hi % 0x100 && Le32(x)[3] == hi / 0x100;
  }

  /** The acknowledgement flag is the second bit, alone or among others. */
  lemma AckFlag(h: Header, low: nat, high: nat)
    requires low < 2
    ensures h.flags == 4 * high + 2 + low ==> HasAck(h)
    ensures h.flags == 4 * high + low ==> !HasAck(h)
  {
  }

  /** Bytes after the declared length are not read. */
  lemma ViewIgnoresTail(p: Packet, tail: seq<byte>)
    requires p.header.payloadLen == |p.payload|
    ensures View(p.(payload := p.payload + tail)) == p
  {
    assert (p.payload + tail)[..|p.payload|] == p.payload;
  }

  /** The bytes a packet's checksum covers. */
  function Covered(p: Packet): seq<byte> {
    HeaderBytes(p.header) + p.payload
  }

  lemma Le32Injective(x: uint32, y: uint32)
    requires Le32(x) == Le32(y)
    ensures x == y
  {
    assert Le32(x)[0] == x % 0x1_0000 % 0x100 && Le32(x)[1] == x % 0x1_0000 / 0x100;
    assert Le32(x)[2] == x / 0x1_0000 % 0x100 && Le32(x)[3] == x / 0x1_0000 / 0x100;
    assert Le32(y)[0] == y % 0x1_0000 % 0x100 && Le32(y)[1] == y % 0x1_0000 / 0x100;
    assert Le32(y)[2] == y / 0x1_0000 % 0x100 && Le32(y)[3] == y / 0x1_0000 / 0x100;
  }

  lemma Le16Injective(x: uint16, y: uint16)
    requires Le16(x) == Le16(y)
    ensures x == y
  {
    assert Le16(x)[0] == x % 0x100 && Le16(x)[1] == x / 0x100;
    assert Le16(y)[0] == y % 0x100 && Le16(y)[1] == y / 0x100;
  }

  /** The covered bytes determine everything but the checksum field. */
  lemma CoveredInjective(p: Packet, q: Packet)
    requires Covered(p) == Covered(q)
    ensures p.payload == q.payload && p.header.(checksum := q.header.checksum) == q.header
  {
    var a, b := Covered(p), Covered(q);
    assert a[..4] == Le32(p.header.seqNum) && b[..4] == Le32(q.header.seqNum);
    assert a[4..8] == Le32(p.header.ackNum) && b[4..8] == Le32(q.header.ackNum);
    assert a[8..10] == Le16(p.header.flags) && b[8..10] == Le16(q.header.flags);
    assert a[10..12] == Le16(p.header.payloadLen) && b[10..12] == Le16(q.header.payloadLen);
    assert a[16..] == p.payload && b[16..] == q.payload;
    Le32Injective(p.header.seqNum, q.header.seqNum);
    Le32Injective(p.header.ackNum, q.header.ackNum);
    Le16Injective(p.header.flags, q.header.flags);
    Le16Injective(p.header.payloadLen, q.header.payloadLen);
  }

  // ------------------------------------------------------------------ checksum

  function Checksum(p: Packet): Word {
    BitwiseCrc(Covered(p))
  }

  predicate Verifies(p: Packet) {
    p.header.checksum == Checksum(p)
  }

  function Sealed(p: Packet): Packet {
    p.(header := p.header.(checksum := Checksum(p)))
  }

  method ComputeChecksum(p: Packet) returns (r: Packet)
    ensures r.payload == p.payload && r.header.(checksum := p.header.checksum) == p.header
    ensures Verifies(r)
    ensures r == Sealed(p)
  {
    var crc := Crc32Seg(HeaderBytes(p.header), p.payload);
    r := p.(header := p.header.(checksum := crc));
    SealedVerifies(p);
  }

  method VerifyChecksum(p: Packet) returns (ok: bool)
    ensures ok <==> Verifies(p)
  {
    var crc := Crc32Seg(HeaderBytes(p.header), p.payload);
    ok := crc == p.header.checksum;
  }

  lemma SealedVerifies(p: Packet)
    ensures Verifies(Sealed(p))
  {
    hide BitwiseCrc;
    assert HeaderBytes(Sealed(p).header) == HeaderBytes(p.header);
  }

  /**
   `verify_checksum` with one fixed length: a packet altered within four consecutive
   covered bytes, its checksum field intact, no longer verifies.
   */
  lemma BurstRejected(p: Packet, q: Packet, k: nat)
    requires Verifies(p) && p != q
    requires q.header.checksum == p.header.checksum && |q.payload| == |p.payload|
    requires forall i :: 0 <= i < |Covered(p)| && Covered(p)[i] != Covered(q)[i] ==> k <= i < k + 4
    ensures !Verifies(q)
  {
    hide BitwiseCrc;
    if Covered(p) == Covered(q) {
      CoveredInjective(p, q);
    }
    FourByteBurstDetected(Covered(p), Covered(q), k);
  }

  /** As received: the same, when the burst spares the length field that says how far to read. */
  lemma BurstDropped(p: Packet, q: Packet, k: nat)
    requires Verifies(View(p)) && View(p) != View(q)
    requires q.header.checksum == p.header.checksum && q.header.payloadLen == p.header.payloadLen
    requires |q.payload| == |p.payload|
    requires var a, b := Covered(View(p)), Covered(View(q));
             |a| == |b| && forall i :: 0 <= i < |a| && a[i] != b[i] ==> k <= i < k + 4
    ensures !Verifies(View(q))
  {
    hide Verifies, Covered;
    BurstRejected(View(p), View(q), k);
  }

  // ----------------------------------------------------------- packets sent

  /** `make_data` plus its checksum. */
  function DataPacket(seqNum: uint32, ackNum: uint32, payload: seq<byte>): (p: Packet)
    requires |payload| <= MAX_PAYLOAD
    ensures p.payload == payload && p.header.payloadLen == |payload|
    ensures p.header.seqNum == seqNum && p.header.ackNum == ackNum && p.header.flags == 2
    ensures HasAck(p.header)
  {
    Sealed(Packet(Header(seqNum, ackNum, TCP_ACK, |payload|, ZERO), payload))
  }

  /** `make_ack`. */
  function AckPacket(seqNum: uint32, ackNum: uint32): (p: Packet)
    ensures p.payload == [] && p.header.payloadLen == 0 && p.header.flags == 2
    ensures p.header.seqNum == seqNum && p.header.ackNum == ackNum && HasAck(p.header)
  {
    Sealed(Packet(Header(seqNum, ackNum, TCP_ACK, 0, ZERO), []))
  }

  lemma SentPacketsVerify(seqNum: uint32, ackNum: uint32, payload: seq<byte>)
    requires |payload| <= MAX_PAYLOAD
    ensures Verifies(DataPacket(seqNum, ackNum, payload))
    ensures Verifies(AckPacket(seqNum, ackNum))
  {
    SealedVerifies(Packet(Header(seqNum, ackNum, TCP_ACK, |payload|, ZERO), payload));
    SealedVerifies(Packet(Header(seqNum, ackNum, TCP_ACK, 0, ZERO), []));
  }
}
