/** IPv4 packets of net/ip.c and TCP segments of net/tcp.c, as bytes: what one side builds, the other
    side accepts and reads back. */
module Packets {
  import opened Arithmetic
  import opened Blocks
  import opened SectorCache
  import opened FatTable
  import opened Checksum

  const ETH_HEADER: nat := 14
  const ETH_TYPE_IP: nat := 0x0800
  const MAX_BEHIND: nat := 0xFFFF - ETH_HEADER   // bytes behind the Ethernet header of a frame with a 16-bit length
  const IP_HEADER: nat := 20
  const MAX_IP_HEADER: nat := 60
  const TCP_HEADER: nat := 20
  const PSEUDO_HEADER: nat := 12
  const ETH_MTU: nat := 1500
  const TCP_MSS: nat := 1460
  const IP_PROTO_TCP: Byte := 6
  const IP_CHECKSUM_AT: nat := 10
  const TCP_CHECKSUM_AT: nat := 16
  const TCP_WINDOW: nat := 4096

  type U16 = n: nat | n < 0x1_0000

  /** Big-endian, as htons and htonl store. */
  function Be16(n: U16): (b: seq<Byte>)
    ensures |b| == 2 && Get16(b, 0) == n
  {
    [n / 0x100, n % 0x100]
  }

  function Be32(n: Word): (b: seq<Byte>)
    ensures |b| == 4
  {
    [n / 0x100_0000, n / 0x1_0000 % 0x100, n / 0x100 % 0x100, n % 0x100]
  }

  function Get16(b: seq<Byte>, at: nat): U16
    requires at + 2 <= |b|
  {
    0x100 * b[at] as int + b[at + 1] as int
  }

  function Get32(b: seq<Byte>, at: nat): Word
    requires at + 4 <= |b|
  {
    Join32(b[at + 3], b[at + 2], b[at + 1], b[at])
  }

  lemma Get32OfBe32(n: Word)
    ensures Get32(Be32(n), 0) == n
  {
    SplitJoin32(n);
  }

  /** Both directions are network byte order. */
  lemma NetworkOrder(b: seq<Byte>, at: nat, n: Word)
    requires at + 2 <= |b|
    ensures Get16(b, at) == BigEndian(b[at..at + 2]) && (at + 4 <= |b| ==> Get32(b, at) == BigEndian(b[at..at + 4]))
    ensures BigEndian(Be32(n)) == n && (n < 0x1_0000 ==> BigEndian(Be16(n)) == n)
  {
    TwoDigits(b[at], b[at + 1]);
    assert b[at..at + 2] == [b[at], b[at + 1]];
    if at + 4 <= |b| {
      FourDigits(b[at], b[at + 1], b[at + 2], b[at + 3]);
      assert b[at..at + 4] == [b[at], b[at + 1], b[at + 2], b[at + 3]];
    }
    var w := Be32(n);
    FourDigits(w[0], w[1], w[2], w[3]);
    assert w == [w[0], w[1], w[2], w[3]];
    if n < 0x1_0000 {
      var h := Be16(n);
      TwoDigits(h[0], h[1]);
      assert h == [h[0], h[1]];
    }
    Get32OfBe32(n);
  }

  lemma TwoDigits(x: Byte, y: Byte)
    ensures BigEndian([x, y]) == 0x100 * x as int + y as int
  {
    assert [x, y][..1] == [x] && [x][..0] == [];
    assert BigEndian([x]) == x;
  }

  lemma FourDigits(a: Byte, b: Byte, c: Byte, d: Byte)
    ensures BigEndian([a, b, c, d]) == Join32(d, c, b, a)
  {
    TwoDigits(a, b);
    assert [a, b, c, d][..3] == [a, b, c] && [a, b, c][..2] == [a, b];
  }

  /** The header that ip_send fills in, checksum still zero. */
  function IpHeaderBytes(id: U16, proto: Byte, src: Word, dst: Word, len: U16): (h: seq<Byte>)
    ensures |h| == IP_HEADER
    ensures h[0] == 0x45 && h[2..4] == Be16(len) && h[9] == proto && h[10] == 0 && h[11] == 0
    ensures h[1] == 0 && h[4..6] == Be16(id) && h[6..9] == [0x40, 0, 64]
    ensures h[12..16] == Be32(src) && h[16..20] == Be32(dst)
  {
    [0x45, 0] + Be16(len) + Be16(id) + [0x40, 0, 64, proto, 0, 0] + Be32(src) + Be32(dst)
  }

  /** The packet that ip_send hands to the link. */
  function IpPacket(id: U16, proto: Byte, src: Word, dst: Word, payload: seq<Byte>): (p: seq<Byte>)
    requires IP_HEADER + |payload| < 0x1_0000
    ensures |p| == IP_HEADER + |payload|
  {
    var h := IpHeaderBytes(id, proto, src, dst, IP_HEADER + |payload|);
    WithField(h, IP_CHECKSUM_AT, ChecksumOf(h)) + payload
  }

  /** What is passed on: protocol, addresses, and where the payload begins behind the Ethernet header
      and how long it is said to be. */
  datatype Delivery = Delivery(proto: Byte, src: Word, dst: Word, start: nat, length: nat)

  /** The checks of ip_receive on what follows the Ethernet header, and what it passes on. The sum of
      Ethernet header and total length is cut to 16 bits before it is compared with the frame's length,
      so a header may reach beyond the frame, into the bytes that memory holds behind it. */
  function Accepted(p: seq<Byte>, behind: seq<Byte>): Option<Delivery>
    requires IP_HEADER + |behind| >= MAX_IP_HEADER
  {
    if |p| < IP_HEADER || p[0] / 16 != 4 then None
    else
      var hdr, len := HeaderLength(p), Get16(p, 2);
      if hdr < IP_HEADER || len < hdr || ETH_HEADER + |p| < (ETH_HEADER + len) % 0x1_0000 || ChecksumOf((p + behind)[..hdr]) != 0
      then None
      else Some(Delivery(p[9], Get32(p, 12), Get32(p, 16), hdr, len - hdr))
  }

  /** What the receiver reads in a header that ip_send filled in for total length `len`. */
  lemma HeaderReads(id: U16, proto: Byte, src: Word, dst: Word, len: U16, rest: seq<Byte>)
    ensures var h := IpHeaderBytes(id, proto, src, dst, len);
      var q := WithField(h, IP_CHECKSUM_AT, ChecksumOf(h)) + rest;
      && q[0] == 0x45 && Get16(q, 2) == len && q[9] == proto && ChecksumOf(q[..IP_HEADER]) == 0
      && Get32(q, 12) == src && Get32(q, 16) == dst && q[IP_HEADER..] == rest
  {
    hide ChecksumOf, WordSum, IpHeaderBytes, Be16, Be32;
    var h := IpHeaderBytes(id, proto, src, dst, len);
    var head := WithField(h, IP_CHECKSUM_AT, ChecksumOf(h));
    var q := head + rest;
    SelfVerifies(h, IP_CHECKSUM_AT);
    assert q[..IP_HEADER] == head;
    FieldElsewhere(h, IP_CHECKSUM_AT, ChecksumOf(h));
    assert q[2] == h[2..4][0] && q[3] == h[2..4][1];
    FourBytes(q, 12, h[12..16]);
    FourBytes(q, 16, h[16..20]);
    Get32OfBe32(src);
    Get32OfBe32(dst);
  }

  /** Every packet built by ip_send is accepted, with whatever padding the link adds behind it, and
      gives back protocol, addresses and payload. */
  lemma SentIsAccepted(id: U16, proto: Byte, src: Word, dst: Word, payload: seq<Byte>, padding: seq<Byte>, behind: seq<Byte>)
    requires IP_HEADER + |payload| + |padding| <= MAX_BEHIND && IP_HEADER + |behind| >= MAX_IP_HEADER
    ensures var p := IpPacket(id, proto, src, dst, payload) + padding;
      && Accepted(p, behind) == Some(Delivery(proto, src, dst, IP_HEADER, |payload|))
      && p[IP_HEADER..IP_HEADER + |payload|] == payload
  {
    hide ChecksumOf, IpHeaderBytes, Be32, WithField, Get16, Get32;
    var len := IP_HEADER + |payload|;
    var p := IpPacket(id, proto, src, dst, payload) + padding;
    HeaderReads(id, proto, src, dst, len, payload + padding);
    var h := IpHeaderBytes(id, proto, src, dst, len);
    assert p == WithField(h, IP_CHECKSUM_AT, ChecksumOf(h)) + (payload + padding);
    assert (p + behind)[..IP_HEADER] == p[..IP_HEADER];
  }

  /** The packet field by field (section 3.1 of RFC 791): version 4 and five header words, the total
      length, the identification, don't fragment, 64 hops, protocol and addresses, and the payload. */
  lemma PacketLayout(id: U16, proto: Byte, src: Word, dst: Word, payload: seq<Byte>)
    requires IP_HEADER + |payload| < 0x1_0000
    ensures var p := IpPacket(id, proto, src, dst, payload);
      && p[..2] == [0x45, 0] && BigEndian(p[2..4]) == 20 + |payload| && BigEndian(p[4..6]) == id && p[6..10] == [0x40, 0, 64, proto]
      && BigEndian(p[12..16]) == src && BigEndian(p[16..20]) == dst && p[20..] == payload && ChecksumOf(p[..20]) == 0
  {
    hide ChecksumOf, IpHeaderBytes, Be16, Be32, BigEndian;
    var len := IP_HEADER + |payload|;
    var h, p := IpHeaderBytes(id, proto, src, dst, len), IpPacket(id, proto, src, dst, payload);
    HeaderReads(id, proto, src, dst, len, payload);
    FieldElsewhere(h, IP_CHECKSUM_AT, ChecksumOf(h));
    NetworkOrder(h, 0, len);
    NetworkOrder(h, 0, id);
    NetworkOrder(h, 0, src);
    NetworkOrder(h, 0, dst);
    forall i, j | 0 <= i < j <= 20 && (j <= 10 || 12 <= i) ensures p[i..j] == h[i..j] {
    }
    assert p[..2] == p[0..2] == h[0..2] && p[6..10] == h[6..9] + [h[9]];
  }

  /** A header as ip_receive wants it: version 4, a header length within the total length, and the
      checksum of the header with its checksum field zeroed in that field, zero standing for itself or
      for all ones. */
  ghost predicate SoundHeader(p: seq<Byte>, behind: seq<Byte>)
    requires IP_HEADER + |behind| >= MAX_IP_HEADER
  {
    && IP_HEADER <= |p| && p[0] / 16 == 4
    && IP_HEADER <= HeaderLength(p) <= Get16(p, 2)
    && var blank := WithField((p + behind)[..HeaderLength(p)], IP_CHECKSUM_AT, 0);
       Get16(p, IP_CHECKSUM_AT) == ChecksumOf(blank) || (Get16(p, IP_CHECKSUM_AT) == ALL_ONES && ChecksumOf(blank) == 0)
  }

  function HeaderLength(p: seq<Byte>): (n: nat)
    requires |p| > 0
    ensures n <= MAX_IP_HEADER
  {
    p[0] % 16 * 4
  }

  /** Exactly the packets with a sound header are accepted whose total length fits the frame or makes
      the 16-bit sum wrap. What is passed on lies in the frame exactly when the sum does not wrap. */
  lemma AcceptedExactly(p: seq<Byte>, behind: seq<Byte>)
    requires |p| <= MAX_BEHIND && IP_HEADER + |behind| >= MAX_IP_HEADER
    ensures Accepted(p, behind).Some? <==> SoundHeader(p, behind) && (Get16(p, 2) <= |p| || MAX_BEHIND < Get16(p, 2))
    ensures Accepted(p, behind).Some? ==>
      var d := Accepted(p, behind).value;
      && (d.start + d.length <= |p| <==> Get16(p, 2) <= MAX_BEHIND)
      && p[0] / 16 == 4 && d.start == p[0] % 16 * 4 >= 20 && d.start + d.length == BigEndian(p[2..4]) && d.proto == p[9]
      && Be32(d.src) == p[12..16] && Be32(d.dst) == p[16..20]
  {
    hide ChecksumOf, Be32, Get32, WithField, BigEndian;
    if IP_HEADER <= |p| {
      NetworkOrder(p, 2, 0);
    }
    if IP_HEADER <= |p| && IP_HEADER <= HeaderLength(p) {
      var h := (p + behind)[..HeaderLength(p)];
      StoredVerifies(h, IP_CHECKSUM_AT);
      assert Get16(h, IP_CHECKSUM_AT) == Get16(p, IP_CHECKSUM_AT);
      Be32OfGet32(p, 12);
      Be32OfGet32(p, 16);
      WrapsAbove(|p|, Get16(p, 2));
    }
  }

  /** When the sum of 14 and a 16-bit length is small enough for a frame with `n` bytes behind its
      Ethernet header. */
  lemma WrapsAbove(n: nat, len: U16)
    requires IP_HEADER <= n <= MAX_BEHIND
    ensures (ETH_HEADER + len) % 0x1_0000 <= ETH_HEADER + n <==> len <= n || MAX_BEHIND < len
  {
  }

  /** A header alone whose total length is given as 65535: accepted, with a payload of 65515 bytes
      behind a frame that ends with the header. */
  lemma LongestLengthWraps(behind: seq<Byte>)
    requires IP_HEADER + |behind| >= MAX_IP_HEADER
    ensures var h := IpHeaderBytes(0, IP_PROTO_TCP, 0, 0, 0xFFFF);
      var p := WithField(h, IP_CHECKSUM_AT, ChecksumOf(h));
      |p| == 20 && Accepted(p, behind) == Some(Delivery(IP_PROTO_TCP, 0, 0, 20, 65515))
  {
    hide ChecksumOf, IpHeaderBytes, Be32, WithField, Get16, Get32;
    HeaderReads(0, IP_PROTO_TCP, 0, 0, 0xFFFF, []);
    var h := IpHeaderBytes(0, IP_PROTO_TCP, 0, 0, 0xFFFF);
    var p := WithField(h, IP_CHECKSUM_AT, ChecksumOf(h));
    assert p + [] == p && (p + behind)[..IP_HEADER] == p;
  }

  /** What a stored checksum must be for the whole to verify. */
  lemma StoredVerifies(h: seq<Byte>, at: nat)
    requires at % 2 == 0 && at + 2 <= |h|
    ensures var blank, stored := WithField(h, at, 0), Get16(h, at);
      ChecksumOf(h) == 0 <==> stored == ChecksumOf(blank) || (stored == ALL_ONES && ChecksumOf(blank) == 0)
  {
    hide ChecksumOf;
    var blank, stored := WithField(h, at, 0), Get16(h, at);
    assert WithField(blank, at, stored) == h;
    VerifiesExactly(blank, at, stored);
  }

  lemma Be32OfGet32(b: seq<Byte>, at: nat)
    requires at + 4 <= |b|
    ensures Be32(Get32(b, at)) == b[at..at + 4]
  {
    var b0: nat, b1: nat, b2: nat, b3: nat := b[at], b[at + 1], b[at + 2], b[at + 3];
    DivUnique(b0, b1 * 0x1_0000 + b2 * 0x100 + b3, 0x100_0000);
    DivUnique(b0 * 0x100 + b1, b2 * 0x100 + b3, 0x1_0000);
    DivUnique(b0 * 0x1_0000 + b1 * 0x100 + b2, b3, 0x100);
    DivUnique(b0, b1, 0x100);
    DivUnique(b0 * 0x100 + b1, b2, 0x100);
  }

  lemma FieldElsewhere(b: seq<Byte>, f: nat, v: nat)
    requires f + 2 <= |b| && v <= ALL_ONES
    ensures forall i :: 0 <= i < |b| && i != f && i != f + 1 ==> WithField(b, f, v)[i] == b[i]
  {
  }

  lemma FourBytes(p: seq<Byte>, at: nat, w: seq<Byte>)
    requires at + 4 <= |p| && |w| == 4 && forall i :: 0 <= i < 4 ==> p[at + i] == w[i]
    ensures Get32(p, at) == Get32(w, 0)
  {
    assert p[at + 0] == w[0] && p[at + 1] == w[1] && p[at + 2] == w[2] && p[at + 3] == w[3];
  }

  /** Bytes stored into a buffer from a given place on. */
  function Laid(was: seq<Byte>, at: nat, bytes: seq<Byte>): (r: seq<Byte>)
    requires at + |bytes| <= |was|
    ensures |r| == |was|
  {
    was[..at] + bytes + was[at + |bytes|..]
  }

  method StoreBytes(a: array<Byte>, at: nat, bytes: seq<Byte>)
    requires at + |bytes| <= a.Length
    modifies a
    ensures a[..] == Laid(old(a[..]), at, bytes)
  {
    for i := 0 to |bytes|
      invariant forall k :: 0 <= k < a.Length ==> a[k] == if at <= k < at + i then bytes[k - at] else old(a[k])
    {
      a[at + i] := bytes[i];
    }
  }

  /** The static packet buffer and identification counter of net/ip.c. */
  class IpOutput {
    const packetBuf: array<Byte>
    var idCounter: U16

    constructor ()
      ensures packetBuf.Length == ETH_MTU && idCounter == 0 && fresh(packetBuf)
    {
      packetBuf := new Byte[ETH_MTU](_ => 0);
      idCounter := 0;
    }

    /** ip_send up to the choice of the next hop: the packet built in the buffer, its checksum last.
        Payloads that do not fit are refused before anything changes. The total length is computed in
        16 bits: where it wraps, the payload is let through and runs over the buffer, and the model
        stops there. */
    method Build(proto: Byte, src: Word, dst: Word, payload: seq<Byte>) returns (r: Building)
      requires packetBuf.Length == ETH_MTU && |payload| < 0x1_0000
      modifies packetBuf, this`idCounter
      ensures r == if IP_HEADER + |payload| <= ETH_MTU then Built(IP_HEADER + |payload|)
                   else if IP_HEADER + |payload| < 0x1_0000 then Refused else Overrun
      ensures r.Built? ==>
        && packetBuf[..r.total] == IpPacket(old(idCounter), proto, src, dst, payload)
        && idCounter == (old(idCounter) + 1) % 0x1_0000
      ensures r == Refused ==> packetBuf[..] == old(packetBuf[..]) && idCounter == old(idCounter)
    {
      hide ChecksumOf, IpHeaderBytes, Laid;
      var total := (IP_HEADER + |payload|) % 0x1_0000;
      if total > ETH_MTU {
        return Refused;
      }
      var header := IpHeaderBytes(idCounter, proto, src, dst, total);
      StoreBytes(packetBuf, 0, header);
      idCounter := (idCounter + 1) % 0x1_0000;
      if IP_HEADER + |payload| > packetBuf.Length {
        return Overrun;
      }
      StoreBytes(packetBuf, IP_HEADER, payload);
      LaidTwice(old(packetBuf[..]), header, payload);
      assert packetBuf[..total] == header + payload;
      assert packetBuf[..IP_HEADER] == packetBuf[..total][..IP_HEADER] == header;
      var sum := IpChecksum(packetBuf[..IP_HEADER]);
      ghost var before := packetBuf[..total];
      packetBuf[IP_CHECKSUM_AT] := sum / 0x100;
      packetBuf[IP_CHECKSUM_AT + 1] := sum % 0x100;
      assert packetBuf[..total] == WithField(before, IP_CHECKSUM_AT, sum);
      FieldOfHead(header, payload, IP_CHECKSUM_AT, sum);
      return Built(total);
    }
  }

  lemma LaidTwice(was: seq<Byte>, header: seq<Byte>, payload: seq<Byte>)
    requires |header| + |payload| <= |was|
    ensures Laid(Laid(was, 0, header), |header|, payload)[..|header| + |payload|] == header + payload
  {
  }

  lemma FieldOfHead(a: seq<Byte>, b: seq<Byte>, f: nat, v: nat)
    requires f + 2 <= |a| && v <= ALL_ONES
    ensures WithField(a + b, f, v) == WithField(a, f, v) + b
  {
  }

  /** What ip_send makes of a payload: a packet, a refusal, or stores beyond its buffer. */
  datatype Building = Built(total: nat) | Refused | Overrun

  /** ip_receive on a frame and the bytes that memory holds behind it. */
  method ReceiveIp(frame: seq<Byte>, behind: seq<Byte>) returns (d: Option<Delivery>)
    requires |frame| <= 0xFFFF && IP_HEADER + |behind| >= MAX_IP_HEADER
    ensures |frame| < ETH_HEADER + IP_HEADER || Get16(frame, 12) != ETH_TYPE_IP ==> d == None
    ensures ETH_HEADER + IP_HEADER <= |frame| && Get16(frame, 12) == ETH_TYPE_IP ==>
      var p := frame[ETH_HEADER..];
      && d == Accepted(p, behind)
      && (d.Some? <==> SoundHeader(p, behind) && (Get16(p, 2) <= |p| || MAX_BEHIND < Get16(p, 2)))
      && (d.Some? ==> (d.value.start + d.value.length <= |p| <==> Get16(p, 2) <= MAX_BEHIND))
  {
    hide ChecksumOf, SoundHeader;
    if |frame| < ETH_HEADER + IP_HEADER || Get16(frame, 12) != ETH_TYPE_IP {
      return None;
    }
    var p := frame[ETH_HEADER..];
    AcceptedExactly(p, behind);
    if p[0] / 16 != 4 {
      return None;
    }
    var hdr := p[0] % 16 * 4;
    if hdr < IP_HEADER {
      return None;
    }
    var len := Get16(p, 2);
    if len < hdr || |frame| < (ETH_HEADER + len) % 0x1_0000 {
      return None;
    }
    var sum := IpChecksum((p + behind)[..hdr]);
    if sum != 0 {
      return None;
    }
    return Some(Delivery(p[9], Get32(p, 12), Get32(p, 16), hdr, len - hdr));
  }

  datatype Ports = Ports(src: U16, dst: U16)

  /** A TCP segment with its checksum field still zero. */
  function RawSegment(ports: Ports, seqNo: Word, ack: Word, flags: Byte, data: seq<Byte>): (s: seq<Byte>)
    ensures |s| == TCP_HEADER + |data|
    ensures s[0..2] == Be16(ports.src) && s[2..4] == Be16(ports.dst) && s[4..8] == Be32(seqNo) && s[8..12] == Be32(ack)
    ensures s[12] == 0x50 && s[13] == flags && s[16] == 0 && s[17] == 0 && s[20..] == data
    ensures s[14..16] == Be16(TCP_WINDOW) && s[18..20] == [0, 0]
  {
    Be16(ports.src) + Be16(ports.dst) + Be32(seqNo) + Be32(ack) + [0x50, flags] + Be16(TCP_WINDOW) + [0, 0, 0, 0] + data
  }

  function PseudoHeader(src: Word, dst: Word, len: U16): (h: seq<Byte>)
    ensures |h| == PSEUDO_HEADER
  {
    Be32(src) + Be32(dst) + [0, IP_PROTO_TCP] + Be16(len)
  }

  /** tcp_checksum over pseudo-header and segment. */
  function TcpChecksumOf(src: Word, dst: Word, segment: seq<Byte>): nat
    requires |segment| < 0x1_0000
  {
    ChecksumOf(PseudoHeader(src, dst, |segment|) + segment)
  }

  /** The segment that tcp_send_segment sends. */
  function Segment(src: Word, dst: Word, ports: Ports, seqNo: Word, ack: Word, flags: Byte, data: seq<Byte>): (s: seq<Byte>)
    requires |data| <= TCP_MSS
    ensures |s| == TCP_HEADER + |data|
  {
    var raw := RawSegment(ports, seqNo, ack, flags, data);
    WithField(raw, TCP_CHECKSUM_AT, TcpChecksumBound(src, dst, raw))
  }

  function TcpChecksumBound(src: Word, dst: Word, raw: seq<Byte>): (c: nat)
    requires |raw| < 0x1_0000
    ensures c <= ALL_ONES
  {
    TcpChecksumOf(src, dst, raw)
  }

  datatype TcpView = TcpView(ports: Ports, seqNo: Word, ack: Word, flags: Byte, data: seq<Byte>)

  /** The checks of tcp_receive before it looks for a socket. */
  function TcpAccepted(src: Word, dst: Word, p: seq<Byte>): Option<TcpView>
    requires |p| < 0x1_0000
  {
    if |p| < TCP_HEADER then None
    else
      var hdr := p[12] / 16 * 4;
      if hdr < TCP_HEADER || hdr > |p| || TcpChecksumOf(src, dst, p) != 0 then None
      else Some(TcpView(Ports(Get16(p, 0), Get16(p, 2)), Get32(p, 4), Get32(p, 8), p[13], p[hdr..]))
  }

  /** What becomes of a segment before a socket is looked for: refused, read, or copied beyond the
      buffer that the checksum is computed in. */
  datatype TcpCheck = Rejected | Read(view: TcpView) | BeyondBuffer

  /** The static buffer of net/tcp.c in which checksums are computed. */
  class TcpChecker {
    const txBuf: array<Byte>

    constructor ()
      ensures txBuf.Length == PSEUDO_HEADER + TCP_HEADER + TCP_MSS && fresh(txBuf)
    {
      txBuf := new Byte[PSEUDO_HEADER + TCP_HEADER + TCP_MSS](_ => 0);
    }

    /** tcp_checksum: pseudo-header and segment laid out in the buffer, then summed. It stays inside the
        buffer exactly for segments of up to 1480 bytes; beyond that the model stops. */
    method Checksum(src: Word, dst: Word, segment: seq<Byte>) returns (c: Option<nat>)
      requires txBuf.Length == PSEUDO_HEADER + TCP_HEADER + TCP_MSS && |segment| < 0x1_0000
      modifies txBuf
      ensures c == if |segment| <= TCP_HEADER + TCP_MSS then Some(TcpChecksumOf(src, dst, segment)) else None
    {
      hide ChecksumOf, PseudoHeader;
      var header := PseudoHeader(src, dst, |segment|);
      StoreBytes(txBuf, 0, header);
      if PSEUDO_HEADER + |segment| > txBuf.Length {
        return None;
      }
      StoreBytes(txBuf, PSEUDO_HEADER, segment);
      assert txBuf[..PSEUDO_HEADER + |segment|] == header + segment;
      var sum := IpChecksum(txBuf[..PSEUDO_HEADER + |segment|]);
      return Some(sum);
    }

    /** tcp_receive before it looks for a socket. */
    method Receive(src: Word, dst: Word, p: seq<Byte>) returns (v: TcpCheck)
      requires txBuf.Length == PSEUDO_HEADER + TCP_HEADER + TCP_MSS && |p| < 0x1_0000
      modifies txBuf
      ensures v == BeyondBuffer <==> OffsetFits(p) && |p| > TCP_HEADER + TCP_MSS
      ensures v.Read? <==> OffsetFits(p) && |p| <= TCP_HEADER + TCP_MSS && SoundSegment(src, dst, p)
      ensures v.Read? ==> TcpAccepted(src, dst, p) == Some(v.view)
    {
      hide TcpChecksumOf;
      if |p| < TCP_HEADER {
        return Rejected;
      }
      var hdr := p[12] / 16 * 4;
      if hdr < TCP_HEADER || hdr > |p| {
        return Rejected;
      }
      SegmentAcceptedExactly(src, dst, p);
      var sum := Checksum(src, dst, p);
      if sum == None {
        return BeyondBuffer;
      }
      if sum.value != 0 {
        return Rejected;
      }
      return Read(TcpView(Ports(Get16(p, 0), Get16(p, 2)), Get32(p, 4), Get32(p, 8), p[13], p[hdr..]));
    }
  }

  /** The data offset leaves room for the header and lies within the segment. */
  predicate OffsetFits(p: seq<Byte>) { TCP_HEADER <= |p| && TCP_HEADER <= p[12] / 16 * 4 <= |p| }

  /** The checksum field holds the checksum over pseudo-header and segment with that field zeroed, zero
      standing for itself or for all ones. */
  ghost predicate SoundSegment(src: Word, dst: Word, p: seq<Byte>)
    requires TCP_HEADER <= |p| < 0x1_0000
  {
    var sum := TcpChecksumOf(src, dst, WithField(p, TCP_CHECKSUM_AT, 0));
    Get16(p, TCP_CHECKSUM_AT) == sum || (Get16(p, TCP_CHECKSUM_AT) == ALL_ONES && sum == 0)
  }

  /** A segment of 1481 bytes whose offset is sound, with any content, is one byte too long for the
      checksum's buffer. */
  lemma OneByteBeyond(p: seq<Byte>)
    requires |p| == 1481 && p[12] == 0x50
    ensures OffsetFits(p) && PSEUDO_HEADER + |p| == (PSEUDO_HEADER + TCP_HEADER + TCP_MSS) + 1
  {
  }

  /** As a matter of arithmetic, exactly the segments with a fitting offset and a sound checksum field
      pass the checks. */
  lemma SegmentAcceptedExactly(src: Word, dst: Word, p: seq<Byte>)
    requires |p| < 0x1_0000
    ensures TcpAccepted(src, dst, p).Some? <==> OffsetFits(p) && SoundSegment(src, dst, p)
    ensures TcpAccepted(src, dst, p).Some? ==>
      var v := TcpAccepted(src, dst, p).value;
      && 20 <= p[12] / 16 * 4 <= |p| && v.ports.src == BigEndian(p[0..2]) && v.ports.dst == BigEndian(p[2..4]) && v.seqNo == BigEndian(p[4..8])
      && v.ack == BigEndian(p[8..12]) && v.flags == p[13] && v.data == p[p[12] / 16 * 4..]
  {
    hide ChecksumOf, PseudoHeader, BigEndian;
    if OffsetFits(p) {
      NetworkOrder(p, 0, 0);
      NetworkOrder(p, 2, 0);
      NetworkOrder(p, 4, 0);
      NetworkOrder(p, 8, 0);
      var blank := WithField(p, TCP_CHECKSUM_AT, 0);
      var h := PseudoHeader(src, dst, |p|);
      var at := PSEUDO_HEADER + TCP_CHECKSUM_AT;
      StoredVerifies(h + p, at);
      assert WithField(h + p, at, 0) == h + blank;
      assert (h + p)[at] == p[TCP_CHECKSUM_AT] && (h + p)[at + 1] == p[TCP_CHECKSUM_AT + 1];
    }
  }

  /** The pseudo-header has even length, so the checksum field stays even-aligned behind it. */
  lemma SegmentVerifies(src: Word, dst: Word, raw: seq<Byte>)
    requires TCP_HEADER <= |raw| < 0x1_0000 && raw[TCP_CHECKSUM_AT] == 0 && raw[TCP_CHECKSUM_AT + 1] == 0
    ensures TcpChecksumOf(src, dst, WithField(raw, TCP_CHECKSUM_AT, TcpChecksumBound(src, dst, raw))) == 0
  {
    hide ChecksumOf, PseudoHeader;
    var h := PseudoHeader(src, dst, |raw|);
    var at := PSEUDO_HEADER + TCP_CHECKSUM_AT;
    SelfVerifies(h + raw, at);
    var c := ChecksumOf(h + raw);
    assert WithField(h + raw, at, c) == h + WithField(raw, TCP_CHECKSUM_AT, c);
  }

  /** Pseudo-header and segment field by field (section 3.1 of RFC 9293): no options, a window of 4096
      bytes, no urgent pointer. */
  lemma SegmentLayout(src: Word, dst: Word, ports: Ports, seqNo: Word, ack: Word, flags: Byte, data: seq<Byte>, len: U16)
    requires |data| <= TCP_MSS
    ensures var h := PseudoHeader(src, dst, len);
      BigEndian(h[..4]) == src && BigEndian(h[4..8]) == dst && h[8..10] == [0, 6] && BigEndian(h[10..]) == len
    ensures var s := Segment(src, dst, ports, seqNo, ack, flags, data);
      && BigEndian(s[..2]) == ports.src && BigEndian(s[2..4]) == ports.dst && BigEndian(s[4..8]) == seqNo && BigEndian(s[8..12]) == ack
      && s[12..14] == [0x50, flags] && BigEndian(s[14..16]) == 4096 && s[18..20] == [0, 0] && s[20..] == data
  {
    hide RawSegment, Be16, Be32, TcpChecksumOf, BigEndian;
    var h := PseudoHeader(src, dst, len);
    forall n: Word ensures BigEndian(Be32(n)) == n && (n < 0x1_0000 ==> BigEndian(Be16(n)) == n) {
      NetworkOrder(h, 0, n);
    }
    assert h[..4] == Be32(src) && h[4..8] == Be32(dst) && h[10..] == Be16(len);
    var raw, s := RawSegment(ports, seqNo, ack, flags, data), Segment(src, dst, ports, seqNo, ack, flags, data);
    FieldElsewhere(raw, TCP_CHECKSUM_AT, TcpChecksumBound(src, dst, raw));
    forall i, j | 0 <= i < j <= 20 && (j <= 16 || 18 <= i) ensures s[i..j] == raw[i..j] {
    }
    assert s[..2] == s[0..2] && s[12..14] == [raw[12], raw[13]] && s[20..] == raw[20..];
  }

  /** Every segment built by tcp_send_segment passes the receiver's checks between the same two
      addresses and reads back as it was meant. */
  lemma SegmentIsAccepted(src: Word, dst: Word, ports: Ports, seqNo: Word, ack: Word, flags: Byte, data: seq<Byte>)
    requires |data| <= TCP_MSS
    ensures TcpAccepted(src, dst, Segment(src, dst, ports, seqNo, ack, flags, data)) == Some(TcpView(ports, seqNo, ack, flags, data))
  {
    hide ChecksumOf, PseudoHeader, RawSegment, Be16, Be32, TcpChecksumOf;
    var raw := RawSegment(ports, seqNo, ack, flags, data);
    var c := TcpChecksumBound(src, dst, raw);
    var s := Segment(src, dst, ports, seqNo, ack, flags, data);
    SegmentVerifies(src, dst, raw);
    FieldElsewhere(raw, TCP_CHECKSUM_AT, c);
    TwoBytes(s, 0, raw[0..2]);
    TwoBytes(s, 2, raw[2..4]);
    FourBytes(s, 4, raw[4..8]);
    FourBytes(s, 8, raw[8..12]);
    Get32OfBe32(seqNo);
    Get32OfBe32(ack);
    assert s[20..] == raw[20..];
  }

  lemma TwoBytes(p: seq<Byte>, at: nat, w: seq<Byte>)
    requires at + 2 <= |p| && |w| == 2 && forall i :: 0 <= i < 2 ==> p[at + i] == w[i]
    ensures Get16(p, at) == Get16(w, 0)
  {
    assert p[at + 0] == w[0] && p[at + 1] == w[1];
  }
}
