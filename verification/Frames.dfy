/** Ethernet / IPv4 / UDP / ICMP frames: the builders, the validator and the two relay rewrites. */
module Frames {
  import opened Bytes
  import opened Checksum

  type mac = m: seq<byte> | |m| == 6 witness [0, 0, 0, 0, 0, 0]

  const ETHERNET := 14
  const UDP_SIZE := 42
  const ICMP_SIZE := 46
  const UDP: byte := 17
  const ICMP: byte := 1
  const COOKIE: uint32 := 0x12345678

  // ---- Field access by offset, as the packed structs lay them out ----

  predicate Header(b: seq<byte>) { |b| >= UDP_SIZE }

  function Version(b: seq<byte>): nat requires Header(b) { b[14] / 16 }
  function Hl(b: seq<byte>): nat requires Header(b) { b[14] % 16 }
  function Protocol(b: seq<byte>): byte requires Header(b) { b[23] }
  function IpLen(b: seq<byte>): uint16 requires Header(b) { Get16(b, 16) }
  function SrcIp(b: seq<byte>): uint32 requires Header(b) { Get32(b, 26) }
  function DstIp(b: seq<byte>): uint32 requires Header(b) { Get32(b, 30) }
  function SrcPort(b: seq<byte>): uint16 requires Header(b) { Get16(b, 34) }
  function DstPort(b: seq<byte>): uint16 requires Header(b) { Get16(b, 36) }
  function UdpLen(b: seq<byte>): uint16 requires Header(b) { Get16(b, 38) }
  function SrcMac(b: seq<byte>): mac requires Header(b) { b[6..12] }
  function DstMac(b: seq<byte>): mac requires Header(b) { b[..6] }

  /** The bytes check_sum_ip runs over. */
  function IpWords(b: seq<byte>): (h: seq<byte>)
    requires Header(b) && 14 + 4 * Hl(b) <= |b|
    ensures |h| == 4 * Hl(b)
  {
    b[14..14 + 4 * Hl(b)]
  }

  // ---- is_valid_packet ----

  /** The receive buffer; the header checks may look past a short frame, never past the buffer. */
  const FRAME_BUFFER := 1520

  predicate Buffer(b: seq<byte>) { |b| == FRAME_BUFFER }

  predicate ValidFrame(b: seq<byte>, length: nat)
    requires Buffer(b)
  {
    && length >= 28
    && Get16(b, 12) == 0x0800
    && length == IpLen(b) + ETHERNET
    && Version(b) == 4
    && IpCheck(IpWords(b)) == 0
    && (|| (Protocol(b) == UDP && length >= UDP_SIZE && UdpLen(b) == IpLen(b) - 4 * Hl(b))
        || (Protocol(b) == ICMP && length >= ICMP_SIZE && b[34] == 0 && b[35] == 0 && Get32(b, 42) == COOKIE))
  }

  method IsValidPacket(a: array<byte>, length: nat) returns (ok: bool)
    requires a.Length == FRAME_BUFFER
    ensures ok <==> ValidFrame(a[..], length)
  {
    var b := a[..];
    if length < ETHERNET { return false; }
    if Get16(b, 12) != 0x0800 { return false; }
    if length < ETHERNET + ETHERNET { return false; }
    if length != Get16(b, 16) + ETHERNET { return false; }
    if a[14] / 16 != 4 { return false; }
    var sum := CheckSumIp(a, 14, a[14] % 16);
    assert b[14..14 + 4 * Hl(b)] == a[14..14 + 4 * (a[14] % 16)];
    if sum != 0 { return false; }
    if !(a[23] == UDP || a[23] == ICMP) { return false; }
    if a[23] == UDP {
      if length < UDP_SIZE { return false; }
      if Get16(b, 38) != Get16(b, 16) - 4 * (a[14] % 16) { return false; }
    } else if a[23] == ICMP {
      if length < ICMP_SIZE { return false; }
      if a[34] != 0 || a[35] != 0 || Get32(b, 42) != COOKIE { return false; }
    }
    return true;
  }

  /** Validity of a UDP frame, read from its own bytes alone. */
  predicate ValidUdp(f: seq<byte>) {
    && Header(f)
    && Get16(f, 12) == 0x0800
    && |f| == IpLen(f) + ETHERNET
    && Version(f) == 4
    && Protocol(f) == UDP
    && UdpLen(f) == IpLen(f) - 4 * Hl(f)
    && IpCheck(IpWords(f)) == 0
  }

  /** A UDP frame is accepted or not whatever else the buffer holds. */
  lemma AcceptedUdp(b: seq<byte>, length: nat)
    requires Buffer(b) && length <= FRAME_BUFFER
    ensures ValidFrame(b, length) && Protocol(b) == UDP <==> ValidUdp(b[..length])
  {
    if length >= UDP_SIZE && 14 + 4 * Hl(b) <= length {
      assert IpWords(b[..length]) == IpWords(b);
    }
  }

  /** The bytes the validator watches: type, header from its second byte on, UDP length, and the type,
      code and cookie of an echo. */
  predicate Watched(b: seq<byte>, k: nat)
    requires Buffer(b)
  {
    || 12 <= k < 14
    || 15 <= k < 14 + 4 * Hl(b)
    || (Protocol(b) == 17 && 38 <= k < 40)
    || (Protocol(b) == 1 && (34 <= k < 36 || 42 <= k < 46))
  }

  /** No change of one watched byte of an accepted frame goes unnoticed, nor one of its version or length. */
  lemma TamperedIsRefused(b: seq<byte>, length: nat, k: nat, x: byte)
    requires Buffer(b) && ValidFrame(b, length) && Watched(b, k) && x != b[k]
    ensures !ValidFrame(b[k := x], length)
  {
    hide IpCheck;
    var t := b[k := x];
    if 15 <= k < 14 + 4 * Hl(b) {
      assert t[14] == b[14];
      assert IpWords(t) == IpWords(b)[k - 14 := x];
      SingleByteDetected(IpWords(b), k - 14, x);
    } else if k >= 38 && Protocol(b) == 17 {
      OneByteLoad16(b, 38, k, x);
    } else if k >= 42 {
      OneByteLoad16(b, if k < 44 then 42 else 44, k, x);
    } else if k < 14 {
      OneByteLoad16(b, 12, k, x);
    }
  }

  lemma OneByteLoad16(b: seq<byte>, at: nat, k: nat, x: byte)
    requires at + 2 <= |b| && at <= k < at + 2 && x != b[k]
    ensures Get16(b[k := x], at) != Get16(b, at)
  {
  }

  lemma WrongVersionOrLength(b: seq<byte>, length: nat, v: nat, other: nat)
    requires Buffer(b) && ValidFrame(b, length) && v < 16
    ensures v != 4 ==> !ValidFrame(b[14 := 16 * v + Hl(b)], length)
    ensures other != length ==> !ValidFrame(b, other)
  {
    hide IpCheck;
    assert (16 * v + Hl(b)) / 16 == v;
  }

  /** An accepted frame is no shorter than the headers its protocol needs. */
  lemma AcceptedSizes(b: seq<byte>, length: nat)
    requires Buffer(b) && ValidFrame(b, length)
    ensures (Protocol(b) == 17 && length >= 42) || (Protocol(b) == 1 && length >= 46)
  {
  }

  // ---- Builders ----

  /** The header up to its addresses, checksum zero. */
  function HeaderFront(len: uint16, proto: byte): (h: seq<byte>)
    ensures |h| == 12 && h[10] == 0 && h[11] == 0
  {
    [0x45, 0] + Be16(len) + [0, 0, 0, 0, 64, proto, 0, 0]
  }

  function RawHeader(len: uint16, proto: byte, src: uint32, dst: uint32): (h: seq<byte>)
    ensures |h| == 20
  {
    HeaderFront(len, proto) + Be32(src) + Be32(dst)
  }

  /** The header set_ip_header leaves. */
  function IpHeader(len: uint16, proto: byte, src: uint32, dst: uint32): (h: seq<byte>)
    ensures |h| == 20
  {
    Stamp(RawHeader(len, proto, src, dst))
  }

  function EthernetHeader(dst: mac, src: mac): (h: seq<byte>)
    ensures |h| == 14
  {
    dst + src + [8, 0]
  }

  function UdpHeader(src: uint16, dst: uint16, len: uint16): (h: seq<byte>)
    ensures |h| == 8
  {
    Be16(src) + Be16(dst) + Be16(len) + [0, 0]
  }

  /** A UDP frame as send_udp_packet and send_advertise_packet lay it out; lengths are cut to 16 bits. */
  function UdpFrame(dmac: mac, smac: mac, src: uint32, dst: uint32,
                    sport: uint16, dport: uint16, payload: seq<byte>): (f: seq<byte>)
    ensures |f| == UDP_SIZE + |payload|
  {
    EthernetHeader(dmac, smac) + IpHeader((28 + |payload|) % 0x1_0000, UDP, src, dst)
    + UdpHeader(sport, dport, (8 + |payload|) % 0x1_0000) + payload
  }

  function RawIcmp(seqId: uint16): (h: seq<byte>)
    ensures |h| == 12
  {
    [8, 0, 0, 0] + Be16(seqId) + [0, 0] + Be32(COOKIE)
  }

  /** The echo header set_icmp_header_in_ping_packet leaves. */
  function IcmpHeader(seqId: uint16): (h: seq<byte>)
    ensures |h| == 12
  {
    Splice(RawIcmp(seqId), 2, Le16(Rfc1071(RawIcmp(seqId))))
  }

  /** The echo request of send_icmp_packet. */
  function EchoFrame(dmac: mac, smac: mac, src: uint32, dst: uint32, seqId: uint16): (f: seq<byte>)
    ensures |f| == ICMP_SIZE
  {
    EthernetHeader(dmac, smac) + IpHeader(32, ICMP, src, dst) + IcmpHeader(seqId)
  }

  /** The header sum set_ip_header folds once. */
  predicate BuildsCleanly(len: uint16, proto: byte, src: uint32, dst: uint32) {
    SingleCarry(RawHeader(len, proto, src, dst))
  }

  lemma HeaderFields(len: uint16, proto: byte, src: uint32, dst: uint32)
    ensures var h := IpHeader(len, proto, src, dst);
            && h[0] == 0x45 && h[9] == proto && h[2..4] == Be16(len) && h[12..16] == Be32(src) && h[16..20] == Be32(dst)
            && h[1] == 0 && h[4..9] == [0, 0, 0, 0, 64]
    ensures IpCheck(IpHeader(len, proto, src, dst)) == 0 <==> BuildsCleanly(len, proto, src, dst)
  {
    var r := RawHeader(len, proto, src, dst);
    assert ZeroSum(r) == r;
    StampVerifies(r);
    assert r[2..4] == Be16(len) && r[12..16] == Be32(src) && r[16..20] == Be32(dst);
    var h := Stamp(r);
    assert h[2..4] == r[2..4] && h[12..16] == r[12..16] && h[16..20] == r[16..20];
    assert h[4..9] == r[4..9];
  }

  lemma UdpFrameParts(dmac: mac, smac: mac, src: uint32, dst: uint32, sport: uint16, dport: uint16, payload: seq<byte>)
    ensures var f := UdpFrame(dmac, smac, src, dst, sport, dport, payload);
            && f[..6] == dmac && f[6..12] == smac && f[12..14] == [8, 0]
            && f[14..34] == IpHeader((28 + |payload|) % 0x1_0000, UDP, src, dst)
            && f[34..36] == Be16(sport) && f[36..38] == Be16(dport) && f[38..40] == Be16((8 + |payload|) % 0x1_0000)
            && f[40..42] == [0, 0] && f[42..] == payload
  {
  }

  /** The fields the validator and the receivers read back from a built frame. */
  lemma UdpFrameFields(dmac: mac, smac: mac, src: uint32, dst: uint32, sport: uint16, dport: uint16, payload: seq<byte>)
    requires 28 + |payload| < 0x1_0000
    ensures var f := UdpFrame(dmac, smac, src, dst, sport, dport, payload);
            && DstMac(f) == dmac && SrcMac(f) == smac && Get16(f, 12) == 0x0800
            && Version(f) == 4 && Hl(f) == 5 && Protocol(f) == UDP
            && IpLen(f) == 28 + |payload| && UdpLen(f) == 8 + |payload|
            && SrcIp(f) == src && DstIp(f) == dst && SrcPort(f) == sport && DstPort(f) == dport
            && f[40..42] == [0, 0] && f[42..] == payload && IpWords(f) == IpHeader(28 + |payload|, UDP, src, dst)
  {
    hide IpHeader, UdpFrame, BuildsCleanly, IpCheck, Get16, Get32, Be16, Be32;
    var f := UdpFrame(dmac, smac, src, dst, sport, dport, payload);
    var len := 28 + |payload|;
    UdpFrameParts(dmac, smac, src, dst, sport, dport, payload);
    HeaderFields(len, UDP, src, dst);
    var h := f[14..34];
    assert f[14] == h[0] && f[23] == h[9];
    SubSlice(f, 14, 34, 2, 4);
    SubSlice(f, 14, 34, 12, 16);
    SubSlice(f, 14, 34, 16, 20);
    Get16Inverse(len, f, 16);
    Get32Inverse(src, f, 26);
    Get32Inverse(dst, f, 30);
    Get16Inverse(sport, f, 34);
    Get16Inverse(dport, f, 36);
    Get16Inverse(8 + |payload|, f, 38);
    EtherType(f);
  }

  lemma EtherType(f: seq<byte>)
    requires |f| >= 14 && f[12..14] == [8, 0]
    ensures Get16(f, 12) == 0x0800
  {
    assert f[12] == f[12..14][0] && f[13] == f[12..14][1];
  }

  /** A built frame passes the validator exactly when its header sum builds cleanly. */
  lemma BuiltIsValid(dmac: mac, smac: mac, src: uint32, dst: uint32, sport: uint16, dport: uint16, payload: seq<byte>)
    requires 28 + |payload| < 0x1_0000
    ensures ValidUdp(UdpFrame(dmac, smac, src, dst, sport, dport, payload))
            <==> BuildsCleanly(28 + |payload|, UDP, src, dst)
  {
    hide IpHeader, UdpFrame;
    UdpFrameFields(dmac, smac, src, dst, sport, dport, payload);
    HeaderFields(28 + |payload|, UDP, src, dst);
  }

  /** The condition is needed: a DSA or LSA probe from 192.168.1.10 to 213.233.228.49 has word sum 0x1FFFF.
      Its checksum is one too large, and the validator refuses the frame as built. */
  lemma SingleFoldWitness(dmac: mac, smac: mac, sport: uint16, dport: uint16, payload: seq<byte>)
    requires |payload| == 4
    ensures var h := RawHeader(32, UDP, 0xC0A8010A, 0xD5E9E431);
            WordSum(h) == 0x1FFFF && !SingleCarry(h) && IpCheck(h) == Rfc1071(h) + 1
    ensures !BuildsCleanly(32, UDP, 0xC0A8010A, 0xD5E9E431)
    ensures !ValidUdp(UdpFrame(dmac, smac, 0xC0A8010A, 0xD5E9E431, sport, dport, payload))
  {
    hide UdpFrame, WordSum, ValidUdp;
    var h := RawHeader(32, UDP, 0xC0A8010A, 0xD5E9E431);
    WitnessSum();
    SingleFoldError(h);
    BuiltIsValid(dmac, smac, 0xC0A8010A, 0xD5E9E431, sport, dport, payload);
  }

  lemma WitnessSum()
    ensures WordSum(RawHeader(32, UDP, 0xC0A8010A, 0xD5E9E431)) == 0x1FFFF
  {
    hide WordSum;
    var a: seq<byte>, b: seq<byte>, c: seq<byte> := [0x45, 0, 0, 32], [0, 0, 0, 0], [64, 17, 0, 0];
    var d: seq<byte>, e: seq<byte> := [0xC0, 0xA8, 0x01, 0x0A], [0xD5, 0xE9, 0xE4, 0x31];
    assert Be32(0xC0A8010A) == d && Be32(0xD5E9E431) == e;
    var ab := a + b;
    var abc := ab + c;
    var abcd := abc + d;
    assert RawHeader(32, UDP, 0xC0A8010A, 0xD5E9E431) == abcd + e;
    WordSumParts(abc, ab, a, b, c);
    WordSumParts(abcd + e, abcd, abc, d, e);
    WordSumFour(a);
    WordSumFour(b);
    WordSumFour(c);
    WordSumFour(d);
    WordSumFour(e);
  }

  // ---- Relay rewrites ----

  /** ip_sum = 0; ip_sum = check_sum_ip(ip, ip_hl). */
  function Restamp(f: seq<byte>): (r: seq<byte>)
    requires Header(f) && 14 + 4 * Hl(f) <= |f|
    ensures |r| == |f|
  {
    var z := Splice(f, 24, [0, 0]);
    Splice(z, 24, Le16(IpCheck(IpWords(z))))
  }

  function SetMacs(f: seq<byte>, dmac: mac, smac: mac): (r: seq<byte>)
    requires Header(f)
    ensures |r| == |f|
  {
    Splice(Splice(f, 6, smac), 0, dmac)
  }

  /** A frame relayed outwards: gateway MACs, our outside address, the allocated source port. */
  function RelayOut(f: seq<byte>, dmac: mac, smac: mac, src: uint32, sport: uint16): (r: seq<byte>)
    requires Header(f) && 14 + 4 * Hl(f) <= |f|
    ensures |r| == |f|
  {
    Restamp(Splice(Splice(SetMacs(f, dmac, smac), 34, Be16(sport)), 26, Be32(src)))
  }

  /** A reply relayed back: the requester's MAC, address and port as destination. */
  function RelayBack(f: seq<byte>, dmac: mac, smac: mac, dst: uint32, dport: uint16): (r: seq<byte>)
    requires Header(f) && 14 + 4 * Hl(f) <= |f|
    ensures |r| == |f|
  {
    Restamp(Splice(Splice(SetMacs(f, dmac, smac), 36, Be16(dport)), 30, Be32(dst)))
  }

  /** The bytes a rewrite may change: MACs, header checksum, one address and one port. */
  predicate Rewritten(f: seq<byte>, r: seq<byte>, at: nat, port: nat)
    requires Header(f)
  {
    && |r| == |f|
    && (forall k :: 12 <= k < |f| && !(24 <= k < 26) && !(at <= k < at + 4) && !(port <= k < port + 2) ==> r[k] == f[k])
  }

  lemma RelayOutFields(f: seq<byte>, dmac: mac, smac: mac, src: uint32, sport: uint16)
    requires Header(f) && 14 + 4 * Hl(f) <= |f|
    ensures var r := RelayOut(f, dmac, smac, src, sport);
            && Rewritten(f, r, 26, 34) && DstMac(r) == dmac && SrcMac(r) == smac
            && SrcIp(r) == src && SrcPort(r) == sport
  {
  }

  lemma RelayBackFields(f: seq<byte>, dmac: mac, smac: mac, dst: uint32, dport: uint16)
    requires Header(f) && 14 + 4 * Hl(f) <= |f|
    ensures var r := RelayBack(f, dmac, smac, dst, dport);
            && Rewritten(f, r, 30, 36) && DstMac(r) == dmac && SrcMac(r) == smac
            && DstIp(r) == dst && DstPort(r) == dport
  {
  }

  lemma RestampVerifies(f: seq<byte>)
    requires Header(f) && 14 + 4 * Hl(f) <= |f| && Hl(f) >= 3
    ensures IpCheck(IpWords(Restamp(f))) == 0 <==> SingleCarry(ZeroSum(IpWords(f)))
  {
    hide Restamp, Stamp, ZeroSum, IpCheck, SingleCarry;
    RestampWords(f);
    StampVerifies(IpWords(f));
  }

  lemma RestampWords(f: seq<byte>)
    requires Header(f) && 14 + 4 * Hl(f) <= |f| && Hl(f) >= 3
    ensures IpWords(Restamp(f)) == Stamp(IpWords(f))
  {
    var z := Splice(f, 24, [0, 0]);
    assert IpWords(z) == ZeroSum(IpWords(f));
  }

  lemma RestampedZero(f: seq<byte>)
    requires Header(f) && 14 + 4 * Hl(f) <= |f| && Hl(f) >= 3
    ensures ZeroSum(IpWords(Restamp(f))) == ZeroSum(IpWords(f))
  {
  }

  /** A header with its checksum zeroed folds cleanly; one shorter than three words holds no checksum. */
  predicate HeaderClean(f: seq<byte>)
    requires Header(f) && 14 + 4 * Hl(f) <= |f|
  {
    Hl(f) < 3 || SingleCarry(ZeroSum(IpWords(f)))
  }

  /** Whether the header of `f` folds cleanly once an address is written at `at` and a port at `port`; a
      header with options reaches over the ports. */
  predicate CleanAfter(f: seq<byte>, at: nat, ip: uint32, port: nat, number: uint16)
    requires Header(f) && 14 + 4 * Hl(f) <= |f| && 26 <= at <= 30 && 34 <= port <= 36
  {
    var g := Splice(Splice(f, port, Be16(number)), at, Be32(ip));
    assert g[14] == f[14];
    HeaderClean(g)
  }

  /** The accepted frame `f` survives the outward rewrite. */
  predicate RelayOutClean(f: seq<byte>, src: uint32, sport: uint16)
    requires Header(f) && 14 + 4 * Hl(f) <= |f|
  {
    CleanAfter(f, 26, src, 34, sport)
  }

  /** The accepted frame `f` survives the inward rewrite. */
  predicate RelayBackClean(f: seq<byte>, dst: uint32, dport: uint16)
    requires Header(f) && 14 + 4 * Hl(f) <= |f|
  {
    CleanAfter(f, 30, dst, 36, dport)
  }

  /** The outward rewrite of an accepted UDP frame is accepted exactly when the accepted header, with
      the new address and port written into it, folds cleanly; whatever its header length. */
  lemma RelayOutIsValid(f: seq<byte>, dmac: mac, smac: mac, src: uint32, sport: uint16)
    requires ValidUdp(f)
    ensures ValidUdp(RelayOut(f, dmac, smac, src, sport)) <==> RelayOutClean(f, src, sport)
  {
    hide IpCheck, SingleCarry, ZeroSum;
    RelayOutFields(f, dmac, smac, src, sport);
    var g := Splice(Splice(SetMacs(f, dmac, smac), 34, Be16(sport)), 26, Be32(src));
    MacsOutside(g, Splice(Splice(f, 34, Be16(sport)), 26, Be32(src)));
    RewriteIsValid(f, RelayOut(f, dmac, smac, src, sport), g, 26, 34);
  }

  /** The same for the rewrite of a reply. */
  lemma RelayBackIsValid(f: seq<byte>, dmac: mac, smac: mac, dst: uint32, dport: uint16)
    requires ValidUdp(f)
    ensures ValidUdp(RelayBack(f, dmac, smac, dst, dport)) <==> RelayBackClean(f, dst, dport)
  {
    hide IpCheck, SingleCarry, ZeroSum;
    RelayBackFields(f, dmac, smac, dst, dport);
    var g := Splice(Splice(SetMacs(f, dmac, smac), 36, Be16(dport)), 30, Be32(dst));
    MacsOutside(g, Splice(Splice(f, 36, Be16(dport)), 30, Be32(dst)));
    RewriteIsValid(f, RelayBack(f, dmac, smac, dst, dport), g, 30, 36);
  }

  lemma MacsOutside(g: seq<byte>, h: seq<byte>)
    requires Header(g) && |g| == |h| && 14 + 4 * Hl(g) <= |g| && forall k :: 14 <= k < |g| ==> g[k] == h[k]
    ensures IpWords(g) == IpWords(h)
  {
  }

  lemma RewriteIsValid(f: seq<byte>, r: seq<byte>, g: seq<byte>, at: nat, port: nat)
    requires ValidUdp(f) && Rewritten(f, r, at, port) && (at == 26 || at == 30) && (port == 34 || port == 36)
    requires Header(g) && g[14] == f[14] && 14 + 4 * Hl(g) <= |g| && r == Restamp(g)
    ensures ValidUdp(r) <==> HeaderClean(g)
  {
    assert r[14] == f[14] && r[16] == f[16] && r[17] == f[17] && r[23] == f[23];
    assert r[12] == f[12] && r[13] == f[13] && r[38] == f[38] && r[39] == f[39];
    if Hl(f) < 3 {
      assert IpWords(r) == IpWords(f);
    } else {
      RestampVerifies(g);
    }
  }

  // ---- Option-free headers: the condition is on two addresses ----

  /** The IP header of `f` is the one set_ip_header lays out, up to its checksum. */
  predicate Plain(f: seq<byte>, len: uint16, src: uint32, dst: uint32) {
    && Header(f) && Hl(f) == 5
    && ZeroSum(IpWords(f)) == RawHeader(len, UDP, src, dst)
  }

  lemma BuiltIsPlain(dmac: mac, smac: mac, src: uint32, dst: uint32, sport: uint16, dport: uint16, payload: seq<byte>)
    requires 28 + |payload| < 0x1_0000
    ensures Plain(UdpFrame(dmac, smac, src, dst, sport, dport, payload), 28 + |payload|, src, dst)
  {
    hide UdpFrame;
    UdpFrameFields(dmac, smac, src, dst, sport, dport, payload);
    var r := RawHeader(28 + |payload|, UDP, src, dst);
    assert ZeroSum(Stamp(r)) == r;
  }

  /** Replacing the source address of a plain frame: what the outward rewrite checks and leaves. */
  lemma PlainOut(f: seq<byte>, dmac: mac, smac: mac, ip: uint32, port: uint16, len: uint16, src: uint32, dst: uint32)
    requires Plain(f, len, src, dst)
    ensures Plain(RelayOut(f, dmac, smac, ip, port), len, ip, dst)
    ensures RelayOutClean(f, ip, port) <==> BuildsCleanly(len, UDP, ip, dst)
  {
    var h := Splice(Splice(f, 34, Be16(port)), 26, Be32(ip));
    var g := Splice(Splice(SetMacs(f, dmac, smac), 34, Be16(port)), 26, Be32(ip));
    MacsOutside(g, h);
    assert IpWords(h) == Splice(IpWords(f), 12, Be32(ip));
    HeaderReplaced(IpWords(f), 12, ip, len, src, dst);
    RestampedZero(g);
  }

  /** Replacing the destination address of a plain frame, for the inward rewrite. */
  lemma PlainBack(f: seq<byte>, dmac: mac, smac: mac, ip: uint32, port: uint16, len: uint16, src: uint32, dst: uint32)
    requires Plain(f, len, src, dst)
    ensures Plain(RelayBack(f, dmac, smac, ip, port), len, src, ip)
    ensures RelayBackClean(f, ip, port) <==> BuildsCleanly(len, UDP, src, ip)
  {
    var h := Splice(Splice(f, 36, Be16(port)), 30, Be32(ip));
    var g := Splice(Splice(SetMacs(f, dmac, smac), 36, Be16(port)), 30, Be32(ip));
    MacsOutside(g, h);
    assert IpWords(h) == Splice(IpWords(f), 16, Be32(ip));
    HeaderReplaced(IpWords(f), 16, ip, len, src, dst);
    RestampedZero(g);
  }

  lemma HeaderReplaced(w: seq<byte>, at: nat, ip: uint32, len: uint16, src: uint32, dst: uint32)
    requires |w| == 20 && ZeroSum(w) == RawHeader(len, UDP, src, dst) && (at == 12 || at == 16)
    ensures ZeroSum(Splice(w, at, Be32(ip))) == if at == 12 then RawHeader(len, UDP, ip, dst) else RawHeader(len, UDP, src, ip)
  {
    hide HeaderFront, Be32;
    var now := ZeroSum(Splice(w, at, Be32(ip)));
    assert forall k :: 0 <= k < 20 ==> now[k] == if at <= k < at + 4 then Be32(ip)[k - at] else ZeroSum(w)[k];
  }

  // ---- The answer of a server ----

  /** A reply with addresses and ports exchanged and everything above Ethernet otherwise kept. */
  function SwapReply(f: seq<byte>, dmac: mac, smac: mac): (r: seq<byte>)
    requires Header(f)
    ensures |r| == |f|
  {
    Splice(SetMacs(f, dmac, smac), 26, f[30..34] + f[26..30] + f[36..38] + f[34..36])
  }

  lemma SwapReplyBytes(f: seq<byte>, dmac: mac, smac: mac)
    requires Header(f)
    ensures var r := SwapReply(f, dmac, smac);
            && r[..6] == dmac && r[6..12] == smac
            && (forall k :: 12 <= k < |f| && !(26 <= k < 38) ==> r[k] == f[k])
            && r[14..26] == f[14..26] && r[26..30] == f[30..34] && r[30..34] == f[26..30]
            && r[34..36] == f[36..38] && r[36..38] == f[34..36]
  {
  }

  lemma SwapReplyFields(f: seq<byte>, dmac: mac, smac: mac)
    requires Header(f)
    ensures var r := SwapReply(f, dmac, smac);
            && SrcIp(r) == DstIp(f) && DstIp(r) == SrcIp(f) && SrcPort(r) == DstPort(f) && DstPort(r) == SrcPort(f)
            && DstMac(r) == dmac && SrcMac(r) == smac
            && (forall k :: 12 <= k < |f| && !(26 <= k < 38) ==> r[k] == f[k])
            && r[14..26] == f[14..26] && r[26..30] == f[30..34] && r[30..34] == f[26..30]
  {
    hide SwapReply, Get16, Get32;
    var r := SwapReply(f, dmac, smac);
    SwapReplyBytes(f, dmac, smac);
    SameLoad32(r, 26, f, 30);
    SameLoad32(r, 30, f, 26);
    SameLoad16(r, 34, f, 36);
    SameLoad16(r, 36, f, 34);
  }

  lemma SameLoad16(r: seq<byte>, i: nat, f: seq<byte>, j: nat)
    requires i + 2 <= |r| && j + 2 <= |f| && r[i..i + 2] == f[j..j + 2]
    ensures Get16(r, i) == Get16(f, j)
  {
    var u, v := r[i..i + 2], f[j..j + 2];
    assert u[0] == v[0] && u[1] == v[1];
  }

  lemma SameLoad32(r: seq<byte>, i: nat, f: seq<byte>, j: nat)
    requires i + 4 <= |r| && j + 4 <= |f| && r[i..i + 4] == f[j..j + 4]
    ensures Get32(r, i) == Get32(f, j)
  {
    var u, v := r[i..i + 4], f[j..j + 4];
    assert u[0] == v[0] && u[1] == v[1] && u[2] == v[2] && u[3] == v[3];
  }

  /** Exchanging the addresses of an option-free frame keeps it exactly as valid as it was. */
  lemma SwapReplyIsValid(f: seq<byte>, dmac: mac, smac: mac)
    requires Header(f) && Hl(f) == 5
    ensures ValidUdp(SwapReply(f, dmac, smac)) <==> ValidUdp(f)
  {
    SwapReplyFields(f, dmac, smac);
    SwapReplyWords(f, dmac, smac);
    AddressesCommute(IpWords(f));
  }

  lemma SwapReplyWords(f: seq<byte>, dmac: mac, smac: mac)
    requires Header(f) && Hl(f) == 5
    ensures SwapReply(f, dmac, smac)[14] == f[14]
    ensures var h := IpWords(f);
            IpWords(SwapReply(f, dmac, smac)) == h[..12] + h[16..20] + h[12..16]
  {
    hide SwapReply;
    var r, h := SwapReply(f, dmac, smac), IpWords(f);
    SwapReplyFields(f, dmac, smac);
    assert h[..12] == f[14..26] && h[12..16] == f[26..30] && h[16..20] == f[30..34];
    assert IpWords(r) == r[14..26] + r[26..30] + r[30..34];
  }

  lemma AddressesCommute(h: seq<byte>)
    requires |h| == 20
    ensures WordSum(h[..12] + h[16..20] + h[12..16]) == WordSum(h)
  {
    var u, s, d := h[..12], h[12..16], h[16..20];
    assert h == u + s + d;
    WordSumParts(h, u + s, u, s, d);
    WordSumParts(u + d + s, u + d, u, d, s);
  }

  /** The answer to a plain frame is plain, with the addresses exchanged. */
  lemma PlainSwap(f: seq<byte>, dmac: mac, smac: mac, len: uint16, src: uint32, dst: uint32)
    requires Plain(f, len, src, dst)
    ensures Plain(SwapReply(f, dmac, smac), len, dst, src)
  {
    hide SwapReply, ZeroSum, RawHeader, IpWords;
    SwapReplyWords(f, dmac, smac);
    HeaderSwapped(IpWords(f), len, src, dst);
  }

  lemma HeaderSwapped(w: seq<byte>, len: uint16, src: uint32, dst: uint32)
    requires |w| == 20 && ZeroSum(w) == RawHeader(len, UDP, src, dst)
    ensures ZeroSum(w[..12] + w[16..20] + w[12..16]) == RawHeader(len, UDP, dst, src)
  {
    hide HeaderFront, Be32;
    var z := ZeroSum(w);
    assert z[..12] == HeaderFront(len, UDP) && z[12..16] == Be32(src) && z[16..20] == Be32(dst);
    assert ZeroSum(w[..12] + w[16..20] + w[12..16]) == z[..12] + z[16..20] + z[12..16];
  }

  /** Whether a header builds cleanly does not depend on which of the two addresses sends. */
  lemma CleanBothWays(len: uint16, proto: byte, src: uint32, dst: uint32)
    ensures BuildsCleanly(len, proto, src, dst) <==> BuildsCleanly(len, proto, dst, src)
  {
    hide WordSum, HeaderFront, Be32;
    var h := RawHeader(len, proto, src, dst);
    AddressesCommute(h);
    assert h[12..16] == Be32(src) && h[16..20] == Be32(dst);
    assert RawHeader(len, proto, dst, src) == h[..12] + h[16..20] + h[12..16];
  }
}
