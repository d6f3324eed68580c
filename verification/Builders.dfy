/** The frame-building routines on mutable buffers, against the frames of `Frames`. */
module Builders {
  import opened Bytes
  import opened Checksum
  import opened Frames

  lemma SpliceAppend(s: seq<byte>, off: nat, u: seq<byte>, v: seq<byte>)
    requires off + |u| + |v| <= |s|
    ensures Splice(Splice(s, off, u), off + |u|, v) == Splice(s, off, u + v)
  {
  }

  lemma SpliceInner(s: seq<byte>, off: nat, u: seq<byte>, at: nat, v: seq<byte>)
    requires off + |u| <= |s| && at + |v| <= |u|
    ensures Splice(Splice(s, off, u), off + at, v) == Splice(s, off, Splice(u, at, v))
  {
  }

  lemma SpliceSlice(s: seq<byte>, off: nat, u: seq<byte>)
    requires off + |u| <= |s|
    ensures Splice(s, off, u)[off..off + |u|] == u
  {
  }

  /** The fields set_ip_header writes before the checksum. */
  method WriteRawHeader(a: array<byte>, len: uint16, proto: byte, src: uint32, dst: uint32)
    requires a.Length >= 34
    modifies a
    ensures a[..] == Splice(old(a[..]), 14, RawHeader(len, proto, src, dst))
  {
    ghost var s := a[..];
    var start: seq<byte> := [0x45, 0];
    var middle: seq<byte> := [0, 0, 0, 0, 64, proto, 0, 0];
    var l, from, to := Be16(len), Be32(src), Be32(dst);
    hide Be16, Be32, Splice;
    Put(a, 14, start);
    Put(a, 16, l);
    SpliceAppend(s, 14, start, l);
    Put(a, 18, middle);
    SpliceAppend(s, 14, start + l, middle);
    Put(a, 26, from);
    SpliceAppend(s, 14, start + l + middle, from);
    Put(a, 30, to);
    SpliceAppend(s, 14, start + l + middle + from, to);
  }

  /** set_ip_header at offset 14, once source address and length are chosen. */
  method WriteIpHeader(a: array<byte>, len: uint16, proto: byte, src: uint32, dst: uint32)
    requires a.Length >= 34
    modifies a
    ensures a[..] == Splice(old(a[..]), 14, IpHeader(len, proto, src, dst))
  {
    ghost var s, raw := a[..], RawHeader(len, proto, src, dst);
    WriteRawHeader(a, len, proto, src, dst);
    SpliceSlice(s, 14, raw);
    assert a[14..34] == a[..][14..34];
    assert ZeroSum(raw) == raw;
    hide RawHeader, ZeroSum;
    var sum := CheckSumIp(a, 14, 5);
    Put(a, 24, Le16(sum));
    SpliceInner(s, 14, raw, 10, Le16(sum));
  }

  /** A fresh frame with the given headers and payload: send_advertise_packet, send_udp_packet. */
  method BuildUdp(dmac: mac, smac: mac, src: uint32, dst: uint32, sport: uint16, dport: uint16, payload: seq<byte>)
    returns (a: array<byte>)
    ensures fresh(a) && a[..] == UdpFrame(dmac, smac, src, dst, sport, dport, payload)
  {
    hide IpHeader, UdpHeader, Be16, Be32, Le16;
    var ethertype: seq<byte> := [8, 0];
    a := new byte[UDP_SIZE + |payload|];
    Put(a, 12, ethertype);
    WriteIpHeader(a, (28 + |payload|) % 0x1_0000, UDP, src, dst);
    ghost var h := IpHeader((28 + |payload|) % 0x1_0000, UDP, src, dst);
    Put(a, 34, UdpHeader(sport, dport, (8 + |payload|) % 0x1_0000));
    Put(a, 42, payload);
    Put(a, 6, smac);
    Put(a, 0, dmac);
    ghost var f := UdpFrame(dmac, smac, src, dst, sport, dport, payload);
    assert |a[..]| == |f| && forall k :: 0 <= k < |f| ==> a[..][k] == f[k] by {
      assert f == EthernetHeader(dmac, smac) + h + UdpHeader(sport, dport, (8 + |payload|) % 0x1_0000) + payload;
    }
  }

  /** send_icmp_packet: an echo request. */
  method BuildPing(dmac: mac, smac: mac, src: uint32, dst: uint32, seqId: uint16) returns (a: array<byte>)
    ensures fresh(a) && a[..] == EchoFrame(dmac, smac, src, dst, seqId)
  {
    a := new byte[ICMP_SIZE];
    Put(a, 6, smac);
    Put(a, 0, dmac);
    var ethertype: seq<byte> := [8, 0];
    Put(a, 12, ethertype);
    WriteIpHeader(a, 32, ICMP, src, dst);
    ghost var h := IpHeader(32, ICMP, src, dst);
    WriteIcmp(a, seqId);
    ghost var f := EchoFrame(dmac, smac, src, dst, seqId);
    assert |a[..]| == |f| && forall k :: 0 <= k < |f| ==> a[..][k] == f[k] by {
      hide IpHeader, IcmpHeader;
      assert f == EthernetHeader(dmac, smac) + h + IcmpHeader(seqId);
    }
  }

  /** set_icmp_header_in_ping_packet at offset 34. */
  method WriteIcmp(a: array<byte>, seqId: uint16)
    requires a.Length >= 46
    modifies a
    ensures a[..] == Splice(old(a[..]), 34, IcmpHeader(seqId))
  {
    ghost var s := a[..];
    var raw := RawIcmp(seqId);
    Put(a, 34, raw);
    SpliceSlice(s, 34, raw);
    assert a[34..46] == a[..][34..46];
    hide RawIcmp;
    var sum := CheckSumIcmp(a, 34);
    Put(a, 36, Le16(sum));
    SpliceInner(s, 34, raw, 2, Le16(sum));
  }

  /** ip_sum = 0; ip_sum = check_sum_ip(ip, ip_hl), in place. */
  method RestampInPlace(a: array<byte>)
    requires Header(a[..]) && 14 + 4 * Hl(a[..]) <= a.Length
    modifies a
    ensures a[..] == Restamp(old(a[..]))
  {
    Put(a, 24, [0, 0]);
    var hl := a[14] % 16;
    var sum := CheckSumIp(a, 14, hl);
    assert a[14..14 + 4 * hl] == IpWords(a[..]);
    Put(a, 24, Le16(sum));
  }

  /** The outward rewrite on a private copy of the frame. */
  method RewriteOut(frame: array<byte>, dmac: mac, smac: mac, src: uint32, sport: uint16) returns (data: array<byte>)
    requires Header(frame[..]) && 14 + 4 * Hl(frame[..]) <= frame.Length
    ensures fresh(data) && data[..] == RelayOut(frame[..], dmac, smac, src, sport)
  {
    hide Restamp, Splice, IpCheck;
    ghost var f := frame[..];
    data := Copy(frame);
    Put(data, 6, smac);
    Put(data, 0, dmac);
    Put(data, 34, Be16(sport));
    Put(data, 26, Be32(src));
    assert data[..][14] == f[14];
    RestampInPlace(data);
  }

  /** The inward rewrite on a private copy of the frame. */
  method RewriteBack(frame: array<byte>, dmac: mac, smac: mac, dst: uint32, dport: uint16) returns (data: array<byte>)
    requires Header(frame[..]) && 14 + 4 * Hl(frame[..]) <= frame.Length
    ensures fresh(data) && data[..] == RelayBack(frame[..], dmac, smac, dst, dport)
  {
    hide Restamp, Splice, IpCheck;
    ghost var f := frame[..];
    data := Copy(frame);
    Put(data, 6, smac);
    Put(data, 0, dmac);
    Put(data, 36, Be16(dport));
    Put(data, 30, Be32(dst));
    assert data[..][14] == f[14];
    RestampInPlace(data);
  }

  method Copy(frame: array<byte>) returns (data: array<byte>)
    ensures fresh(data) && data[..] == frame[..]
  {
    data := new byte[frame.Length];
    Put(data, 0, frame[..]);
  }

  /** Copies `v` behind the first `off` bytes. */
  method Append(a: array<byte>, off: nat, v: seq<byte>)
    requires off + |v| <= a.Length
    modifies a
    ensures a[..off + |v|] == old(a[..off]) + v
  {
    Put(a, off, v);
    assert a[..off + |v|] == a[..][..off + |v|];
  }
}
