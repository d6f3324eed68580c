/** A ping, the server's echo, and the one table entry the echo is counted for. */
module Probing {
  import opened Bytes
  import opened Checksum
  import opened Destination
  import opened Frames
  import opened Overlay
  import opened Tables
  import opened Runs
  import opened Relay

  lemma EchoFrameParts(dmac: mac, smac: mac, src: uint32, dst: uint32, seqId: uint16)
    ensures var f := EchoFrame(dmac, smac, src, dst, seqId);
            && f[..6] == dmac && f[6..12] == smac
            && f[12..14] == [8, 0] && f[14..34] == IpHeader(32, ICMP, src, dst)
            && f[34..46] == IcmpHeader(seqId)
  {
    hide IpHeader, IcmpHeader;
    assert EchoFrame(dmac, smac, src, dst, seqId)[34..] == IcmpHeader(seqId);
  }

  lemma IcmpFields(seqId: uint16)
    ensures var h := IcmpHeader(seqId); h[0] == 8 && h[1] == 0 && h[4..6] == Be16(seqId) && h[8..12] == Be32(COOKIE)
  {
    var r := RawIcmp(seqId);
    assert r[4..6] == Be16(seqId) && r[8..12] == Be32(COOKIE);
  }

  /** The fields of an echo request. */
  lemma EchoFrameFields(dmac: mac, smac: mac, src: uint32, dst: uint32, seqId: uint16)
    ensures var f := EchoFrame(dmac, smac, src, dst, seqId);
            && DstMac(f) == dmac && SrcMac(f) == smac
            && Get16(f, 12) == 0x0800 && Version(f) == 4 && Hl(f) == 5 && Protocol(f) == ICMP && IpLen(f) == 32
            && SrcIp(f) == src && DstIp(f) == dst
            && f[34] == 8 && f[35] == 0 && Get16(f, 38) == seqId && Get32(f, 42) == COOKIE
            && IpWords(f) == IpHeader(32, ICMP, src, dst) && f[34..46] == IcmpHeader(seqId)
  {
    hide IpHeader, EchoFrame, IcmpHeader, Get16, Get32, Be16, Be32, BuildsCleanly, IpCheck;
    var f := EchoFrame(dmac, smac, src, dst, seqId);
    EchoFrameParts(dmac, smac, src, dst, seqId);
    HeaderFields(32, ICMP, src, dst);
    IcmpFields(seqId);
    var h, c := f[14..34], f[34..46];
    assert f[14] == h[0] && f[23] == h[9] && f[34] == c[0] && f[35] == c[1];
    SubSlice(f, 14, 34, 2, 4);
    SubSlice(f, 14, 34, 12, 16);
    SubSlice(f, 14, 34, 16, 20);
    SubSlice(f, 34, 46, 4, 6);
    SubSlice(f, 34, 46, 8, 12);
    Get16Inverse(32, f, 16);
    Get32Inverse(src, f, 26);
    Get32Inverse(dst, f, 30);
    Get16Inverse(seqId, f, 38);
    Get32Inverse(COOKIE, f, 42);
    EtherType(f);
  }

  /** One echo request leaves outside for `dst`, with the number `seqId`. */
  ghost predicate Asks(n: Node, sent: Sent, dst: uint32, seqId: uint16) {
    && sent.iface == 1 && |sent.frame| == 46
    && var f := sent.frame;
       && DstMac(f) == n.gatewayMac && SrcMac(f) == n.outside.mac
       && Get16(f, 12) == 0x0800 && Version(f) == 4 && Hl(f) == 5 && Protocol(f) == 1 && IpLen(f) == 32
       && SrcIp(f) == n.outside.ip && DstIp(f) == dst
       && f[34] == 8 && f[35] == 0 && Get16(f, 38) == seqId && Get32(f, 42) == 0x12345678
       && OnesSum(f[34..46]) == 65535
       && (IpCheck(IpWords(f)) == 0 <==> BuildsCleanly(32, 1, n.outside.ip, dst))
  }

  lemma PingFrameAsks(n: Node, s: Server)
    ensures Asks(n, Sent(PingFrame(n, s), 1), s.ip.uint, s.sequenceId)
  {
    hide EchoFrame, IpHeader, IcmpHeader, BuildsCleanly, IpCheck, OnesSum, Get16, Get32;
    EchoFrameFields(n.gatewayMac, n.outside.mac, n.outside.ip, s.ip.uint, s.sequenceId);
    HeaderFields(32, ICMP, n.outside.ip, s.ip.uint);
    IcmpVerifies(s.sequenceId);
  }

  lemma {:induction false} PingFrameAt(n: Node, k: nat)
    requires k <= |n.servers|
    ensures |PingFrames(n, k)| == k
    ensures forall i :: 0 <= i < k ==> PingFrames(n, k)[i] == Sent(PingFrame(n, n.servers[i]), 1)
  {
    hide PingFrame;
    if k > 0 {
      PingFrameAt(n, k - 1);
    }
  }

  /** `ping` sends one echo request to each configured server, in order, with the number the entry has then. */
  lemma PingAsksEachServer(n: Node)
    requires Ok(n)
    ensures |Act(n, PingCommand).1| == n.configured
    ensures forall i :: 0 <= i < n.configured ==>
              Asks(n, Act(n, PingCommand).1[i], n.servers[i].ip.uint, n.servers[i].sequenceId)
  {
    hide Asks, PingFrame;
    PingFrameAt(n, n.configured);
    forall i | 0 <= i < n.configured
      ensures Asks(n, Act(n, PingCommand).1[i], n.servers[i].ip.uint, n.servers[i].sequenceId)
    {
      PingFrameAsks(n, n.servers[i]);
    }
  }

  /** What a server may send back: MACs and addresses exchanged, and its own type, code, checksum and
      cookie. */
  datatype Back = Back(dmac: mac, smac: mac, kind: byte, code: byte, sum: uint16, cookie: uint32)
  {
    /** An echo reply with the request's cookie. */
    predicate Echoes() { kind == 0 && code == 0 && cookie == 0x12345678 }
  }

  function Answer(f: seq<byte>, w: Back): (r: seq<byte>)
    requires |f| == 46
    ensures |r| == 46
  {
    Splice(Splice(SwapReply(f, w.dmac, w.smac), 34, [w.kind, w.code] + Be16(w.sum)), 42, Be32(w.cookie))
  }

  lemma AnswerFields(f: seq<byte>, w: Back)
    requires |f| == 46 && Hl(f) == 5
    ensures var r := Answer(f, w);
            && (forall k :: 12 <= k < 26 || 38 <= k < 42 ==> r[k] == f[k]) && r[34] == w.kind && r[35] == w.code
            && Get32(r, 42) == w.cookie
            && SrcIp(r) == DstIp(f) && DstIp(r) == SrcIp(f)
            && WordSum(IpWords(r)) == WordSum(IpWords(f))
  {
    hide SwapReply, WordSum, Get32, Be32;
    var s, r := SwapReply(f, w.dmac, w.smac), Answer(f, w);
    SwapReplyFields(f, w.dmac, w.smac);
    SwapReplyWords(f, w.dmac, w.smac);
    AddressesCommute(IpWords(f));
    assert r[14..34] == s[14..34] && r[26..30] == s[26..30] && r[30..34] == s[30..34];
    SameLoad32(r, 26, s, 26);
    SameLoad32(r, 30, s, 30);
    assert r[42..46] == Be32(w.cookie);
    Get32Inverse(w.cookie, r, 42);
  }

  /** Whoever receives an answer to a request takes it for an echo, and reads from it the probed address
      and the number, exactly when it is an echo reply with the cookie and the addresses sum cleanly;
      anything else is ignored. */
  lemma EchoAccepted(n: Node, src: uint32, dst: uint32, seqId: uint16, f: seq<byte>, buffer: seq<byte>, macs: (mac, mac), w: Back)
    requires f == EchoFrame(macs.0, macs.1, src, dst, seqId) && Arrived(buffer, Answer(f, w))
    ensures Classify(n, buffer, 46) == if w.Echoes() && BuildsCleanly(32, ICMP, src, dst) then EchoReply(dst, seqId) else Ignored
  {
    hide EchoFrame, Answer, IpHeader, WordSum, BuildsCleanly, UdpKind;
    EchoFrameFields(macs.0, macs.1, src, dst, seqId);
    HeaderFields(32, ICMP, src, dst);
    AnswerFields(f, w);
    assert forall k :: 0 <= k < 46 ==> buffer[k] == Answer(f, w)[k];
    assert IpWords(buffer) == IpWords(Answer(f, w));
  }

  /** A node ignores echo requests, its own and its peers'. */
  lemma RequestsAreIgnored(n: Node, m: Node, sent: Sent, dst: uint32, seqId: uint16, buffer: seq<byte>)
    requires Asks(m, sent, dst, seqId) && Arrived(buffer, sent.frame)
    ensures Classify(n, buffer, 46) == Ignored
  {
    hide UdpKind, WordSum, OnesSum;
    assert forall k :: 0 <= k < 46 ==> buffer[k] == sent.frame[k];
  }

  /** Every header checksum field set by check_sum_icmp makes the whole string sum to all ones, which is
      what a receiver following RFC 1071 section 1 verifies. */
  lemma IcmpVerifies(seqId: uint16)
    ensures OnesSum(IcmpHeader(seqId)) == 65535
  {
    StampedSumIsOnes(RawIcmp(seqId), 2);
  }

  // ---- The round trip ----

  lemma {:induction false} NumberKept(s: Server, gw: IpInfo, t: seq<Event>)
    requires forall e :: e in t ==> !e.Ping?
    ensures Run(s, gw, t).sequenceId == s.sequenceId
  {
    if t != [] {
      NumberKept(s, gw, t[..|t| - 1]);
    }
  }

  lemma OthersKeepNumber(n: Node, a: Input, i: nat)
    requires WellFormed(n) && Ok(n) && Enabled(n, a) && i < |n.servers| && !a.PingCommand?
    ensures var r := Act(n, a).0;
            i < |r.servers| && r.servers[i].sequenceId == n.servers[i].sequenceId && r.servers[i].ip == n.servers[i].ip
  {
    hide WellFormed, Act, KindEvents, Classify, Run;
    var ip := n.servers[i].ip.uint;
    ActEntry(n, a, i);
    if a.FrameArrives? {
      FramesBring(n, Classify(n, a.buffer, a.length), a.delays, i, ip);
    }
    NumberKept(n.servers[i], n.gateway, Events(n, a, i, ip));
  }

  lemma PingRaisesNumber(n: Node, i: nat)
    requires Ok(n) && i < n.configured
    ensures var r := Act(n, PingCommand).0;
            && |r.servers| == |n.servers| && r.servers[i].ip == n.servers[i].ip
            && r.servers[i].sequenceId == (n.servers[i].sequenceId + 1) % 65536
  {
  }

  /** The run `ins` starts with a `ping` and has no other. */
  predicate OnePing(ins: seq<Input>) {
    ins != [] && ins[0].PingCommand? && forall k :: 0 < k < |ins| ==> !ins[k].PingCommand?
  }

  lemma {:induction false} NumberAfterPing(ns: seq<Node>, ins: seq<Input>, i: nat, k: nat)
    requires Behaviour(ns, ins) && WellFormed(ns[0]) && OnePing(ins) && i < ns[0].configured && 0 < k < |ns|
    ensures Ok(ns[0]) && i < |ns[0].servers| && i < |ns[k].servers|
    ensures ns[k].servers[i].ip == ns[0].servers[i].ip
    ensures ns[k].servers[i].sequenceId == (ns[0].servers[i].sequenceId + 1) % 65536
  {
    hide WellFormed, Act, Enabled;
    if k == 1 {
      PingRaisesNumber(ns[0], i);
    } else {
      NumberAfterPing(ns, ins, i, k - 1);
      AlwaysWellFormed(ns, ins, k - 1);
      OthersKeepNumber(ns[k - 1], ins[k - 1], i);
    }
  }

  /** The step `r` of `m` counts a reply for entry `i` alone, if it counts one at all, and sends nothing. */
  ghost predicate CountsOnly(m: Node, r: (Node, seq<Sent>), i: nat, counts: bool, delay: uint16)
    requires i < |m.servers|
  {
    && r.1 == [] && r.0 == m.(servers := r.0.servers) && |r.0.servers| == |m.servers|
    && forall j :: 0 <= j < |m.servers| ==> r.0.servers[j] == if j == i && counts then CountedEntry(m, i, delay) else m.servers[j]
  }

  function CountedEntry(m: Node, i: nat, delay: uint16): Server
    requires i < |m.servers|
  {
    var s := CountReply(m.servers[i], delay);
    LearnFrom(s, m.gateway, s.rtt, s.lostRate)
  }

  lemma EchoTable(m: Node, i: nat, seqId: uint16, delays: seq<uint16>, j: nat)
    requires WellFormed(m) && i < m.configured <= |m.servers| && |delays| == m.configured && j < |m.servers|
    requires m.servers[i].sequenceId == (seqId + 1) % 65536
    ensures EchoUpTo(m.servers, m.gateway, m.servers[i].ip.uint, seqId, delays, m.configured)[j]
            == if j == i && seqId != 65535 then CountedEntry(m, i, delays[i]) else m.servers[j]
  {
    hide CountReply, LearnFrom, EchoUpTo;
    EchoEntries(m.servers, m.gateway, m.servers[i].ip.uint, seqId, delays, m.configured, j);
  }

  /** An echo of the probed address and number, taken in while the entry has the next number, changes that
      entry alone, unless the number was 65535: then nothing changes. */
  lemma EchoIsCounted(m: Node, i: nat, seqId: uint16, delays: seq<uint16>)
    requires WellFormed(m) && Ok(m) && i < m.configured && |delays| == m.configured
    requires m.servers[i].sequenceId == (seqId + 1) % 65536
    ensures CountsOnly(m, Process(m, EchoReply(m.servers[i].ip.uint, seqId), delays), i, seqId != 65535, delays[i])
  {
    hide CountedEntry, EchoUpTo, WellFormed;
    forall j | 0 <= j < |m.servers|
      ensures EchoUpTo(m.servers, m.gateway, m.servers[i].ip.uint, seqId, delays, m.configured)[j]
              == if j == i && seqId != 65535 then CountedEntry(m, i, delays[i]) else m.servers[j]
    {
      EchoTable(m, i, seqId, delays, j);
    }
  }

  /** End to end: whatever a run does after a `ping`, short of another, an echo of the request that the
      `ping` sent to entry `i` is counted for entry `i` alone, exactly when its addresses sum cleanly and
      its number was not 65535; otherwise nothing changes. */
  lemma PingRoundTrip(ns: seq<Node>, ins: seq<Input>, i: nat, buffer: seq<byte>, delays: seq<uint16>, w: Back)
    requires Behaviour(ns, ins) && WellFormed(ns[0]) && OnePing(ins) && i < ns[0].configured
    requires Ok(ns[0]) && |delays| == ns[0].configured && w.Echoes()
    requires var out := Act(ns[0], PingCommand).1;
             |out| == ns[0].configured && |out[i].frame| == 46 && Arrived(buffer, Answer(out[i].frame, w))
    ensures var n, m, a := ns[0], ns[|ins|], FrameArrives(buffer, 46, delays);
            && i < |n.servers| && i < |m.servers| && Ok(m) && Enabled(m, a)
            && CountsOnly(m, Act(m, a), i,
                          n.servers[i].sequenceId != 65535 && BuildsCleanly(32, 1, n.outside.ip, n.servers[i].ip.uint), delays[i])
  {
    hide PingFrame, Answer, BuildsCleanly, Classify, Process, WellFormed, Act, Accepts, Enabled, CountedEntry;
    var n, m := ns[0], ns[|ins|];
    var s := n.servers[i];
    PingSends(n, i);
    NumberAfterPing(ns, ins, i, |ins|);
    AlwaysWellFormed(ns, ins, |ins|);
    WellFormedBasics(m);
    PingAccepted(m, n, s, buffer, w);
    EchoIsProcessed(m, buffer, delays);
    EchoIsCounted(m, i, s.sequenceId, delays);
  }

  lemma PingSends(n: Node, i: nat)
    requires Ok(n) && i < n.configured
    ensures |Act(n, PingCommand).1| == n.configured
    ensures Act(n, PingCommand).1[i] == Sent(PingFrame(n, n.servers[i]), 1)
  {
    hide PingFrame;
    PingFrameAt(n, n.configured);
  }

  lemma PingAccepted(m: Node, n: Node, s: Server, buffer: seq<byte>, w: Back)
    requires |PingFrame(n, s)| == 46 && Arrived(buffer, Answer(PingFrame(n, s), w))
    ensures Classify(m, buffer, 46)
            == if w.Echoes() && BuildsCleanly(32, 1, n.outside.ip, s.ip.uint) then EchoReply(s.ip.uint, s.sequenceId) else Ignored
  {
    hide Classify, Answer, BuildsCleanly, EchoFrame;
    EchoAccepted(m, n.outside.ip, s.ip.uint, s.sequenceId, PingFrame(n, s), buffer, (n.gatewayMac, n.outside.mac), w);
  }

  lemma EchoIsProcessed(m: Node, buffer: seq<byte>, delays: seq<uint16>)
    requires Ok(m) && Buffer(buffer) && |delays| == m.configured
    ensures var k, a := Classify(m, buffer, 46), FrameArrives(buffer, 46, delays);
            && (k == Ignored ==> Enabled(m, a) && Act(m, a) == (m, []))
            && (k.EchoReply? ==> Accepts(m, k, delays) && Enabled(m, a) && Act(m, a) == Process(m, k, delays))
  {
    hide Classify;
  }
}
