/** An advertisement on its way from one node to another. */
module Gossip {
  import opened Bytes
  import opened Checksum
  import opened Learning
  import opened Destination
  import opened Advert
  import opened Frames
  import opened Overlay
  import opened Tables
  import opened Runs
  import opened Discovery
  import opened Relay
  import Address
  import Probing
  import Wire

  function Advertised(b: Node): seq<Server>
    requires Ok(b)
  {
    UpServers(b.servers[..b.configured])
  }

  predicate CleanAdvert(b: Node)
    requires Ok(b)
  {
    BuildsCleanly((32 + RECORD * |Advertised(b)|) % 0x1_0000, UDP, b.inside.ip, BROADCAST)
  }

  lemma {:induction false} UpServersFew(table: seq<Server>)
    ensures |UpServers(table)| <= |table|
  {
    if table != [] {
      UpServersFew(table[..|table| - 1]);
    }
  }

  /** `advertise` broadcasts one frame inside, from and to port 5000, with the table of the configured
      servers that are up. */
  lemma AdvertLeaves(b: Node)
    requires Ok(b) && Enabled(b, AdvertiseCommand)
    ensures var out := Act(b, AdvertiseCommand).1;
            && |out| == 1 && out[0].iface == 0 && |out[0].frame| == 46 + 12 * |Advertised(b)|
            && var f := out[0].frame;
               && DstMac(f) == [255, 255, 255, 255, 255, 255] && SrcMac(f) == b.inside.mac
               && SrcIp(f) == b.inside.ip && DstIp(f) == 0xFFFF_FFFF && SrcPort(f) == 5000 && DstPort(f) == 5000
               && Protocol(f) == 17 && Hl(f) == 5
               && f[42..] == EncodeTable(b.servers[..b.configured])
               && (ValidUdp(f) <==> CleanAdvert(b))
  {
    hide UdpFrame, ValidUdp, BuildsCleanly, EncodeTable, Get16, Get32, IpHeader, IpWords, IpCheck, UpServers, Snapshot, ResetLearning;
    UpServersFew(b.servers[..b.configured]);
    var p := EncodeTable(b.servers[..b.configured]);
    UdpFrameFields(BROADCAST_MAC, b.inside.mac, b.inside.ip, BROADCAST, ADVERT_PORT, ADVERT_PORT, p);
    BuiltIsValid(BROADCAST_MAC, b.inside.mac, b.inside.ip, BROADCAST, ADVERT_PORT, ADVERT_PORT, p);
  }

  /** What a receiver makes of a broadcast that fits its buffer: the sender's address, MAC and table. */
  lemma AdvertKind(b: Node, a: Node, buffer: seq<byte>)
    requires Ok(b) && Arrived(buffer, AdvertFrame(b))
    ensures Classify(a, buffer, |AdvertFrame(b)|)
            == if CleanAdvert(b) then Advertisement(b.inside.ip, b.inside.mac, EncodeTable(b.servers[..b.configured]))
               else Ignored
  {
    hide UdpFrame, ValidUdp, BuildsCleanly, Classify, EncodeTable, IpHeader, IpCheck, IpWords, Hl, Version, IpLen, UdpLen;
    var p := EncodeTable(b.servers[..b.configured]);
    UdpFrameFields(BROADCAST_MAC, b.inside.mac, b.inside.ip, BROADCAST, ADVERT_PORT, ADVERT_PORT, p);
    BuiltIsValid(BROADCAST_MAC, b.inside.mac, b.inside.ip, BROADCAST, ADVERT_PORT, ADVERT_PORT, p);
    ArrivedKind(a, buffer, AdvertFrame(b));
  }

  /** End to end: a receiver with room in its table learns from a clean broadcast exactly the sender's
      servers that are up, in order, with the sender as next hop, and stores the sender's MAC. */
  lemma AdvertDelivered(b: Node, a: Node, buffer: seq<byte>, delays: seq<uint16>)
    requires Ok(a) && Ok(b) && Arrived(buffer, AdvertFrame(b)) && CleanAdvert(b)
    requires |a.servers| + |Advertised(b)| <= MAX_SERVERS
    ensures var i, told := FrameArrives(buffer, |AdvertFrame(b)|, delays), ToldAll(Advertised(b));
            && Enabled(a, i)
            && Act(a, i) == (a.(servers := AdvertUpTo(a.servers, Named(b.inside.ip), told, |told|),
                                ipToMac := a.ipToMac[b.inside.ip := b.inside.mac]), [])
            && (Distinct(a.servers) ==>
                  AllTaught(Act(a, i).0.servers, Heard(a.servers, told, |told|), a.gateway,
                            IpInfo(b.inside.ip, Address.Print(b.inside.ip)), told, |told|))
  {
    hide AdvertFrame, CleanAdvert, Classify, EncodeTable, AdvertUpTo, Records, ToldAll, UpServers, Readable;
    hide AllTaught, Heard;
    AdvertKind(b, a, buffer);
    AdvertRoundTrip(b.servers[..b.configured]);
    if Distinct(a.servers) {
      var told := ToldAll(Advertised(b));
      RecordsTeach(a.servers, a.gateway, Named(b.inside.ip), told, |told|);
    }
  }

  /** The loss a receiver learns for a server with exact counters is the sender's own exactly when the
      byte pairs of the counters are proportional; so it is whenever both are below 256. */
  lemma ToldLossIsTrue(s: Server, log: seq<Probe>)
    requires Accounted(s, log) && s.Up()
    ensures Told(s).lost == s.lostRate <==> ProportionalBytes(s.received, s.sent)
    ensures s.received < 256 && s.sent < 256 ==> Told(s).lost == s.lostRate
  {
    SwappedLossExact(s.received, s.sent);
  }

  // ---- Everything a node emits can be sent ----

  ghost predicate Sendable(out: seq<Sent>) {
    forall k :: 0 <= k < |out| ==> out[k].iface <= 1 && !Wire.Refused(Wire.SendFrame(out[k].frame, out[k].iface))
  }

  lemma ProcessSends(n: Node, k: Kind, delays: seq<uint16>)
    requires Ok(n) && Accepts(n, k, delays)
    requires k.RelayRequest? || k.RelayReply? ==> |k.frame| <= FRAME_BUFFER
    ensures Sendable(Process(n, k, delays).1)
  {
    hide RelayOut, RelayBack, EchoUpTo, AdvertUpTo;
  }

  lemma PingSendable(n: Node)
    requires Ok(n)
    ensures Sendable(Act(n, PingCommand).1)
  {
    hide PingFrame, MapServers;
    Probing.PingFrameAt(n, n.configured);
    PingSizes(n);
  }

  lemma SendSendable(n: Node, dst: string, dsa: bool)
    requires Ok(n) && Enabled(n, SendCommand(dst, dsa))
    ensures Sendable(Act(n, SendCommand(dst, dsa)).1)
  {
    hide ProbeFrame, HopFor, Lookup;
    ProbeSizes(n);
  }

  /** No frame a command or a received frame makes the node send is refused for its size, and each goes to
      one of its two interfaces. */
  lemma EmittedIsSendable(n: Node, a: Input)
    requires Ok(n) && Enabled(n, a)
    ensures Sendable(Act(n, a).1)
  {
    hide Enabled, Act;
    match a
    case PingCommand => PingSendable(n);
    case AdvertiseCommand => AdvertiseSendable(n);
    case SendCommand(dst, dsa) => SendSendable(n, dst, dsa);
    case FrameArrives(b, length, delays) => FrameSendable(n, b, length, delays);
  }

  lemma AdvertiseSendable(n: Node)
    requires Ok(n) && Enabled(n, AdvertiseCommand)
    ensures Sendable(Act(n, AdvertiseCommand).1)
  {
    hide Enabled, Act, EncodeTable, UpServers;
    AdvertisedFew(n);
    AdvertLeaves(n);
  }

  lemma FrameSendable(n: Node, b: seq<byte>, length: nat, delays: seq<uint16>)
    requires Ok(n) && Enabled(n, FrameArrives(b, length, delays))
    ensures Sendable(Act(n, FrameArrives(b, length, delays)).1)
  {
    hide Process, Classify, Accepts;
    ClassifiedSize(n, b, length);
    ProcessSends(n, Classify(n, b, length), delays);
  }

  lemma AdvertisedFew(b: Node)
    requires Ok(b) && Enabled(b, AdvertiseCommand)
    ensures |Advertised(b)| <= MAX_SERVERS
  {
    UpServersFew(b.servers[..b.configured]);
  }

  lemma PingSizes(n: Node)
    ensures forall s :: |PingFrame(n, s)| == 46
  {
  }

  lemma ProbeSizes(n: Node)
    ensures forall dst: uint32, hop: uint32, dsa: bool ::
              hop == n.gateway.uint || hop in n.ipToMac ==> |ProbeFrame(n, dst, hop, dsa)| == 46
  {
  }

  lemma ClassifiedSize(n: Node, b: seq<byte>, length: nat)
    requires Buffer(b) && length <= FRAME_BUFFER
    ensures var k := Classify(n, b, length); k.RelayRequest? || k.RelayReply? ==> |k.frame| <= FRAME_BUFFER
  {
  }

  // ---- Stored MACs ----

  lemma ActKeepsMacs(n: Node, a: Input)
    requires Ok(n) && Enabled(n, a)
    ensures n.ipToMac.Keys <= Act(n, a).0.ipToMac.Keys
  {
    hide Classify, UdpKind, EchoUpTo, AdvertUpTo, RelayOut, RelayBack, ProbeFrame, HopFor;
  }

  lemma {:induction false} MacsPersist(ns: seq<Node>, ins: seq<Input>, k: nat)
    requires Behaviour(ns, ins) && k < |ns|
    ensures ns[0].ipToMac.Keys <= ns[k].ipToMac.Keys
  {
    hide Act, Enabled, Ok;
    if k > 0 {
      MacsPersist(ns, ins, k - 1);
      ActKeepsMacs(ns[k - 1], ins[k - 1]);
    }
  }

  /** A peer that has ever taken in an advertisement of `a` can return replies to `a` for ever: the
      MAC that the relay round trip asks for is there. */
  lemma AdvertiserHasMac(a: Node, b: Node, buffer: seq<byte>, delays: seq<uint16>, later: Node)
    requires Ok(a) && Ok(b) && Arrived(buffer, AdvertFrame(a)) && CleanAdvert(a)
    requires |b.servers| + |Advertised(a)| <= MAX_SERVERS
    requires var i := FrameArrives(buffer, |AdvertFrame(a)|, delays);
             Enabled(b, i) && Later(Act(b, i).0, later)
    ensures a.inside.ip in later.ipToMac
  {
    hide AdvertFrame, CleanAdvert, Act, Advertised;
    AdvertDelivered(a, b, buffer, delays);
    var first := Act(b, FrameArrives(buffer, |AdvertFrame(a)|, delays)).0;
    var ns: seq<Node>, ins: seq<Input> :| Behaviour(ns, ins) && ns[0] == first && ns[|ins|] == later;
    MacsPersist(ns, ins, |ins|);
  }
}
