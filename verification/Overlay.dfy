/** The overlay node as a value: its tables, and what each command and each frame does to them. */
module Overlay {
  import opened Bytes
  import opened Checksum
  import opened Learning
  import opened Destination
  import opened Advert
  import opened Frames
  import opened Ports
  import Address

  datatype Iface = Iface(mac: mac, ip: uint32)

  /** A call of sendFrame: the frame and the interface index. */
  datatype Sent = Sent(frame: seq<byte>, iface: nat)

  const MAX_SERVERS := 1000
  const ADVERT_PORT: uint16 := 5000
  const DSA_PORT: uint16 := 1000
  const LSA_PORT: uint16 := 2000
  const BROADCAST: uint32 := 0xFFFF_FFFF
  const BROADCAST_MAC: mac := [255, 255, 255, 255, 255, 255]

  /** `inside` is interface 0, towards the peers; `outside` is interface 1, towards the gateway. The NAT
      maps hold in host order what the source keeps in network order. */
  datatype Node = Node(
    servers: seq<Server>, configured: nat, gateway: IpInfo, gatewayMac: mac, inside: Iface, outside: Iface,
    ipToId: map<uint32, nat>, ipToMac: map<uint32, mac>,
    srcPort: nat, portToIp: map<uint16, uint32>, portToPort: map<uint16, uint16>)

  /** What every indexing below relies on. */
  predicate Ok(n: Node) {
    && n.configured <= |n.servers|
    && n.portToIp.Keys == n.portToPort.Keys
  }

  function Named(ip: uint32): IpInfo {
    IpInfo(ip, Address.Print(ip))
  }

  // ---- The server table ----

  /** get_index_by_ip: the first entry with the address, or -1. */
  function FindFrom(table: seq<Server>, ip: uint32, i: nat): (k: int)
    requires i <= |table|
    ensures k == -1 ==> forall j :: i <= j < |table| ==> table[j].ip.uint != ip
    ensures k != -1 ==> i <= k < |table| && table[k].ip.uint == ip && forall j :: i <= j < k ==> table[j].ip.uint != ip
    decreases |table| - i
  {
    if i == |table| then -1 else if table[i].ip.uint == ip then i else FindFrom(table, ip, i + 1)
  }

  function Find(table: seq<Server>, ip: uint32): (k: int)
    ensures k == -1 ==> forall j :: 0 <= j < |table| ==> table[j].ip.uint != ip
    ensures k != -1 ==> 0 <= k < |table| && table[k].ip.uint == ip && forall j :: 0 <= j < k ==> table[j].ip.uint != ip
  {
    FindFrom(table, ip, 0)
  }

  const NOWHERE := IpInfo(0, "")

  /** An untouched slot of the server array: static storage is zero. */
  const BLANK := Server(NOWHERE, Fin(0.0), 0, 0, 0, 0, 0, false,
                        Routing(NOWHERE, NOWHERE, 0, Fin(0.0), false), Routing(NOWHERE, NOWHERE, 0, Fin(0.0), false))

  /** insert_into_server_infoes: the fields it writes; both next hops stay zero. */
  function Discovered(ip: IpInfo): Server {
    BLANK.(ip := ip, gotLast := false, lostRate := Fin(1.0), rtt := MAX16,
           learn := BLANK.learn.(lost := Fin(1.0), rtt := MAX16))
  }

  /** update_learning_table. */
  function LearnAt(table: seq<Server>, ip: IpInfo, from: IpInfo, rtt: uint16, lost: Cost): (r: seq<Server>)
    ensures |table| <= |r| <= |table| + 1
    ensures (exists j :: 0 <= j < |table| && table[j].ip.uint == ip.uint) ==> |r| == |table|
  {
    var k := Find(table, ip.uint);
    if k == -1 then table + [LearnFrom(Discovered(ip), from, rtt, lost)]
    else table[k := LearnFrom(table[k], from, rtt, lost)]
  }

  /** One iteration of receive_ping_packet. */
  function EchoEntry(t: seq<Server>, i: nat, gw: IpInfo, ip: uint32, seqId: uint16, delay: uint16): (r: seq<Server>)
    requires i < |t|
    ensures |r| == |t|
  {
    if t[i].ip.uint == ip && Matches(t[i], seqId) then
      var s := CountReply(t[i], delay);
      assert t[i := s][i].ip.uint == s.ip.uint;
      LearnAt(t[i := s], s.ip, gw, s.rtt, s.lostRate)
    else t
  }

  /** receive_ping_packet after its first k iterations; delays[i] is the measured delay for entry i. */
  function EchoUpTo(table: seq<Server>, gw: IpInfo, ip: uint32, seqId: uint16, delays: seq<uint16>, k: nat): (r: seq<Server>)
    requires k <= |table| && k <= |delays|
    ensures |r| == |table|
  {
    if k == 0 then table
    else EchoEntry(EchoUpTo(table, gw, ip, seqId, delays, k - 1), k - 1, gw, ip, seqId, delays[k - 1])
  }

  /** receive_advertise_data after its first k records. */
  function AdvertUpTo(table: seq<Server>, from: IpInfo, records: seq<Record>, k: nat): (r: seq<Server>)
    requires k <= |records|
    ensures |table| <= |r| <= |table| + k
  {
    if k == 0 then table
    else
      var o := records[k - 1];
      LearnAt(AdvertUpTo(table, from, records, k - 1), Named(o.ip), from, o.rtt, o.lost)
  }

  // ---- Frames the node emits ----

  function PingFrame(n: Node, s: Server): seq<byte> {
    EchoFrame(n.gatewayMac, n.outside.mac, n.outside.ip, s.ip.uint, s.sequenceId)
  }

  function PingFrames(n: Node, k: nat): seq<Sent>
    requires k <= |n.servers|
  {
    if k == 0 then [] else PingFrames(n, k - 1) + [Sent(PingFrame(n, n.servers[k - 1]), 1)]
  }

  function AdvertFrame(n: Node): seq<byte>
    requires Ok(n)
  {
    UdpFrame(BROADCAST_MAC, n.inside.mac, n.inside.ip, BROADCAST, ADVERT_PORT, ADVERT_PORT,
             EncodeTable(n.servers[..n.configured]))
  }

  /** ip_to_id[ip]: a missing key reads as entry 0. */
  function Lookup(n: Node, ip: uint32): nat {
    if ip in n.ipToId then n.ipToId[ip] else 0
  }

  /** The forwarding hop a DSA or LSA packet takes. */
  function HopFor(n: Node, dst: string, dsa: bool): IpInfo
    requires Lookup(n, Address.IpToUint(dst)) < |n.servers|
  {
    var s := n.servers[Lookup(n, Address.IpToUint(dst))];
    if dsa then s.fwd.rttHop else s.fwd.lostHop
  }

  /** The 46-byte probe of send_udp_packet. */
  function ProbeFrame(n: Node, dst: uint32, hop: uint32, dsa: bool): seq<byte>
    requires hop == n.gateway.uint || hop in n.ipToMac
  {
    var service := if dsa then DSA_PORT else LSA_PORT;
    if hop == n.gateway.uint then
      UdpFrame(n.gatewayMac, n.outside.mac, n.outside.ip, dst, n.srcPort % PORTS, service, Be32(COOKIE))
    else
      UdpFrame(n.ipToMac[hop], n.inside.mac, n.inside.ip, dst, n.srcPort % PORTS, service, Be32(COOKIE))
  }

  // ---- Steps ----

  /** A console command, or a frame in the receive buffer with the delays measured on its arrival. */
  datatype Input =
    | PingCommand
    | AdvertiseCommand
    | SendCommand(dst: string, dsa: bool)
    | FrameArrives(buffer: seq<byte>, length: nat, delays: seq<uint16>)

  predicate KnownName(n: Node, dst: string) {
    exists i :: 0 <= i < |n.servers| && n.servers[i].ip.str == dst
  }

  /** What processFrame makes of a frame. */
  datatype Kind =
    | Ignored
    | EchoReply(ip: uint32, seqId: uint16)
    | Advertisement(from: uint32, smac: mac, payload: seq<byte>)
    | RelayRequest(frame: seq<byte>)
    | RelayReply(frame: seq<byte>, port: uint16)
    | OwnReply(port: uint16)

  function Classify(n: Node, b: seq<byte>, length: nat): (k: Kind)
    requires Buffer(b) && length <= FRAME_BUFFER
    ensures k.Advertisement? || k.RelayRequest? || k.RelayReply? || k.OwnReply? ==> ValidFrame(b, length)
  {
    if !ValidFrame(b, length) then Ignored
    else if Protocol(b) == ICMP then EchoReply(SrcIp(b), Get16(b, 38))
    else UdpKind(n, b[..length])
  }

  /** What processFrame makes of an accepted UDP frame. */
  function UdpKind(n: Node, f: seq<byte>): (k: Kind)
    requires Header(f)
    ensures !k.EchoReply?
  {
    var port := DstPort(f);
    if port == ADVERT_PORT then Advertisement(SrcIp(f), SrcMac(f), f[UDP_SIZE..])
    else if port == DSA_PORT || port == LSA_PORT then RelayRequest(f)
    else if port >= FIRST_PORT && port < n.srcPort then
      if port in n.portToIp then RelayReply(f, port) else OwnReply(port)
    else Ignored
  }

  /** The frame kind the node can process: its memory accesses are defined and the table has room. */
  predicate Accepts(n: Node, k: Kind, delays: seq<uint16>)
    requires Ok(n)
  {
    match k
    case EchoReply(_, _) => |delays| == n.configured
    case Advertisement(from, _, p) =>
      Readable(|p|) && |AdvertUpTo(n.servers, Named(from), Records(p), |Records(p)|)| <= MAX_SERVERS
    case RelayRequest(f) => Header(f) && 14 + 4 * Hl(f) <= |f|
    case RelayReply(f, port) =>
      Header(f) && 14 + 4 * Hl(f) <= |f| && port in n.portToIp && n.portToIp[port] in n.ipToMac
    case _ => true
  }

  predicate Enabled(n: Node, i: Input)
    requires Ok(n)
  {
    match i
    case PingCommand => true
    case AdvertiseCommand => n.configured <= MAX_SERVERS
    case SendCommand(dst, dsa) =>
      KnownName(n, dst) ==>
        && Lookup(n, Address.IpToUint(dst)) < |n.servers|
        && (var hop := HopFor(n, dst, dsa).uint; hop == n.gateway.uint || hop in n.ipToMac)
    case FrameArrives(b, length, delays) =>
      Buffer(b) && length <= FRAME_BUFFER && Accepts(n, Classify(n, b, length), delays)
  }

  function MapServers(n: Node, f: Server -> Server, k: nat): (r: Node)
    ensures |r.servers| == |n.servers|
    ensures forall i :: 0 <= i < |n.servers| ==> r.servers[i] == if i < k then f(n.servers[i]) else n.servers[i]
    ensures r == n.(servers := r.servers)
  {
    n.(servers := seq(|n.servers|, i requires 0 <= i < |n.servers| => if i < k then f(n.servers[i]) else n.servers[i]))
  }

  function Process(n: Node, k: Kind, delays: seq<uint16>): (r: (Node, seq<Sent>))
    requires Ok(n) && Accepts(n, k, delays)
    ensures Ok(r.0)
  {
    match k
    case Ignored => (n, [])
    case OwnReply(_) => (n, [])
    case EchoReply(ip, seqId) =>
      (n.(servers := EchoUpTo(n.servers, n.gateway, ip, seqId, delays, n.configured)), [])
    case Advertisement(from, smac, p) =>
      var records := Records(p);
      (n.(servers := AdvertUpTo(n.servers, Named(from), records, |records|), ipToMac := n.ipToMac[from := smac]), [])
    case RelayRequest(f) =>
      var port := n.srcPort % PORTS;
      (n.(portToIp := n.portToIp[port := SrcIp(f)], portToPort := n.portToPort[port := SrcPort(f)],
          srcPort := n.srcPort + 1),
       [Sent(RelayOut(f, n.gatewayMac, n.outside.mac, n.outside.ip, port), 1)])
    case RelayReply(f, port) =>
      (n, [Sent(RelayBack(f, n.ipToMac[n.portToIp[port]], n.inside.mac, n.portToIp[port], n.portToPort[port]), 0)])
  }

  function Act(n: Node, i: Input): (r: (Node, seq<Sent>))
    requires Ok(n) && Enabled(n, i)
    ensures Ok(r.0)
  {
    match i
    case PingCommand =>
      (MapServers(n, s => Step(s, n.gateway, Ping), n.configured), PingFrames(n, n.configured))
    case AdvertiseCommand =>
      (MapServers(n, s => ResetLearning(Snapshot(s), n.gateway), |n.servers|), [Sent(AdvertFrame(n), 0)])
    case SendCommand(dst, dsa) =>
      if !KnownName(n, dst) then (n, [])
      else
        var ip := Address.IpToUint(dst);
        var hop := HopFor(n, dst, dsa).uint;
        (n.(srcPort := n.srcPort + 1, ipToId := n.ipToId[ip := Lookup(n, ip)]),
         [Sent(ProbeFrame(n, ip, hop, dsa), if hop == n.gateway.uint then 1 else 0)])
    case FrameArrives(b, length, delays) =>
      Process(n, Classify(n, b, length), delays)
  }
}
