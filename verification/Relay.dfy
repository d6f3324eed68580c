/** A DSA or LSA probe relayed by a peer, answered by the server, and brought back. */
module Relay {
  import opened Bytes
  import opened Checksum
  import opened Destination
  import opened Frames
  import opened Overlay
  import opened Tables
  import opened Runs
  import opened Ports
  import Address
  import Advert

  const PROBE := 46

  /** Frame `f` has arrived in the receive buffer. */
  predicate Arrived(b: seq<byte>, f: seq<byte>) {
    Buffer(b) && |f| <= FRAME_BUFFER && b[..|f|] == f
  }

  // ---- What later steps keep of the port maps ----

  /** Everything `n` knew about ports below its own counter is still known in `m`. */
  ghost predicate PortsKept(n: Node, m: Node) {
    && n.srcPort <= m.srcPort
    && forall p :: 0 <= p < n.srcPort && p < PORTS ==>
         && (p in n.portToIp <==> p in m.portToIp) && (p in n.portToPort <==> p in m.portToPort)
         && (p in n.portToIp ==> n.portToIp[p] == m.portToIp[p])
         && (p in n.portToPort ==> n.portToPort[p] == m.portToPort[p])
  }

  lemma ProcessKeepsPorts(n: Node, k: Kind, delays: seq<uint16>)
    requires Ok(n) && Accepts(n, k, delays) && Process(n, k, delays).0.srcPort <= PORTS
    ensures PortsKept(n, Process(n, k, delays).0)
  {
    hide RelayOut, RelayBack, AdvertUpTo, EchoUpTo;
  }

  lemma ActKeepsPorts(n: Node, a: Input)
    requires Ok(n) && Enabled(n, a) && Act(n, a).0.srcPort <= PORTS
    ensures PortsKept(n, Act(n, a).0)
  {
    hide Process, Classify, Accepts, ProbeFrame, AdvertFrame, PingFrames, HopFor, Lookup, MapServers;
    if a.FrameArrives? {
      ProcessKeepsPorts(n, Classify(n, a.buffer, a.length), a.delays);
    }
  }

  lemma PortsKeptChain(n: Node, m: Node, k: Node)
    requires PortsKept(n, m) && PortsKept(m, k)
    ensures PortsKept(n, k)
  {
  }

  /** While ports last, no run ever forgets or redirects an allocated port. */
  lemma {:induction false} PortsPersist(ns: seq<Node>, ins: seq<Input>, k: nat)
    requires Behaviour(ns, ins) && k < |ns| && ns[k].srcPort <= PORTS
    ensures PortsKept(ns[0], ns[k])
  {
    hide Act, Enabled, Ok;
    if k > 0 {
      CounterGrows(ns[k - 1], ins[k - 1]);
      ActKeepsPorts(ns[k - 1], ins[k - 1]);
      PortsPersist(ns, ins, k - 1);
      PortsKeptChain(ns[0], ns[k - 1], ns[k]);
    }
  }

  lemma CounterGrows(n: Node, a: Input)
    requires Ok(n) && Enabled(n, a)
    ensures n.srcPort <= Act(n, a).0.srcPort
  {
  }

  // ---- One hop at a time ----

  lemma ArrivedIsValid(b: seq<byte>, f: seq<byte>)
    requires Arrived(b, f) && Header(f) && Protocol(f) == UDP
    ensures ValidFrame(b, |f|) <==> ValidUdp(f)
  {
    AcceptedUdp(b, |f|);
    assert b[23] == f[23];
  }

  lemma ArrivedKind(n: Node, b: seq<byte>, f: seq<byte>)
    requires Arrived(b, f) && Header(f) && Protocol(f) == UDP
    ensures Classify(n, b, |f|) == if ValidUdp(f) then UdpKind(n, f) else Ignored
  {
    hide UdpKind, ValidUdp, ValidFrame;
    ArrivedIsValid(b, f);
    assert b[23] == f[23];
  }

  /** Every frame that fits the buffer can be processed, short of three things: a measured delay for each
      configured server, an advertisement whose records fill its payload and fit the table, and a stored
      MAC for the requester of a relayed reply. */
  lemma FramesAreEnabled(n: Node, b: seq<byte>, length: nat, delays: seq<uint16>)
    requires WellFormed(n) && Ok(n) && Buffer(b) && length <= FRAME_BUFFER
    ensures Enabled(n, FrameArrives(b, length, delays)) <==>
            match Classify(n, b, length)
            case EchoReply(_, _) => |delays| == n.configured
            case Advertisement(from, _, p) =>
              Advert.Readable(|p|) && |AdvertUpTo(n.servers, Named(from), Advert.Records(p), |Advert.Records(p)|)| <= MAX_SERVERS
            case RelayReply(_, port) => port in n.portToIp && n.portToIp[port] in n.ipToMac
            case _ => true
  {
    hide IpCheck, Advert.Records, AdvertUpTo, TableOk, IdsOk, PortsOk;
    if Classify(n, b, length).RelayRequest? || Classify(n, b, length).RelayReply? {
      AcceptedUdp(b, length);
      AcceptedSizes(b, length);
    }
  }

  function Service(dsa: bool): uint16 {
    if dsa then DSA_PORT else LSA_PORT
  }

  /** The probe node `a` sends to peer address `hop`: accepted exactly when its two addresses sum cleanly. */
  lemma ProbeLeaves(a: Node, dst: uint32, hop: uint32, dsa: bool)
    requires hop != a.gateway.uint && hop in a.ipToMac && a.srcPort < PORTS
    ensures var f := ProbeFrame(a, dst, hop, dsa);
            && |f| == PROBE && Protocol(f) == UDP && Plain(f, 32, a.inside.ip, dst)
            && SrcIp(f) == a.inside.ip && DstIp(f) == dst && SrcPort(f) == a.srcPort && DstPort(f) == Service(dsa)
            && (ValidUdp(f) <==> BuildsCleanly(32, UDP, a.inside.ip, dst))
  {
    hide UdpFrame, BuildsCleanly, ValidUdp, Plain;
    UdpFrameFields(a.ipToMac[hop], a.inside.mac, a.inside.ip, dst, a.srcPort, Service(dsa), Be32(COOKIE));
    BuiltIsPlain(a.ipToMac[hop], a.inside.mac, a.inside.ip, dst, a.srcPort, Service(dsa), Be32(COOKIE));
    BuiltIsValid(a.ipToMac[hop], a.inside.mac, a.inside.ip, dst, a.srcPort, Service(dsa), Be32(COOKIE));
  }

  /** The peer's rewrite: its own outside address and a fresh port, the destination untouched. */
  lemma RequestRelayed(b: Node, f: seq<byte>, src: uint32, dst: uint32)
    requires |f| == PROBE && Protocol(f) == UDP && Plain(f, 32, src, dst) && b.srcPort < PORTS
    ensures var r := RelayOut(f, b.gatewayMac, b.outside.mac, b.outside.ip, b.srcPort);
            && |r| == PROBE && Protocol(r) == UDP && Plain(r, 32, b.outside.ip, dst)
            && SrcIp(r) == b.outside.ip && DstIp(r) == DstIp(f) && SrcPort(r) == b.srcPort && DstPort(r) == DstPort(f)
            && (ValidUdp(f) ==> (ValidUdp(r) <==> BuildsCleanly(32, UDP, b.outside.ip, dst)))
  {
    hide ValidUdp, RelayOutClean, BuildsCleanly, ZeroSum, RawHeader;
    RelayOutFields(f, b.gatewayMac, b.outside.mac, b.outside.ip, b.srcPort);
    PlainOut(f, b.gatewayMac, b.outside.mac, b.outside.ip, b.srcPort, 32, src, dst);
    if ValidUdp(f) {
      RelayOutIsValid(f, b.gatewayMac, b.outside.mac, b.outside.ip, b.srcPort);
    }
  }

  lemma ReplyRelayed(f: seq<byte>, dmac: mac, smac: mac, ip: uint32, port: uint16, src: uint32, dst: uint32)
    requires |f| == PROBE && Protocol(f) == UDP && Plain(f, 32, src, dst)
    ensures var r := RelayBack(f, dmac, smac, ip, port);
            && |r| == PROBE && Protocol(r) == UDP
            && DstIp(r) == ip && SrcIp(r) == SrcIp(f) && DstPort(r) == port && SrcPort(r) == SrcPort(f)
            && (ValidUdp(f) ==> (ValidUdp(r) <==> BuildsCleanly(32, UDP, src, ip)))
  {
    hide ValidUdp, RelayBackClean, BuildsCleanly, ZeroSum, RawHeader;
    RelayBackFields(f, dmac, smac, ip, port);
    PlainBack(f, dmac, smac, ip, port, 32, src, dst);
    if ValidUdp(f) {
      RelayBackIsValid(f, dmac, smac, ip, port);
    }
  }

  /** The server's answer is as valid as the request and comes back to the peer's port. */
  lemma ServerAnswers(f: seq<byte>, dmac: mac, smac: mac, src: uint32, dst: uint32)
    requires |f| == PROBE && Protocol(f) == UDP && Plain(f, 32, src, dst)
    ensures var r := SwapReply(f, dmac, smac);
            && |r| == PROBE && Protocol(r) == UDP && Plain(r, 32, dst, src)
            && SrcIp(r) == DstIp(f) && DstIp(r) == SrcIp(f) && SrcPort(r) == DstPort(f) && DstPort(r) == SrcPort(f)
            && (ValidUdp(r) <==> ValidUdp(f))
  {
    hide ValidUdp, ZeroSum, RawHeader;
    SwapReplyFields(f, dmac, smac);
    PlainSwap(f, dmac, smac, 32, src, dst);
    SwapReplyIsValid(f, dmac, smac);
  }

  // ---- The round trip ----

  /** Peer `b` takes in a probe: if it is accepted, a new entry in the port map and a frame sent
      outside; otherwise nothing at all. */
  lemma PeerTakesRequest(b: Node, buffer: seq<byte>, f: seq<byte>, dsa: bool, delays: seq<uint16>)
    requires Ok(b) && Arrived(buffer, f) && |f| == PROBE && Protocol(f) == UDP && Hl(f) == 5
    requires DstPort(f) == Service(dsa) && b.srcPort < PORTS
    ensures var i := FrameArrives(buffer, PROBE, delays);
            && Enabled(b, i)
            && Act(b, i) == if ValidUdp(f) then
                              (AfterRelay(b, f), [Sent(RelayOut(f, b.gatewayMac, b.outside.mac, b.outside.ip, b.srcPort), 1)])
                            else (b, [])
  {
    hide RelayOut, ValidFrame, Classify, ValidUdp;
    ArrivedKind(b, buffer, f);
  }

  /** Later, the peer recognizes an accepted answer by its port and sends it to the requester; any other
      it ignores. */
  lemma PeerReturnsReply(b: Node, buffer: seq<byte>, r: seq<byte>, port: uint16, ip: uint32, main: uint16, delays: seq<uint16>)
    requires Ok(b) && Arrived(buffer, r) && |r| == PROBE && Protocol(r) == UDP && Hl(r) == 5 && DstPort(r) == port
    requires FIRST_PORT <= port < b.srcPort && port in b.portToIp && port in b.portToPort
    requires b.portToIp[port] == ip && b.portToPort[port] == main && ip in b.ipToMac
    ensures var i := FrameArrives(buffer, PROBE, delays);
            && Classify(b, buffer, PROBE) == (if ValidUdp(r) then RelayReply(r, port) else Ignored) && Enabled(b, i)
            && Act(b, i) == (b, if ValidUdp(r) then [Sent(RelayBack(r, b.ipToMac[ip], b.inside.mac, ip, main), 0)] else [])
  {
    hide RelayBack, ValidFrame, Classify, ValidUdp;
    ArrivedKind(b, buffer, r);
  }

  /** The requester recognizes its own port, which it never gave to a relayed packet. */
  lemma RequesterAccepts(a: Node, buffer: seq<byte>, r: seq<byte>, port: uint16, delays: seq<uint16>)
    requires Ok(a) && Arrived(buffer, r) && Header(r) && Protocol(r) == UDP && |r| == PROBE && DstPort(r) == port
    requires FIRST_PORT <= port < a.srcPort && port !in a.portToIp
    ensures Classify(a, buffer, PROBE) == if ValidUdp(r) then OwnReply(port) else Ignored
    ensures Enabled(a, FrameArrives(buffer, PROBE, delays))
    ensures Act(a, FrameArrives(buffer, PROBE, delays)) == (a, [])
  {
    hide ValidFrame, ValidUdp, Classify;
    ArrivedKind(a, buffer, r);
  }

  lemma WellFormedBasics(n: Node)
    requires WellFormed(n)
    ensures Ok(n) && n.srcPort >= FIRST_PORT && forall p :: p in n.portToIp ==> p < n.srcPort
  {
  }

  /** `m` is reached from `n` by some run. */
  ghost predicate Later(n: Node, m: Node) {
    exists ns: seq<Node>, ins: seq<Input> :: Behaviour(ns, ins) && ns[0] == n && ns[|ins|] == m
  }

  lemma LaterKeepsPorts(n: Node, m: Node)
    requires Later(n, m) && WellFormed(n) && m.srcPort <= PORTS
    ensures PortsKept(n, m) && WellFormed(m) && Ok(m) && SameSetup(n, m)
  {
    var ns: seq<Node>, ins: seq<Input> :| Behaviour(ns, ins) && ns[0] == n && ns[|ins|] == m;
    PortsPersist(ns, ins, |ins|);
    AlwaysWellFormed(ns, ins, |ins|);
  }

  /** The node as the packet leaves it: the sender's next state, the relaying peer's next state. */
  function AfterSend(a: Node, dst: string, dsa: bool): Node
    requires Ok(a) && Enabled(a, SendCommand(dst, dsa))
  {
    Act(a, SendCommand(dst, dsa)).0
  }

  function AfterRelay(b: Node, f: seq<byte>): (r: Node)
    requires Ok(b) && Header(f) && 14 + 4 * Hl(f) <= |f|
  {
    Process(b, RelayRequest(f), []).0
  }

  predicate SendsToPeer(a: Node, dst: string, dsa: bool)
    requires Ok(a) && Enabled(a, SendCommand(dst, dsa))
  {
    && KnownName(a, dst) && a.srcPort < PORTS
    && HopFor(a, dst, dsa).uint != a.gateway.uint
  }

  function Probe(a: Node, dst: string, dsa: bool): (f: seq<byte>)
    requires Ok(a) && Enabled(a, SendCommand(dst, dsa)) && SendsToPeer(a, dst, dsa)
    ensures |f| == PROBE
  {
    ProbeFrame(a, Address.IpToUint(dst), HopFor(a, dst, dsa).uint, dsa)
  }

  function Request(b: Node, probe: seq<byte>): seq<byte>
    requires Header(probe) && 14 + 4 * Hl(probe) <= |probe| && b.srcPort < PORTS
  {
    RelayOut(probe, b.gatewayMac, b.outside.mac, b.outside.ip, b.srcPort)
  }

  function Reply(b: Node, answer: seq<byte>, ip: uint32, port: uint16): seq<byte>
    requires Header(answer) && 14 + 4 * Hl(answer) <= |answer| && ip in b.ipToMac
  {
    RelayBack(answer, b.ipToMac[ip], b.inside.mac, ip, port)
  }

  /** The header sums of a 46-byte probe between the two addresses fold cleanly, either way. */
  predicate CleanPair(ip: uint32, dst: uint32) {
    BuildsCleanly(32, UDP, ip, dst)
  }

  /** The way out: `b` relays the probe of `a` exactly when the addresses of `a` and the server sum
      cleanly. It then leaves for the server from `b`'s outside address and a fresh port, which `b` now
      maps to `a`'s address and port, and is accepted exactly when those addresses sum cleanly too. */
  lemma ProbeReachesServer(a: Node, dst: string, dsa: bool, b: Node, buffer: seq<byte>, delays: seq<uint16>)
    requires WellFormed(a) && WellFormed(b) && b.srcPort < PORTS
    requires Enabled(a, SendCommand(dst, dsa)) && SendsToPeer(a, dst, dsa)
    requires Arrived(buffer, Probe(a, dst, dsa))
    ensures Act(a, SendCommand(dst, dsa)).1 == [Sent(Probe(a, dst, dsa), 0)]
    ensures var f, ip := Probe(a, dst, dsa), Address.IpToUint(dst);
            && Protocol(f) == UDP && Plain(f, 32, a.inside.ip, ip)
            && SrcIp(f) == a.inside.ip && SrcPort(f) == a.srcPort
            && (ValidUdp(f) <==> CleanPair(a.inside.ip, ip))
    ensures var i, f, ip := FrameArrives(buffer, PROBE, delays), Probe(a, dst, dsa), Address.IpToUint(dst);
            var request := Request(b, f);
            && Enabled(b, i)
            && Act(b, i) == (if CleanPair(a.inside.ip, ip) then (AfterRelay(b, f), [Sent(request, 1)]) else (b, []))
            && |request| == PROBE && Protocol(request) == UDP && Plain(request, 32, b.outside.ip, ip)
            && SrcIp(request) == b.outside.ip && SrcPort(request) == b.srcPort
            && DstIp(request) == ip && DstPort(request) == Service(dsa)
            && (CleanPair(a.inside.ip, ip) ==> (ValidUdp(request) <==> CleanPair(b.outside.ip, ip)))
  {
    hide ProbeFrame, ValidUdp, RelayOut, BuildsCleanly, WellFormed, Classify, ZeroSum, RawHeader, AfterRelay;
    WellFormedBasics(a);
    WellFormedBasics(b);
    var f := Probe(a, dst, dsa);
    ProbeLeaves(a, Address.IpToUint(dst), HopFor(a, dst, dsa).uint, dsa);
    PeerTakesRequest(b, buffer, f, dsa, delays);
    RequestRelayed(b, f, a.inside.ip, Address.IpToUint(dst));
  }

  /** The way back: whatever `b` and `a` have done since, `b` returns an accepted answer to `a`'s address
      and port and ignores any other, and `a` recognizes a returned answer as the reply to its own
      packet, and sends nothing, exactly when the addresses of the server and `a` sum cleanly. */
  lemma AnswerReachesSender(a: Node, b: Node, port: uint16, main: uint16, ip: uint32, answer: seq<byte>, src: uint32, dst: uint32,
                            b2: seq<byte>, b3: seq<byte>, d2: seq<uint16>, d3: seq<uint16>)
    requires Ok(a) && Ok(b) && ip in b.ipToMac
    requires |answer| == PROBE && Protocol(answer) == UDP && Plain(answer, 32, src, dst) && DstPort(answer) == port
    requires Arrived(b2, answer) && Arrived(b3, Reply(b, answer, ip, main))
    requires FIRST_PORT <= port < b.srcPort && port in b.portToIp && port in b.portToPort
    requires b.portToIp[port] == ip && b.portToPort[port] == main
    requires FIRST_PORT <= main < a.srcPort && main !in a.portToIp
    ensures var i, reply := FrameArrives(b2, PROBE, d2), Reply(b, answer, ip, main);
            && Enabled(b, i) && Act(b, i) == (b, if ValidUdp(answer) then [Sent(reply, 0)] else [])
            && Header(reply) && DstIp(reply) == ip && DstPort(reply) == main && SrcIp(reply) == SrcIp(answer) && SrcPort(reply) == SrcPort(answer)
    ensures ValidUdp(answer) ==> Classify(a, b3, PROBE) == if CleanPair(src, ip) then OwnReply(main) else Ignored
    ensures Enabled(a, FrameArrives(b3, PROBE, d3)) && Act(a, FrameArrives(b3, PROBE, d3)) == (a, [])
  {
    hide ValidUdp, RelayBack, Classify, BuildsCleanly, ZeroSum, RawHeader;
    PeerReturnsReply(b, b2, answer, port, ip, main, d2);
    ReplyRelayed(answer, b.ipToMac[ip], b.inside.mac, ip, main, src, dst);
    RequesterAccepts(a, b3, Reply(b, answer, ip, main), main, d3);
  }

  /** The frames of one probe's journey through `b` and back, as the parties would lay them out. */
  datatype Journey = Journey(probe: seq<byte>, request: seq<byte>, answer: seq<byte>, reply: seq<byte>)

  ghost predicate Travels(j: Journey, a: Node, dst: string, dsa: bool, b: Node, b': Node, macs: (mac, mac))
    requires Ok(a) && Enabled(a, SendCommand(dst, dsa)) && SendsToPeer(a, dst, dsa) && b.srcPort < PORTS
  {
    && j.probe == Probe(a, dst, dsa) && Hl(j.probe) == 5
    && j.request == Request(b, j.probe) && Header(j.request)
    && j.answer == SwapReply(j.request, macs.0, macs.1) && 14 + 4 * Hl(j.answer) <= |j.answer|
    && a.inside.ip in b'.ipToMac && j.reply == Reply(b', j.answer, a.inside.ip, a.srcPort)
  }

  /** What arrives where: the probe at `b`, the server's answer at `b'`, the reply at `a'`. */
  datatype Arrivals = Arrivals(probe: seq<byte>, answer: seq<byte>, reply: seq<byte>, delays: seq<uint16>)
  {
    function AtPeer(): Input { FrameArrives(probe, PROBE, delays) }
    function BackAtPeer(): Input { FrameArrives(answer, PROBE, delays) }
    function AtSender(): Input { FrameArrives(reply, PROBE, delays) }
  }

  /** `b` sends the request on, `b'` sends the reply on, and `a'` takes the reply for its own. */
  ghost predicate Completes(j: Journey, v: Arrivals, a': Node, port: uint16, b: Node, b': Node)
    requires Ok(b) && Ok(b') && Buffer(v.reply)
  {
    && Enabled(b, v.AtPeer()) && Act(b, v.AtPeer()).1 == [Sent(j.request, 1)]
    && Enabled(b', v.BackAtPeer()) && Act(b', v.BackAtPeer()).1 == [Sent(j.reply, 0)]
    && Classify(a', v.reply, PROBE) == OwnReply(port)
  }

  /** End to end, three parties. Node `a` sends a probe to `dst` through peer `b`. Both may have any
      history before (`a` and `b` are arbitrary well-formed nodes) and do anything between sending and
      answer (`a'` and `b'` are any later states), as long as port numbers last and `b'` has a MAC for
      `a`. The probe comes back to `a` exactly when two address pairs sum cleanly: `a` and the server,
      `b` and the server. The server then sees it coming from `b`'s outside address and a fresh port;
      its answer, with addresses and ports exchanged, is carried back to `a`'s own address and port;
      and `a'` takes it for the reply to its own packet and relays nothing. If the first pair fails, `b`
      ignores the probe; if only the second fails, `b'` ignores the answer. */
  lemma RelayRoundTrip(j: Journey, v: Arrivals, a: Node, dst: string, dsa: bool, b: Node, a': Node, b': Node, macs: (mac, mac))
    requires WellFormed(a) && WellFormed(b) && b.srcPort < PORTS
    requires Enabled(a, SendCommand(dst, dsa)) && SendsToPeer(a, dst, dsa)
    requires Travels(j, a, dst, dsa, b, b', macs)
    requires Arrived(v.probe, j.probe) && Arrived(v.answer, j.answer) && Arrived(v.reply, j.reply)
    requires Later(AfterSend(a, dst, dsa), a') && a'.srcPort <= PORTS
    requires Enabled(b, v.AtPeer()) && Later(Act(b, v.AtPeer()).0, b') && b'.srcPort <= PORTS
    ensures var ip := Address.IpToUint(dst);
            && Act(a, SendCommand(dst, dsa)).1 == [Sent(j.probe, 0)]
            && (!CleanPair(a.inside.ip, ip) ==> Act(b, v.AtPeer()) == (b, []))
            && (CleanPair(a.inside.ip, ip) ==>
                  && Act(b, v.AtPeer()) == (AfterRelay(b, j.probe), [Sent(j.request, 1)])
                  && Ok(b') && Enabled(b', v.BackAtPeer())
                  && Act(b', v.BackAtPeer()) == (b', if CleanPair(b.outside.ip, ip) then [Sent(j.reply, 0)] else []))
    ensures SrcIp(j.request) == b.outside.ip && SrcPort(j.request) == b.srcPort
            && DstIp(j.request) == Address.IpToUint(dst) && DstPort(j.request) == Service(dsa)
    ensures Header(j.reply) && DstIp(j.reply) == a.inside.ip && DstPort(j.reply) == a.srcPort
            && SrcIp(j.reply) == Address.IpToUint(dst) && SrcPort(j.reply) == Service(dsa)
    ensures Ok(a') && Enabled(a', v.AtSender()) && Act(a', v.AtSender()) == (a', [])
    ensures Ok(b') && (Completes(j, v, a', a.srcPort, b, b')
                       <==> CleanPair(a.inside.ip, Address.IpToUint(dst)) && CleanPair(b.outside.ip, Address.IpToUint(dst)))
  {
    hide Probe, Request, SwapReply, RelayBack, BuildsCleanly, ValidUdp, WellFormed, Later, Act, Enabled, PortsKept, HopFor, KnownName,
         ZeroSum, RawHeader, AfterRelay, AfterSend, Classify, Hl;
    WellFormedBasics(a);
    WellFormedBasics(b);
    var ip := Address.IpToUint(dst);
    ProbeReachesServer(a, dst, dsa, b, v.probe, v.delays);
    ServerAnswers(j.request, macs.0, macs.1, b.outside.ip, ip);
    SenderRemembers(a, a', dst, dsa);
    ReplyRelayed(j.answer, b'.ipToMac[a.inside.ip], b'.inside.mac, a.inside.ip, a.srcPort, ip, b.outside.ip);
    RequesterAccepts(a', v.reply, j.reply, a.srcPort, v.delays);
    if CleanPair(a.inside.ip, ip) {
      PeerRemembers(b, b', j.probe, a.inside.ip, a.srcPort);
      AnswerReachesSender(a', b', b.srcPort, a.srcPort, a.inside.ip, j.answer, ip, b.outside.ip, v.answer, v.reply, v.delays, v.delays);
      CleanBothWays(32, UDP, ip, a.inside.ip);
    } else {
      LaterKeepsPorts(b, b');
    }
  }

  /** A relayed port still maps to its requester in every later state. */
  lemma PeerRemembers(b: Node, b': Node, probe: seq<byte>, ip: uint32, main: uint16)
    requires WellFormed(b) && b.srcPort < PORTS && Header(probe) && 14 + 4 * Hl(probe) <= |probe|
    requires Later(AfterRelay(b, probe), b') && b'.srcPort <= PORTS
    requires SrcIp(probe) == ip && SrcPort(probe) == main
    ensures Ok(b') && FIRST_PORT <= b.srcPort < b'.srcPort
    ensures b.srcPort in b'.portToIp && b'.portToIp[b.srcPort] == ip
    ensures b.srcPort in b'.portToPort && b'.portToPort[b.srcPort] == main
  {
    hide WellFormed, Process, Later;
    WellFormedBasics(b);
    RelayRecords(b, probe);
    ProcessKeeps(b, RelayRequest(probe), []);
    LaterKeepsPorts(AfterRelay(b, probe), b');
  }

  lemma RelayRecords(b: Node, probe: seq<byte>)
    requires Ok(b) && b.srcPort < PORTS && Header(probe) && 14 + 4 * Hl(probe) <= |probe|
    ensures var r := AfterRelay(b, probe);
            && r.srcPort == b.srcPort + 1
            && b.srcPort in r.portToIp && r.portToIp[b.srcPort] == SrcIp(probe)
            && b.srcPort in r.portToPort && r.portToPort[b.srcPort] == SrcPort(probe)
  {
    hide RelayOut;
  }

  /** A port a node used itself is never in its relay map afterwards. */
  lemma SenderRemembers(a: Node, a': Node, dst: string, dsa: bool)
    requires WellFormed(a) && Enabled(a, SendCommand(dst, dsa)) && KnownName(a, dst) && a.srcPort < PORTS
    requires Later(AfterSend(a, dst, dsa), a') && a'.srcPort <= PORTS
    ensures Ok(a') && FIRST_PORT <= a.srcPort < a'.srcPort && a.srcPort !in a'.portToIp
  {
    hide WellFormed, Later, ProbeFrame;
    WellFormedBasics(a);
    ActKeeps(a, SendCommand(dst, dsa));
    LaterKeepsPorts(AfterSend(a, dst, dsa), a');
  }
}
