/** Where a `dsa` or `lsa` command sends its probe, read from the table and the frame, and the way back
    of a probe sent through the gateway. */
module Sending {
  import opened Bytes
  import opened Ports
  import opened Learning
  import opened Destination
  import opened Frames
  import opened Overlay
  import opened Tables
  import opened Runs
  import opened Relay
  import Address

  /** One 46-byte probe leaves for `dst`: outside through the gateway when that is the hop, otherwise
      inside to the MAC stored for the hop. */
  ghost predicate Leaves(n: Node, out: seq<Sent>, hop: uint32, dst: uint32, service: uint16) {
    && |out| == 1 && |out[0].frame| == 46
    && var f := out[0].frame;
       && Get16(f, 12) == 0x0800 && Version(f) == 4 && Hl(f) == 5 && Protocol(f) == 17
       && DstIp(f) == dst && SrcPort(f) == n.srcPort % 65536 && DstPort(f) == service && f[42..] == Be32(0x12345678)
       && (hop == n.gateway.uint ==>
             && out[0].iface == 1 && DstMac(f) == n.gatewayMac && SrcMac(f) == n.outside.mac
             && SrcIp(f) == n.outside.ip && (ValidUdp(f) <==> CleanPair(n.outside.ip, dst)))
       && (hop != n.gateway.uint ==>
             && hop in n.ipToMac && out[0].iface == 0 && DstMac(f) == n.ipToMac[hop] && SrcMac(f) == n.inside.mac
             && SrcIp(f) == n.inside.ip && (ValidUdp(f) <==> CleanPair(n.inside.ip, dst)))
  }

  lemma ProbeLeavesBy(n: Node, dst: uint32, hop: uint32, dsa: bool)
    requires hop == n.gateway.uint || hop in n.ipToMac
    ensures var iface := if hop == n.gateway.uint then 1 else 0;
            Leaves(n, [Sent(ProbeFrame(n, dst, hop, dsa), iface)], hop, dst, if dsa then 1000 else 2000)
  {
    hide UdpFrame, BuildsCleanly, ValidUdp, Get16, Get32, Be32;
    var service: uint16, port: uint16 := if dsa then 1000 else 2000, n.srcPort % PORTS;
    if hop == n.gateway.uint {
      UdpFrameFields(n.gatewayMac, n.outside.mac, n.outside.ip, dst, port, service, Be32(COOKIE));
      BuiltIsValid(n.gatewayMac, n.outside.mac, n.outside.ip, dst, port, service, Be32(COOKIE));
    } else {
      UdpFrameFields(n.ipToMac[hop], n.inside.mac, n.inside.ip, dst, port, service, Be32(COOKIE));
      BuiltIsValid(n.ipToMac[hop], n.inside.mac, n.inside.ip, dst, port, service, Be32(COOKIE));
    }
  }

  /** The entry whose routes a probe to entry `j` takes: its own, or entry 0's for a discovered one. */
  function Router(n: Node, j: nat): nat {
    if j < n.configured then j else 0
  }

  /** `dsa` to a known name sends one probe by the forwarding RTT hop, `lsa` by the forwarding loss hop. */
  lemma ProbesAreRouted(n: Node, j: nat)
    requires WellFormed(n) && n.configured > 0 && j < |n.servers|
    ensures var name, ip, r := n.servers[j].ip.str, n.servers[j].ip.uint, n.servers[Router(n, j)];
            && Enabled(n, SendCommand(name, true)) && Enabled(n, SendCommand(name, false))
            && Leaves(n, Act(n, SendCommand(name, true)).1, r.fwd.rttHop.uint, ip, 1000)
            && Leaves(n, Act(n, SendCommand(name, false)).1, r.fwd.lostHop.uint, ip, 2000)
            && forall dsa :: Act(n, SendCommand(name, dsa)).0 == n.(srcPort := n.srcPort + 1, ipToId := n.ipToId[ip := Router(n, j)])
  {
    hide WellFormed, Leaves, ProbeFrame, Address.IpToUint;
    var name, ip, r := n.servers[j].ip.str, n.servers[j].ip.uint, n.servers[Router(n, j)];
    WellFormedBasics(n);
    NamesSpell(n, j);
    SendIsEnabled(n, name, true);
    SendIsEnabled(n, name, false);
    assert KnownName(n, name);
    ProbeLeavesBy(n, ip, r.fwd.rttHop.uint, true);
    ProbeLeavesBy(n, ip, r.fwd.lostHop.uint, false);
  }

  lemma NamesSpell(n: Node, j: nat)
    requires WellFormed(n) && j < |n.servers|
    ensures Address.IpToUint(n.servers[j].ip.str) == n.servers[j].ip.uint
  {
  }

  /** Any other name sends nothing and changes nothing. */
  lemma UnknownNameIsIgnored(n: Node, dst: string, dsa: bool)
    requires Ok(n) && forall j :: 0 <= j < |n.servers| ==> n.servers[j].ip.str != dst
    ensures Enabled(n, SendCommand(dst, dsa)) && Act(n, SendCommand(dst, dsa)) == (n, [])
  {
  }

  // ---- The direct way ----

  /** Two parties: a probe sent through the gateway is answered to the sender's outside address and port,
      and in every later state the sender takes the answer for its own reply exactly when its outside
      address and the server's sum cleanly; it ignores it otherwise, and sends nothing either way. */
  lemma DirectRoundTrip(a: Node, j: nat, dsa: bool, a': Node, macs: (mac, mac), buffer: seq<byte>, delays: seq<uint16>)
    requires WellFormed(a) && a.configured > 0 && j < |a.servers| && a.srcPort < PORTS
    requires var r := a.servers[Router(a, j)].fwd; (if dsa then r.rttHop else r.lostHop).uint == a.gateway.uint
    requires Ok(a) && Enabled(a, SendCommand(a.servers[j].ip.str, dsa))
    requires Later(Act(a, SendCommand(a.servers[j].ip.str, dsa)).0, a') && a'.srcPort <= PORTS
    requires var out := Act(a, SendCommand(a.servers[j].ip.str, dsa)).1;
             |out| == 1 && Header(out[0].frame) && Arrived(buffer, SwapReply(out[0].frame, macs.0, macs.1))
    ensures var answer := SwapReply(Act(a, SendCommand(a.servers[j].ip.str, dsa)).1[0].frame, macs.0, macs.1);
            && SrcIp(answer) == a.servers[j].ip.uint && SrcPort(answer) == (if dsa then 1000 else 2000)
            && DstIp(answer) == a.outside.ip && DstPort(answer) == a.srcPort
    ensures Classify(a', buffer, PROBE) == if CleanPair(a.outside.ip, a.servers[j].ip.uint) then OwnReply(a.srcPort) else Ignored
    ensures Ok(a') && Enabled(a', FrameArrives(buffer, PROBE, delays))
            && Act(a', FrameArrives(buffer, PROBE, delays)) == (a', [])
  {
    hide WellFormed, Later, Act, Enabled, SwapReply, ValidUdp, BuildsCleanly, Classify, Hl, Get16, Get32;
    var name := a.servers[j].ip.str;
    ProbesAreRouted(a, j);
    var f := Act(a, SendCommand(name, dsa)).1[0].frame;
    NameIsKnown(a, j);
    SenderRemembers(a, a', name, dsa);
    SwapReplyFields(f, macs.0, macs.1);
    SwapReplyIsValid(f, macs.0, macs.1);
    RequesterAccepts(a', buffer, SwapReply(f, macs.0, macs.1), a.srcPort, delays);
  }

  lemma NameIsKnown(n: Node, j: nat)
    requires j < |n.servers|
    ensures KnownName(n, n.servers[j].ip.str)
  {
  }

  // ---- Probes after an advertisement take the routes just learned ----

  /** `ins[k]` is the last `advertise` of the run. */
  predicate LastAdvertise(ins: seq<Input>, k: nat) {
    k < |ins| && ins[k].AdvertiseCommand? && forall j :: k < j < |ins| ==> !ins[j].AdvertiseCommand?
  }

  lemma OthersDoNotSnap(n: Node, a: Input, i: nat, ip: uint32)
    requires Ok(n) && Enabled(n, a) && !a.AdvertiseCommand?
    ensures forall e :: e in Events(n, a, i, ip) ==> !e.Snap?
  {
    hide KindEvents, Classify;
    if a.FrameArrives? {
      FramesBring(n, Classify(n, a.buffer, a.length), a.delays, i, ip);
    }
  }

  /** Only `advertise` writes forwarding hops. */
  lemma OthersKeepRoutes(n: Node, a: Input, i: nat)
    requires WellFormed(n) && Ok(n) && Enabled(n, a) && i < |n.servers| && !a.AdvertiseCommand?
    ensures var r := Act(n, a).0; i < |r.servers| && r.servers[i].fwd == n.servers[i].fwd
  {
    hide WellFormed, Act, Enabled, Events;
    var ip := n.servers[i].ip.uint;
    ActEntry(n, a, i);
    OthersDoNotSnap(n, a, i, ip);
    ForwardingUntilSnap(n.servers[i], n.gateway, Events(n, a, i, ip));
  }

  lemma AdvertiseWritesRoutes(n: Node, i: nat)
    requires Ok(n) && n.configured <= MAX_SERVERS && i < |n.servers|
    ensures var r := Act(n, AdvertiseCommand).0;
            && |r.servers| == |n.servers|
            && r.servers[i].fwd.rttHop == n.servers[i].learn.rttHop
            && r.servers[i].fwd.lostHop == n.servers[i].learn.lostHop
            && r.servers[i].RttCell() == Cell(n.gateway.uint, Fin(n.servers[i].rtt as real))
            && r.servers[i].LossCell() == Cell(n.gateway.uint, n.servers[i].lostRate)
            && r.servers[i] == n.servers[i].(fwd := r.servers[i].fwd, learn := r.servers[i].learn)
            && r == n.(servers := r.servers)
  {
  }

  /** Over any run the forwarding hops are the learning hops at the last `advertise`. */
  lemma {:induction false} RoutesOfLastAdvertise(ns: seq<Node>, ins: seq<Input>, k: nat, i: nat, m: nat)
    requires Behaviour(ns, ins) && WellFormed(ns[0]) && LastAdvertise(ins, k) && k < m < |ns| && i < |ns[k].servers|
    ensures i < |ns[m].servers|
    ensures ns[m].servers[i].fwd.rttHop == ns[k].servers[i].learn.rttHop
    ensures ns[m].servers[i].fwd.lostHop == ns[k].servers[i].learn.lostHop
  {
    hide WellFormed, Act, Enabled, Ok;
    if m == k + 1 {
      assert Enabled(ns[k], ins[k]);
      CanAdvertise(ns[k]);
      AdvertiseWritesRoutes(ns[k], i);
    } else {
      RoutesOfLastAdvertise(ns, ins, k, i, m - 1);
      AlwaysWellFormed(ns, ins, m - 1);
      OthersKeepRoutes(ns[m - 1], ins[m - 1], i);
    }
  }

  lemma CanAdvertise(n: Node)
    requires Ok(n) && Enabled(n, AdvertiseCommand)
    ensures n.configured <= MAX_SERVERS
  {
  }

  /** From initialization on, a `dsa` to a configured server, at any time after the last `advertise`, goes
      to the hop the RTT epoch closed by that command ended with, and an `lsa` to that of the loss epoch;
      if nobody had raised an offer in the epoch, that hop was the first to offer the least cost. */
  lemma ProbesTakeLearnedRoutes(gw: string, gatewayMac: mac, inside: Iface, outside: Iface, names: seq<string>,
                                ns: seq<Node>, ins: seq<Input>, k: nat, i: nat)
    requires DistinctNames(names) && Behaviour(ns, ins) && ns[0] == Start(gw, gatewayMac, inside, outside, names)
    requires LastAdvertise(ins, k) && i < |names|
    ensures var n, g := ns[|ins|], Resolve(gw);
            var s, t := Fresh(Resolve(names[i]), g), Trace(ns, ins, i, Address.IpToUint(names[i]), k);
            var rtt, loss := RttEpoch(s, g, t), LossEpoch(s, g, t);
            && Ok(n) && Enabled(n, SendCommand(names[i], true)) && Enabled(n, SendCommand(names[i], false))
            && (exists hop: uint32 :: hop == rtt.Current().hop
                  && Leaves(n, Act(n, SendCommand(names[i], true)).1, hop, Address.IpToUint(names[i]), 1000))
            && (exists hop: uint32 :: hop == loss.Current().hop
                  && Leaves(n, Act(n, SendCommand(names[i], false)).1, hop, Address.IpToUint(names[i]), 2000))
            && (NoRaise(rtt.Past()) ==> Optimal(rtt.Current(), rtt))
            && (NoRaise(loss.Past()) ==> Optimal(loss.Current(), loss))
  {
    var ip, g := Resolve(names[i]), Resolve(gw);
    assert ns[0].servers[i] == Fresh(ip, g);
    StartWellFormed(gw, gatewayMac, inside, outside, names);
    EntriesAreDestinations(ns, ins, i, k);
    EntriesAreDestinations(ns, ins, i, |ins|);
    AlwaysWellFormed(ns, ins, |ins|);
    RoutesOfLastAdvertise(ns, ins, k, i, |ins|);
    WellFormedBasics(ns[|ins|]);
    hide *;
    ProbesAreRouted(ns[|ins|], i);
    TablesFollowEpochs(Fresh(ip, g), g, Trace(ns, ins, i, ip.uint, k));
    LearnedRoutesAreOptimal(Fresh(ip, g), g, Trace(ns, ins, i, ip.uint, k));
  }
}
