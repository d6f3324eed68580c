/** What every step of the node keeps: table well-formedness, next hops with a stored MAC, port maps. */
module Tables {
  import opened Bytes
  import opened Learning
  import opened Destination
  import opened Advert
  import opened Frames
  import opened Overlay
  import opened Ports
  import Address

  predicate Spells(i: IpInfo) {
    Address.IpToUint(i.str) == i.uint
  }

  predicate Named4(s: Server) {
    && Spells(s.ip) && Spells(s.fwd.rttHop) && Spells(s.fwd.lostHop) && Spells(s.learn.rttHop) && Spells(s.learn.lostHop)
  }

  ghost predicate Distinct(table: seq<Server>) {
    forall i, j :: 0 <= i < j < |table| ==> table[i].ip.uint != table[j].ip.uint
  }

  /** A next hop a probe can be addressed to. */
  predicate HopIn(macs: set<uint32>, gw: uint32, hop: uint32) {
    hop == gw || hop in macs
  }

  predicate HopsIn(macs: set<uint32>, gw: uint32, s: Server) {
    && HopIn(macs, gw, s.fwd.rttHop.uint) && HopIn(macs, gw, s.fwd.lostHop.uint)
    && HopIn(macs, gw, s.learn.rttHop.uint) && HopIn(macs, gw, s.learn.lostHop.uint)
  }

  /** Entries in order: distinct addresses, spelled names, usable hops (a discovered entry may still
      hold the zero hops it was inserted with). */
  ghost predicate TableOk(table: seq<Server>, configured: nat, macs: set<uint32>, gw: uint32) {
    && configured <= |table|
    && Distinct(table)
    && (forall i :: 0 <= i < |table| ==> Named4(table[i]))
    && (forall i :: 0 <= i < configured ==> HopsIn(macs, gw, table[i]))
    && (forall i :: 0 <= i < |table| ==> HopsIn(macs + {0}, gw, table[i]))
  }

  /** ip_to_id against the linear scan: configured addresses map to their entry, any other key to 0. */
  ghost predicate IdsOk(table: seq<Server>, configured: nat, ids: map<uint32, nat>) {
    && configured <= |table|
    && (forall i :: 0 <= i < configured ==> table[i].ip.uint in ids && ids[table[i].ip.uint] == i)
    && (forall k :: k in ids ==> ids[k] == 0 || (ids[k] < configured && table[ids[k]].ip.uint == k))
  }

  ghost predicate PortsOk(srcPort: nat, ips: map<uint16, uint32>, ports: map<uint16, uint16>) {
    && srcPort >= FIRST_PORT
    && ips.Keys == ports.Keys
    && (forall p :: p in ips ==> p < srcPort)
  }

  ghost predicate WellFormed(n: Node) {
    && Spells(n.gateway)
    && TableOk(n.servers, n.configured, n.ipToMac.Keys, n.gateway.uint)
    && IdsOk(n.servers, n.configured, n.ipToId)
    && PortsOk(n.srcPort, n.portToIp, n.portToPort)
  }

  // ---- Initial state ----

  function IdMap(names: seq<string>): map<uint32, nat> {
    if names == [] then map[]
    else IdMap(names[..|names| - 1])[Address.IpToUint(names[|names| - 1]) := |names| - 1]
  }

  function Resolve(name: string): IpInfo {
    IpInfo(Address.IpToUint(name), name)
  }

  /** The state initialize() leaves. */
  function Start(gw: string, gatewayMac: mac, inside: Iface, outside: Iface, names: seq<string>): (n: Node)
    ensures |n.servers| == |names|
  {
    Node(seq(|names|, i requires 0 <= i < |names| => Fresh(Resolve(names[i]), Resolve(gw))), |names|, Resolve(gw),
         gatewayMac, inside, outside, IdMap(names), map[], FIRST_PORT, map[], map[])
  }

  ghost predicate DistinctNames(names: seq<string>) {
    forall i, j :: 0 <= i < j < |names| ==> Address.IpToUint(names[i]) != Address.IpToUint(names[j])
  }

  lemma {:induction false} IdMapExact(names: seq<string>)
    requires DistinctNames(names)
    ensures forall i :: 0 <= i < |names| ==>
              Address.IpToUint(names[i]) in IdMap(names) && IdMap(names)[Address.IpToUint(names[i])] == i
    ensures forall k :: k in IdMap(names) ==> IdMap(names)[k] < |names| && Address.IpToUint(names[IdMap(names)[k]]) == k
  {
    if names != [] {
      IdMapExact(names[..|names| - 1]);
    }
  }

  lemma StartWellFormed(gw: string, gatewayMac: mac, inside: Iface, outside: Iface, names: seq<string>)
    requires DistinctNames(names)
    ensures WellFormed(Start(gw, gatewayMac, inside, outside, names))
    ensures var n := Start(gw, gatewayMac, inside, outside, names);
            && n.gateway == IpInfo(Address.IpToUint(gw), gw) && n.gatewayMac == gatewayMac
            && n.inside == inside && n.outside == outside && n.configured == |n.servers| == |names|
            && n.srcPort == 8000 && n.portToIp == map[] && n.portToPort == map[] && n.ipToMac == map[]
  {
    IdMapExact(names);
  }

  // ---- Preservation, one table operation at a time ----

  /** Old entries keep their place and their address. */
  ghost predicate SameIps(t: seq<Server>, r: seq<Server>) {
    |t| <= |r| && forall i :: 0 <= i < |t| ==> r[i].ip == t[i].ip
  }

  lemma SameIpsSelf(t: seq<Server>)
    ensures SameIps(t, t)
  {
  }

  lemma SameIpsChain(t: seq<Server>, u: seq<Server>, r: seq<Server>)
    requires SameIps(t, u) && SameIps(u, r)
    ensures SameIps(t, r)
  {
  }

  lemma LearnKeepsEntry(s: Server, from: IpInfo, rtt: uint16, lost: Cost, macs: set<uint32>, gw: uint32)
    requires Named4(s) && Spells(from) && HopsIn(macs, gw, s)
    ensures var r := LearnFrom(s, from, rtt, lost);
            Named4(r) && HopsIn(macs + {from.uint}, gw, r) && r.ip == s.ip
  {
  }

  lemma AppendKeeps(table: seq<Server>, configured: nat, s: Server, macs: set<uint32>, gw: uint32)
    requires TableOk(table, configured, macs, gw) && Named4(s) && HopsIn(macs + {0}, gw, s)
    requires forall j :: 0 <= j < |table| ==> table[j].ip.uint != s.ip.uint
    ensures TableOk(table + [s], configured, macs, gw) && SameIps(table, table + [s])
  {
  }

  lemma ReplaceKeeps(table: seq<Server>, configured: nat, k: nat, s: Server, macs: set<uint32>, gw: uint32)
    requires TableOk(table, configured, macs, gw) && k < |table| && s.ip == table[k].ip && Named4(s)
    requires HopsIn(macs + {0}, gw, s) && (k < configured ==> HopsIn(macs, gw, s))
    ensures TableOk(table[k := s], configured, macs, gw) && SameIps(table, table[k := s])
  {
  }

  lemma NowhereSpells()
    ensures Spells(NOWHERE)
  {
  }

  /** Learning keeps the table in order and adds at most the peer to the hops in use. */
  lemma LearnAtKeeps(table: seq<Server>, configured: nat, ip: IpInfo, from: IpInfo, rtt: uint16, lost: Cost,
                     macs: set<uint32>, gw: uint32)
    requires TableOk(table, configured, macs, gw) && Spells(ip) && Spells(from)
    ensures TableOk(LearnAt(table, ip, from, rtt, lost), configured, macs + {from.uint}, gw)
    ensures SameIps(table, LearnAt(table, ip, from, rtt, lost))
  {
    hide Spells, HopIn, LearnFrom, SameIps;
    var k := Find(table, ip.uint);
    var all := macs + {from.uint};
    assert macs + {0} + {from.uint} == all + {0};
    HopsGrow(table, configured, macs, all, gw);
    if k == -1 {
      NowhereSpells();
      LearnKeepsEntry(Discovered(ip), from, rtt, lost, macs + {0}, gw);
      AppendKeeps(table, configured, LearnFrom(Discovered(ip), from, rtt, lost), all, gw);
    } else {
      LearnKeepsEntry(table[k], from, rtt, lost, macs + {0}, gw);
      if k < configured {
        LearnKeepsEntry(table[k], from, rtt, lost, macs, gw);
      }
      ReplaceKeeps(table, configured, k, LearnFrom(table[k], from, rtt, lost), all, gw);
    }
  }

  lemma HopsGrow(table: seq<Server>, configured: nat, macs: set<uint32>, all: set<uint32>, gw: uint32)
    requires TableOk(table, configured, macs, gw) && macs <= all
    ensures TableOk(table, configured, all, gw)
  {
  }

  lemma NamedSpells(ip: uint32)
    ensures Spells(Named(ip)) && Named(ip).uint == ip
  {
    Address.ParsePrint(ip);
  }

  lemma {:induction false} AdvertKeeps(table: seq<Server>, configured: nat, from: IpInfo, records: seq<Record>, k: nat,
                                       macs: set<uint32>, gw: uint32)
    requires TableOk(table, configured, macs, gw) && Spells(from) && k <= |records|
    ensures TableOk(AdvertUpTo(table, from, records, k), configured, macs + {from.uint}, gw)
    ensures SameIps(table, AdvertUpTo(table, from, records, k))
  {
    hide TableOk, SameIps, LearnAt, Spells, Named;
    if k == 0 {
      HopsGrow(table, configured, macs, macs + {from.uint}, gw);
      SameIpsSelf(table);
    } else {
      AdvertKeeps(table, configured, from, records, k - 1, macs, gw);
      var o, t := records[k - 1], AdvertUpTo(table, from, records, k - 1);
      NamedSpells(o.ip);
      LearnAtKeeps(t, configured, Named(o.ip), from, o.rtt, o.lost, macs + {from.uint}, gw);
      SameIpsChain(table, t, LearnAt(t, Named(o.ip), from, o.rtt, o.lost));
      assert macs + {from.uint} + {from.uint} == macs + {from.uint};
    }
  }

  lemma {:induction false} EchoKeeps(table: seq<Server>, gw: IpInfo, ip: uint32, seqId: uint16, delays: seq<uint16>, k: nat,
                                     macs: set<uint32>, configured: nat)
    requires TableOk(table, configured, macs, gw.uint) && Spells(gw) && k <= |table| && k <= |delays|
    ensures TableOk(EchoUpTo(table, gw, ip, seqId, delays, k), configured, macs, gw.uint)
    ensures SameIps(table, EchoUpTo(table, gw, ip, seqId, delays, k))
  {
    hide TableOk, EchoEntry, SameIps;
    if k == 0 {
      SameIpsSelf(table);
    } else {
      EchoKeeps(table, gw, ip, seqId, delays, k - 1, macs, configured);
      var t := EchoUpTo(table, gw, ip, seqId, delays, k - 1);
      EchoEntryKeeps(t, k - 1, gw, ip, seqId, delays[k - 1], macs, configured);
      SameIpsChain(table, t, EchoEntry(t, k - 1, gw, ip, seqId, delays[k - 1]));
    }
  }

  lemma EchoEntryKeeps(t: seq<Server>, i: nat, gw: IpInfo, ip: uint32, seqId: uint16, delay: uint16,
                       macs: set<uint32>, configured: nat)
    requires TableOk(t, configured, macs, gw.uint) && Spells(gw) && i < |t|
    ensures var r := EchoEntry(t, i, gw, ip, seqId, delay);
            TableOk(r, configured, macs, gw.uint) && SameIps(t, r)
  {
    if t[i].ip.uint == ip && Matches(t[i], seqId) {
      var s := CountReply(t[i], delay);
      assert Named4(s) && s.ip == t[i].ip && s.fwd == t[i].fwd && s.learn == t[i].learn;
      TableUpdate(t, t[i := s], configured, macs, gw.uint);
      LearnAtKeeps(t[i := s], configured, s.ip, gw, s.rtt, s.lostRate, macs, gw.uint);
      GatewayNeedsNoMac(LearnAt(t[i := s], s.ip, gw, s.rtt, s.lostRate), configured, macs, gw.uint);
    }
  }

  /** Rewriting entries in place keeps the table in order. */
  lemma TableUpdate(t: seq<Server>, r: seq<Server>, configured: nat, macs: set<uint32>, gw: uint32)
    requires TableOk(t, configured, macs, gw) && |r| == |t|
    requires SameIps(t, r) && forall i :: 0 <= i < |t| ==> Named4(r[i])
    requires forall i :: 0 <= i < |t| && HopsIn(macs, gw, t[i]) ==> HopsIn(macs, gw, r[i])
    requires forall i :: 0 <= i < |t| && HopsIn(macs + {0}, gw, t[i]) ==> HopsIn(macs + {0}, gw, r[i])
    ensures TableOk(r, configured, macs, gw)
  {
  }

  lemma GatewayNeedsNoMac(table: seq<Server>, configured: nat, macs: set<uint32>, gw: uint32)
    requires TableOk(table, configured, macs + {gw}, gw)
    ensures TableOk(table, configured, macs, gw)
  {
  }

  /** A table that keeps the addresses of its old entries keeps the id map right. */
  lemma SameAddressesKeep(n: Node, t: seq<Server>, macs: map<uint32, mac>)
    requires WellFormed(n) && TableOk(t, n.configured, macs.Keys, n.gateway.uint) && SameIps(n.servers, t)
    ensures WellFormed(n.(servers := t, ipToMac := macs))
  {
  }

  lemma PingKeepsEntry(s: Server, gw: IpInfo, macs: set<uint32>)
    ensures var r := Step(s, gw, Ping);
            r.ip == s.ip && (Named4(s) ==> Named4(r)) && (HopsIn(macs, gw.uint, s) ==> HopsIn(macs, gw.uint, r))
  {
  }

  lemma ResetKeepsEntry(s: Server, gw: IpInfo, macs: set<uint32>)
    requires Spells(gw)
    ensures var r := ResetLearning(Snapshot(s), gw);
            r.ip == s.ip && (Named4(s) ==> Named4(r)) && (HopsIn(macs, gw.uint, s) ==> HopsIn(macs, gw.uint, r))
  {
  }

  lemma PingKeeps(n: Node)
    requires WellFormed(n)
    ensures WellFormed(Act(n, PingCommand).0)
  {
    hide Step, Named4, HopsIn;
    var t := Act(n, PingCommand).0.servers;
    var macs := n.ipToMac.Keys;
    forall i | 0 <= i < |t|
      ensures t[i].ip == n.servers[i].ip && Named4(t[i])
      ensures HopsIn(macs, n.gateway.uint, n.servers[i]) ==> HopsIn(macs, n.gateway.uint, t[i])
      ensures HopsIn(macs + {0}, n.gateway.uint, n.servers[i]) ==> HopsIn(macs + {0}, n.gateway.uint, t[i])
    {
      PingKeepsEntry(n.servers[i], n.gateway, macs);
      PingKeepsEntry(n.servers[i], n.gateway, macs + {0});
    }
    TableUpdate(n.servers, t, n.configured, macs, n.gateway.uint);
    SameAddressesKeep(n, t, n.ipToMac);
  }

  lemma AdvertiseKeeps(n: Node)
    requires WellFormed(n) && Enabled(n, AdvertiseCommand)
    ensures WellFormed(Act(n, AdvertiseCommand).0)
  {
    hide ResetLearning, Snapshot, Named4, HopsIn;
    var t := Act(n, AdvertiseCommand).0.servers;
    var macs := n.ipToMac.Keys;
    forall i | 0 <= i < |t|
      ensures t[i].ip == n.servers[i].ip && Named4(t[i])
      ensures HopsIn(macs, n.gateway.uint, n.servers[i]) ==> HopsIn(macs, n.gateway.uint, t[i])
      ensures HopsIn(macs + {0}, n.gateway.uint, n.servers[i]) ==> HopsIn(macs + {0}, n.gateway.uint, t[i])
    {
      ResetKeepsEntry(n.servers[i], n.gateway, macs);
      ResetKeepsEntry(n.servers[i], n.gateway, macs + {0});
    }
    TableUpdate(n.servers, t, n.configured, macs, n.gateway.uint);
    SameAddressesKeep(n, t, n.ipToMac);
  }

  lemma EchoReplyKeeps(n: Node, k: Kind, delays: seq<uint16>)
    requires WellFormed(n) && Accepts(n, k, delays) && k.EchoReply?
    ensures WellFormed(Process(n, k, delays).0)
  {
    EchoKeeps(n.servers, n.gateway, k.ip, k.seqId, delays, n.configured, n.ipToMac.Keys, n.configured);
    hide *;
    SameAddressesKeep(n, EchoUpTo(n.servers, n.gateway, k.ip, k.seqId, delays, n.configured), n.ipToMac);
  }

  lemma AdvertisementKeeps(n: Node, k: Kind, delays: seq<uint16>)
    requires WellFormed(n) && Accepts(n, k, delays) && k.Advertisement?
    ensures WellFormed(Process(n, k, delays).0)
  {
    hide TableOk, IdsOk, PortsOk, SameIps, Spells, Named, AdvertUpTo, Records;
    var records := Records(k.payload);
    NamedSpells(k.from);
    AdvertKeeps(n.servers, n.configured, Named(k.from), records, |records|, n.ipToMac.Keys, n.gateway.uint);
    assert n.ipToMac[k.from := k.smac].Keys == n.ipToMac.Keys + {k.from};
    SameAddressesKeep(n, AdvertUpTo(n.servers, Named(k.from), records, |records|), n.ipToMac[k.from := k.smac]);
  }

  lemma RelayKeeps(n: Node, k: Kind, delays: seq<uint16>)
    requires WellFormed(n) && Accepts(n, k, delays) && !k.EchoReply? && !k.Advertisement?
    ensures WellFormed(Process(n, k, delays).0)
  {
    hide TableOk, IdsOk, Spells, RelayOut, RelayBack, EchoUpTo, AdvertUpTo, Records;
    if k.RelayRequest? {
      RelayKeepsPorts(n.srcPort, n.portToIp, n.portToPort, SrcIp(k.frame), SrcPort(k.frame));
    }
  }

  lemma RelayKeepsPorts(srcPort: nat, ips: map<uint16, uint32>, ports: map<uint16, uint16>, ip: uint32, port: uint16)
    requires PortsOk(srcPort, ips, ports)
    ensures var key: uint16 := srcPort % PORTS; PortsOk(srcPort + 1, ips[key := ip], ports[key := port])
  {
  }

  lemma ProcessKeeps(n: Node, k: Kind, delays: seq<uint16>)
    requires WellFormed(n) && Accepts(n, k, delays)
    ensures WellFormed(Process(n, k, delays).0)
  {
    hide WellFormed, Process;
    if k.EchoReply? {
      EchoReplyKeeps(n, k, delays);
    } else if k.Advertisement? {
      AdvertisementKeeps(n, k, delays);
    } else {
      RelayKeeps(n, k, delays);
    }
  }

  lemma SendKeeps(n: Node, dst: string, dsa: bool)
    requires WellFormed(n) && Enabled(n, SendCommand(dst, dsa))
    ensures WellFormed(Act(n, SendCommand(dst, dsa)).0)
  {
    hide TableOk, IdsOk, HopFor, KnownName;
    LookupKeepsIds(n.servers, n.configured, n.ipToId, n, Address.IpToUint(dst));
  }

  lemma LookupKeepsIds(table: seq<Server>, configured: nat, ids: map<uint32, nat>, n: Node, ip: uint32)
    requires IdsOk(table, configured, ids) && ids == n.ipToId
    ensures IdsOk(table, configured, ids[ip := Lookup(n, ip)])
  {
  }

  /** Every step keeps the node well-formed. */
  lemma ActKeeps(n: Node, i: Input)
    requires WellFormed(n) && Enabled(n, i)
    ensures WellFormed(Act(n, i).0)
  {
    hide WellFormed;
    match i
    case PingCommand => PingKeeps(n);
    case AdvertiseCommand => AdvertiseKeeps(n);
    case SendCommand(dst, dsa) => SendKeeps(n, dst, dsa);
    case FrameArrives(b, length, delays) => ProcessKeeps(n, Classify(n, b, length), delays);
  }

  // ---- Consequences ----

  /** In a well-formed node the id map agrees with the linear scan exactly on configured entries and
      entry 0; every discovered entry is looked up as entry 0. */
  lemma LookupExact(n: Node, j: nat)
    requires WellFormed(n) && j < |n.servers|
    ensures Lookup(n, n.servers[j].ip.uint) == if j < n.configured then j else 0
    ensures Find(n.servers, n.servers[j].ip.uint) == j
  {
  }

  /** So with at least one configured server, `dsa` and `lsa` to any known name are defined: the hop is
      the gateway or has a MAC. A discovered name takes the route of entry 0. */
  lemma SendIsEnabled(n: Node, dst: string, dsa: bool)
    requires WellFormed(n) && n.configured > 0
    ensures Enabled(n, SendCommand(dst, dsa))
    ensures forall j :: 0 <= j < |n.servers| && n.servers[j].ip.str == dst ==>
              Lookup(n, Address.IpToUint(dst)) == if j < n.configured then j else 0
  {
    forall j | 0 <= j < |n.servers| && n.servers[j].ip.str == dst
      ensures Lookup(n, Address.IpToUint(dst)) == if j < n.configured then j else 0
    {
      LookupExact(n, j);
    }
    if KnownName(n, dst) {
      var j :| 0 <= j < |n.servers| && n.servers[j].ip.str == dst;
      assert HopsIn(n.ipToMac.Keys, n.gateway.uint, n.servers[Lookup(n, Address.IpToUint(dst))]);
    }
  }
}
