/** The node as the source runs it: one server array and four maps, updated in place by every
    command and every frame. Each method is tied to the step of `Overlay` it performs. */
module RonNode {
  import opened Bytes
  import opened Checksum
  import opened Learning
  import opened Destination
  import opened Advert
  import opened Frames
  import opened Overlay
  import opened Builders
  import opened Tables
  import opened Ports
  import Address

  class SimulatedMachine {
    var serverInfoes: array<Server>
    var configured: nat
    var all: nat
    var gateway: IpInfo
    var gatewayMac: mac
    var inside: Iface
    var outside: Iface
    var ipToId: map<uint32, nat>
    var ipToMac: map<uint32, mac>
    var srcPort: nat
    var portToIp: map<uint16, uint32>
    var portToPort: map<uint16, uint16>
    /** Calls of sendFrame, in order. */
    var outbox: seq<Sent>

    ghost predicate Valid()
      reads this, serverInfoes
    {
      && serverInfoes.Length == MAX_SERVERS
      && configured <= all <= MAX_SERVERS
      && portToIp.Keys == portToPort.Keys
      && forall i :: all <= i < MAX_SERVERS ==> serverInfoes[i] == BLANK
    }

    ghost function Abs(): (n: Node)
      requires Valid()
      reads this, serverInfoes
      ensures Ok(n)
    {
      Node(serverInfoes[..all], configured, gateway, gatewayMac, inside, outside,
           ipToId, ipToMac, srcPort, portToIp, portToPort)
    }

    /** initialize. */
    constructor (gw: string, gatewayMac: mac, inside: Iface, outside: Iface, names: seq<string>)
      requires |names| <= MAX_SERVERS
      ensures Valid() && fresh(serverInfoes)
      ensures Abs() == Start(gw, gatewayMac, inside, outside, names) && outbox == []
    {
      var uint := Address.IpIntoUint(gw);
      serverInfoes := new Server[MAX_SERVERS](_ => BLANK);
      configured, all := |names|, |names|;
      this.gateway, this.gatewayMac, this.inside, this.outside := IpInfo(uint, gw), gatewayMac, inside, outside;
      ipToId, ipToMac, srcPort, portToIp, portToPort, outbox := map[], map[], FIRST_PORT, map[], map[], [];
      new;
      hide Address.IpToUint, Fresh, IdMap;
      var i := 0;
      while i < |names|
        invariant 0 <= i <= |names| && serverInfoes.Length == MAX_SERVERS && fresh(serverInfoes)
        invariant configured == all == |names| && outbox == [] && srcPort == FIRST_PORT
        invariant ipToMac == map[] && portToIp == map[] && portToPort == map[]
        invariant this.gateway == Resolve(gw) && this.gatewayMac == gatewayMac && this.inside == inside && this.outside == outside
        invariant forall k :: 0 <= k < i ==> serverInfoes[k] == Fresh(Resolve(names[k]), Resolve(gw))
        invariant forall k :: i <= k < MAX_SERVERS ==> serverInfoes[k] == BLANK
        invariant ipToId == IdMap(names[..i])
      {
        InitializeServerInformation(i, names[i]);
        IdMapNext(names, i);
        i := i + 1;
      }
      assert names[..i] == names;
    }

    /** initialize_server_information. */
    method InitializeServerInformation(id: nat, name: string)
      requires id < serverInfoes.Length
      modifies this`ipToId, serverInfoes
      ensures serverInfoes[id] == Fresh(Resolve(name), gateway)
      ensures forall k :: 0 <= k < serverInfoes.Length && k != id ==> serverInfoes[k] == old(serverInfoes[k])
      ensures ipToId == old(ipToId)[Address.IpToUint(name) := id]
    {
      var r := Routing(gateway, gateway, MAX16, Fin(1.0), false);
      var uint := Address.IpIntoUint(name);
      ipToId := ipToId[uint := id];
      serverInfoes[id] := Server(IpInfo(uint, name), Fin(1.0), 0, 0, MAX16, 0, 0, false, r, r);
    }

    /** get_index_by_ip. */
    method GetIndexByIp(ip: uint32) returns (k: int)
      requires Valid()
      ensures k == Find(Abs().servers, ip)
    {
      k := 0;
      while k < all
        invariant 0 <= k <= all
        invariant FindFrom(Abs().servers, ip, k) == Find(Abs().servers, ip)
      {
        if serverInfoes[k].ip.uint == ip {
          return;
        }
        k := k + 1;
      }
      k := -1;
    }

    /** insert_into_server_infoes; the table must have room. */
    method InsertIntoServerInfoes(ip: IpInfo)
      requires Valid() && all < MAX_SERVERS
      modifies this`all, serverInfoes
      ensures Valid() && all == old(all) + 1
      ensures Abs() == old(Abs()).(servers := old(Abs().servers) + [Discovered(ip)])
    {
      serverInfoes[all] := serverInfoes[all].(ip := ip);
      serverInfoes[all] := serverInfoes[all].(gotLast := false, lostRate := Fin(1.0));
      serverInfoes[all] := serverInfoes[all].(learn := serverInfoes[all].learn.(lost := Fin(1.0)));
      serverInfoes[all] := serverInfoes[all].(rtt := MAX16);
      serverInfoes[all] := serverInfoes[all].(learn := serverInfoes[all].learn.(rtt := MAX16));
      all := all + 1;
    }

    /** The rewriting half of update_learning_table. */
    method LearnInPlace(id: nat, rtt: uint16, lost: Cost, from: IpInfo)
      requires id < serverInfoes.Length
      modifies serverInfoes
      ensures serverInfoes[id] == LearnFrom(old(serverInfoes[id]), from, rtt, lost)
      ensures forall k :: 0 <= k < serverInfoes.Length && k != id ==> serverInfoes[k] == old(serverInfoes[k])
    {
      serverInfoes[id] := serverInfoes[id].(learn := serverInfoes[id].learn.(active := true));
      if from.uint == serverInfoes[id].learn.rttHop.uint || serverInfoes[id].learn.rtt > rtt {
        serverInfoes[id] := serverInfoes[id].(learn := serverInfoes[id].learn.(rttHop := from));
        serverInfoes[id] := serverInfoes[id].(learn := serverInfoes[id].learn.(rtt := rtt));
      }
      if from.uint == serverInfoes[id].learn.lostHop.uint || Less(lost, serverInfoes[id].learn.lost) {
        serverInfoes[id] := serverInfoes[id].(learn := serverInfoes[id].learn.(lostHop := from));
        serverInfoes[id] := serverInfoes[id].(learn := serverInfoes[id].learn.(lost := lost));
      }
    }

    /** update_learning_table. */
    method UpdateLearningTable(ip: IpInfo, rtt: uint16, lost: Cost, from: IpInfo)
      requires Valid()
      requires |LearnAt(Abs().servers, ip, from, rtt, lost)| <= MAX_SERVERS
      modifies this`all, serverInfoes
      ensures Valid()
      ensures Abs() == old(Abs()).(servers := LearnAt(old(Abs().servers), ip, from, rtt, lost))
    {
      hide LearnFrom, FindFrom, Discovered;
      ghost var before := Abs().servers;
      var id := GetIndexByIp(ip.uint);
      if id == -1 {
        id := all;
        InsertIntoServerInfoes(ip);
        assert Abs().servers == before + [Discovered(ip)] && serverInfoes[id] == Discovered(ip);
      }
      LearnInPlace(id, rtt, lost, from);
      assert Abs().servers == LearnAt(before, ip, from, rtt, lost);
    }

    /** The counters of an accepted reply. */
    method CountReplyInPlace(i: nat, delay: uint16)
      requires i < serverInfoes.Length
      modifies serverInfoes
      ensures serverInfoes[i] == CountReply(old(serverInfoes[i]), delay)
      ensures forall k :: 0 <= k < serverInfoes.Length && k != i ==> serverInfoes[k] == old(serverInfoes[k])
    {
      if serverInfoes[i].rtt == MAX16 {
        serverInfoes[i] := serverInfoes[i].(rtt := delay);
        serverInfoes[i] := serverInfoes[i].(sent := Inc16(serverInfoes[i].sent));
      } else {
        serverInfoes[i] := serverInfoes[i].(rtt := (serverInfoes[i].rtt as int + delay) / 2);
      }
      serverInfoes[i] := serverInfoes[i].(received := Inc16(serverInfoes[i].received));
      serverInfoes[i] := serverInfoes[i].(gotLast := true);
      serverInfoes[i] := serverInfoes[i].(lostPings := 0);
      serverInfoes[i] := serverInfoes[i].(lostRate := LossRate(serverInfoes[i].received, serverInfoes[i].sent));
    }

    /** One iteration of receive_ping_packet. */
    method EchoAt(i: nat, ip: uint32, seqId: uint16, delay: uint16)
      requires Valid() && i < configured
      modifies this`all, serverInfoes
      ensures Valid() && all == old(all)
      ensures Abs() == old(Abs()).(servers := EchoEntry(old(Abs().servers), i, gateway, ip, seqId, delay))
    {
      hide CountReply, LearnAt;
      ghost var t := Abs().servers;
      if serverInfoes[i].ip.uint == ip && seqId as int + 1 == serverInfoes[i].sequenceId {
        CountReplyInPlace(i, delay);
        KeepsAddress(t[i], delay);
        assert Abs().servers == t[i := CountReply(t[i], delay)];
        assert |EchoEntry(t, i, gateway, ip, seqId, delay)| == |t|;
        UpdateLearningTable(serverInfoes[i].ip, serverInfoes[i].rtt, serverInfoes[i].lostRate, gateway);
      }
    }

    /** receive_ping_packet: a reply from `ip` to the probe numbered `seqId`. */
    method ReceivePingPacket(ip: uint32, seqId: uint16, delays: seq<uint16>)
      requires Valid() && |delays| == configured
      modifies this`all, serverInfoes
      ensures Valid()
      ensures Abs() == old(Abs()).(servers := EchoUpTo(old(Abs().servers), gateway, ip, seqId, delays, configured))
    {
      hide EchoEntry;
      var i := 0;
      while i < configured
        invariant Valid() && 0 <= i <= configured && all == old(all)
        invariant Abs() == old(Abs()).(servers := EchoUpTo(old(Abs().servers), gateway, ip, seqId, delays, i))
      {
        EchoAt(i, ip, seqId, delays[i]);
        i := i + 1;
      }
    }

    /** The fields of one advertised record, as receive_advertise_data reads them. */
    static method ReadRecord(data: seq<byte>, i: nat) returns (o: Record)
      requires i + RECORD <= |data|
      ensures o == DecodeRecord(data, i)
    {
      var lost := LossRate(GetLe16(data, i + 10), GetLe16(data, i + 8));
      o := Record(Get32(data, i), Get32(data, i + 4) % 0x1_0000, Get16(data, i + 8), Get16(data, i + 10), lost);
    }

    /** receive_advertise_data: the payload of a peer's advertisement. */
    method ReceiveAdvertiseData(data: seq<byte>, from: uint32, smac: mac)
      requires Valid() && Readable(|data|)
      requires |AdvertUpTo(Abs().servers, Named(from), Records(data), |Records(data)|)| <= MAX_SERVERS
      modifies this`all, this`ipToMac, serverInfoes
      ensures Valid()
      ensures Abs() == old(Abs()).(
                servers := AdvertUpTo(old(Abs().servers), Named(from), Records(data), |Records(data)|),
                ipToMac := old(ipToMac)[from := smac])
    {
      hide DecodeRecord, Address.Print, AdvertUpTo, LearnAt;
      ghost var records, n := Records(data), Abs();
      AdvertStart(n.servers, Named(from), records);
      var i := 0;
      ghost var k := 0;
      while i < |data| - TRAILER
        invariant Valid() && 0 <= k <= |records| && i == RECORD * k
        invariant Abs() == n.(servers := AdvertUpTo(n.servers, Named(from), records, k))
        decreases |data| - i
      {
        var o := ReadRecord(data, i);
        assert o == records[k];
        var server := Address.IpUintIntoStr(o.ip);
        var host := Address.IpUintIntoStr(from);
        AdvertNext(n.servers, Named(from), records, k);
        AdvertFits(n.servers, Named(from), records, k + 1);
        UpdateLearningTable(IpInfo(o.ip, server), o.rtt, o.lost, IpInfo(from, host));
        i := i + RECORD;
        k := k + 1;
      }
      ipToMac := ipToMac[from := smac];
    }

    /** check_connections_is_alive. */
    method CheckConnectionsIsAlive()
      requires Valid()
      modifies serverInfoes
      ensures Valid()
      ensures Abs() == MapServers(old(Abs()), Check, configured)
    {
      var i := 0;
      while i < configured
        invariant Valid() && 0 <= i <= configured
        invariant forall k :: 0 <= k < all ==>
                    serverInfoes[k] == if k < i then Check(old(serverInfoes[k])) else old(serverInfoes[k])
      {
        if !serverInfoes[i].gotLast {
          if serverInfoes[i].lostPings == 2 {
            serverInfoes[i] := serverInfoes[i].(lostRate := Fin(1.0));
            serverInfoes[i] := serverInfoes[i].(rtt := MAX16);
          }
          serverInfoes[i] := serverInfoes[i].(lostPings := Inc16(serverInfoes[i].lostPings));
        }
        i := i + 1;
      }
      assert Abs().servers == MapServers(old(Abs()), Check, configured).servers;
    }

    /** update_server_information. */
    method UpdateServerInformation(i: nat)
      requires Valid() && i < configured
      modifies serverInfoes
      ensures Valid()
      ensures serverInfoes[i] == CountProbe(old(serverInfoes[i]), gateway)
      ensures forall k :: 0 <= k < MAX_SERVERS && k != i ==> serverInfoes[k] == old(serverInfoes[k])
    {
      serverInfoes[i] := serverInfoes[i].(sequenceId := Inc16(serverInfoes[i].sequenceId));
      if serverInfoes[i].rtt != MAX16 {
        serverInfoes[i] := serverInfoes[i].(sent := Inc16(serverInfoes[i].sent));
        serverInfoes[i] := serverInfoes[i].(lostRate := LossRate(serverInfoes[i].received, serverInfoes[i].sent));
      }
      if serverInfoes[i].learn.lostHop.uint == gateway.uint {
        serverInfoes[i] := serverInfoes[i].(learn := serverInfoes[i].learn.(lost := serverInfoes[i].lostRate));
      }
      serverInfoes[i] := serverInfoes[i].(gotLast := false);
    }

    /** The `ping` command: all checks, then for each server one request and its bookkeeping. */
    method Ping()
      requires Valid()
      modifies this`outbox, serverInfoes
      ensures Valid() && Abs() == Act(old(Abs()), PingCommand).0
      ensures outbox == old(outbox) + Act(old(Abs()), PingCommand).1
    {
      ghost var n := Abs();
      CheckConnectionsIsAlive();
      SendRequests(n);
    }

    /** send_icmp_packet. */
    method SendIcmpPacket(i: nat)
      requires Valid() && i < configured
      modifies this`outbox, serverInfoes
      ensures Valid()
      ensures serverInfoes[i] == CountProbe(old(serverInfoes[i]), gateway)
      ensures forall k :: 0 <= k < MAX_SERVERS && k != i ==> serverInfoes[k] == old(serverInfoes[k])
      ensures outbox == old(outbox) + [Sent(EchoFrame(gatewayMac, outside.mac, outside.ip,
                                                      old(serverInfoes[i].ip.uint), old(serverInfoes[i].sequenceId)), 1)]
    {
      hide CountProbe, EchoFrame;
      var data := BuildPing(gatewayMac, outside.mac, outside.ip, serverInfoes[i].ip.uint, serverInfoes[i].sequenceId);
      ghost var frame := data[..];
      UpdateServerInformation(i);
      outbox := outbox + [Sent(data[..], 1)];
    }

    /** The sending half of the `ping` command, entered after the checks on `n`. */
    method SendRequests(ghost n: Node)
      requires Valid() && Abs() == n.(servers := Abs().servers) && |n.servers| == all
      requires forall k :: 0 <= k < all ==>
                 serverInfoes[k] == if k < configured then Check(n.servers[k]) else n.servers[k]
      modifies this`outbox, serverInfoes
      ensures Valid() && Ok(n) && Abs() == Act(n, PingCommand).0
      ensures outbox == old(outbox) + Act(n, PingCommand).1
    {
      hide CountProbe, Check, EchoFrame, Act;
      var i := 0;
      while i < configured
        invariant Valid() && Abs() == n.(servers := Abs().servers) && 0 <= i <= configured
        invariant outbox == old(outbox) + PingFrames(n, i)
        invariant forall k :: 0 <= k < all ==>
                    serverInfoes[k] == if k < i then CountProbe(Check(n.servers[k]), gateway)
                                       else if k < configured then Check(n.servers[k]) else n.servers[k]
      {
        CheckKeepsProbe(n.servers[i]);
        SendIcmpPacket(i);
        i := i + 1;
      }
      PingTable(n, Abs().servers);
    }

    /** fill_forwarding_table. */
    method FillForwardingTable()
      requires Valid()
      modifies serverInfoes
      ensures Valid()
      ensures forall k :: 0 <= k < MAX_SERVERS ==>
                serverInfoes[k] == if k < all then Snapshot(old(serverInfoes[k])) else old(serverInfoes[k])
    {
      var i := 0;
      while i < all
        invariant 0 <= i <= all && serverInfoes.Length == MAX_SERVERS
        invariant forall k :: 0 <= k < MAX_SERVERS ==>
                    serverInfoes[k] == if k < i then Snapshot(old(serverInfoes[k])) else old(serverInfoes[k])
      {
        serverInfoes[i] := serverInfoes[i].(fwd := serverInfoes[i].fwd.(lostHop := serverInfoes[i].learn.lostHop));
        serverInfoes[i] := serverInfoes[i].(fwd := serverInfoes[i].fwd.(rttHop := serverInfoes[i].learn.rttHop));
        i := i + 1;
      }
    }

    /** reset_learning_table. */
    method ResetLearningTable()
      requires Valid()
      modifies serverInfoes
      ensures Valid()
      ensures forall k :: 0 <= k < MAX_SERVERS ==>
                serverInfoes[k] == if k < all then ResetLearning(old(serverInfoes[k]), gateway) else old(serverInfoes[k])
    {
      var i := 0;
      while i < all
        invariant 0 <= i <= all && serverInfoes.Length == MAX_SERVERS
        invariant forall k :: 0 <= k < MAX_SERVERS ==>
                    serverInfoes[k] == if k < i then ResetLearning(old(serverInfoes[k]), gateway) else old(serverInfoes[k])
      {
        serverInfoes[i] := serverInfoes[i].(learn := serverInfoes[i].learn.(lostHop := gateway));
        serverInfoes[i] := serverInfoes[i].(learn := serverInfoes[i].learn.(rtt := serverInfoes[i].rtt));
        serverInfoes[i] := serverInfoes[i].(learn := serverInfoes[i].learn.(rttHop := gateway));
        serverInfoes[i] := serverInfoes[i].(learn := serverInfoes[i].learn.(lost := serverInfoes[i].lostRate));
        i := i + 1;
      }
    }

    /** advertise_data: one broadcast of the servers that are up. */
    method AdvertiseData()
      requires Valid()
      modifies this`outbox
      ensures Valid() && Abs() == old(Abs()) && outbox == old(outbox) + [Sent(AdvertFrame(Abs()), 0)]
    {
      ghost var table := serverInfoes[..configured];
      var data, size := EncodeUpServers();
      assert Abs().servers[..configured] == table;
      var frame := BuildUdp(BROADCAST_MAC, inside.mac, inside.ip, BROADCAST, ADVERT_PORT, ADVERT_PORT, data[..size]);
      outbox := outbox + [Sent(frame[..], 0)];
    }

    /** The encoding loop of advertise_data: the payload is the first `size` bytes of `data`. */
    method EncodeUpServers() returns (data: array<byte>, size: nat)
      requires Valid()
      ensures fresh(data) && size <= data.Length && data[..size] == EncodeTable(serverInfoes[..configured])
    {
      hide UpServers, EncodeRecords, EncodeRecord;
      ghost var table := serverInfoes[..configured];
      data := new byte[RECORD * configured + TRAILER];
      var offset: nat := 0;
      var i := 0;
      EncodesNothing();
      assert table[..0] == [];
      while i < configured
        invariant 0 <= i <= configured && offset <= RECORD * i
        invariant data[..offset] == EncodeRecords(UpServers(table[..i]))
      {
        UpServersNext(table, i);
        if serverInfoes[i].rtt != MAX16 {
          Append(data, offset, EncodeRecord(serverInfoes[i]));
          EncodeNext(UpServers(table[..i]), table[i]);
          offset := offset + RECORD;
        } else {
          assert UpServers(table[..i]) + [] == UpServers(table[..i]);
        }
        i := i + 1;
      }
      assert table[..i] == table;
      var padding: seq<byte> := [0, 0, 0, 0];
      Append(data, offset, padding);
      size := offset + TRAILER;
    }

    /** The `advertise` command. */
    method Advertise()
      requires Valid()
      modifies this`outbox, serverInfoes
      ensures Valid() && Abs() == Act(old(Abs()), AdvertiseCommand).0
      ensures outbox == old(outbox) + Act(old(Abs()), AdvertiseCommand).1
    {
      hide Act, Snapshot, ResetLearning, AdvertFrame;
      ghost var n := Abs();
      AdvertiseData();
      FillForwardingTable();
      ResetLearningTable();
      AdvertiseTable(n, Abs().servers);
    }

    /** is_server_valid. */
    method IsServerValid(dst: string) returns (known: bool)
      requires Valid()
      ensures known <==> KnownName(Abs(), dst)
    {
      var i := 0;
      while i < all
        invariant 0 <= i <= all && forall k :: 0 <= k < i ==> serverInfoes[k].ip.str != dst
      {
        if serverInfoes[i].ip.str == dst {
          assert Abs().servers[i].ip.str == dst;
          return true;
        }
        i := i + 1;
      }
      known := false;
    }

    /** send_udp_packet. */
    method SendUdpPacket(dst: uint32, hop: uint32, dsa: bool)
      requires Valid() && (hop == gateway.uint || hop in ipToMac)
      modifies this`srcPort, this`outbox
      ensures Valid() && Abs() == old(Abs()).(srcPort := old(srcPort) + 1)
      ensures outbox == old(outbox) + [Sent(ProbeFrame(old(Abs()), dst, hop, dsa), if hop == gateway.uint then 1 else 0)]
    {
      var service := if dsa then DSA_PORT else LSA_PORT;
      var port: uint16 := srcPort % PORTS;
      srcPort := srcPort + 1;
      if hop == gateway.uint {
        var frame := BuildUdp(gatewayMac, outside.mac, outside.ip, dst, port, service, Be32(COOKIE));
        outbox := outbox + [Sent(frame[..], 1)];
      } else {
        var frame := BuildUdp(ipToMac[hop], inside.mac, inside.ip, dst, port, service, Be32(COOKIE));
        outbox := outbox + [Sent(frame[..], 0)];
      }
    }

    /** The `dsa` and `lsa` commands: send_dsa_packet, send_lsa_packet. */
    method Send(dst: string, dsa: bool)
      requires Valid() && Enabled(Abs(), SendCommand(dst, dsa))
      modifies this`srcPort, this`outbox, this`ipToId
      ensures Valid() && Abs() == Act(old(Abs()), SendCommand(dst, dsa)).0
      ensures outbox == old(outbox) + Act(old(Abs()), SendCommand(dst, dsa)).1
    {
      hide UdpFrame, KnownName, Address.IpToUint;
      var known := IsServerValid(dst);
      if known {
        var ip := Address.IpIntoUint(dst);
        if ip !in ipToId {
          ipToId := ipToId[ip := 0];
        }
        var s := serverInfoes[ipToId[ip]];
        var hop := if dsa then s.fwd.rttHop.uint else s.fwd.lostHop.uint;
        SendUdpPacket(ip, hop, dsa);
      }
    }

    /** The DSA/LSA branch of processFrame: allocate a port and send the request on to the gateway. */
    method RelayOutwards(frame: array<byte>)
      requires Valid() && Header(frame[..]) && 14 + 4 * Hl(frame[..]) <= frame.Length
      modifies this`srcPort, this`portToIp, this`portToPort, this`outbox
      ensures Valid() && Abs() == Process(old(Abs()), RelayRequest(frame[..]), []).0
      ensures outbox == old(outbox) + Process(old(Abs()), RelayRequest(frame[..]), []).1
    {
      hide RelayOut, Get16, Get32, RelayBack, EchoUpTo, AdvertUpTo;
      var port: uint16 := srcPort % PORTS;
      portToIp := portToIp[port := Get32(frame[..], 26)];
      portToPort := portToPort[port := Get16(frame[..], 34)];
      srcPort := srcPort + 1;
      var data := RewriteOut(frame, gatewayMac, outside.mac, outside.ip, port);
      outbox := outbox + [Sent(data[..], 1)];
    }

    /** The relayed-reply branch of processFrame. */
    method RelayInwards(frame: array<byte>, port: uint16)
      requires Valid() && Accepts(Abs(), RelayReply(frame[..], port), [])
      modifies this`outbox
      ensures Valid() && Abs() == old(Abs())
      ensures outbox == old(outbox) + Process(old(Abs()), RelayReply(frame[..], port), []).1
    {
      hide RelayBack;
      var data := RewriteBack(frame, ipToMac[portToIp[port]], inside.mac, portToIp[port], portToPort[port]);
      outbox := outbox + [Sent(data[..], 0)];
    }

    /** The UDP part of processFrame, on the frame's private copy. */
    method ProcessUdp(frame: array<byte>)
      requires Valid() && Header(frame[..])
      requires Accepts(Abs(), UdpKind(Abs(), frame[..]), [])
      modifies this`all, this`ipToMac, this`srcPort, this`portToIp, this`portToPort, this`outbox, serverInfoes
      ensures Valid()
      ensures Abs() == Process(old(Abs()), UdpKind(old(Abs()), frame[..]), []).0
      ensures outbox == old(outbox) + Process(old(Abs()), UdpKind(old(Abs()), frame[..]), []).1
    {
      hide RelayOut, RelayBack, AdvertUpTo, Records, Readable;
      var f := frame[..];
      var port := Get16(f, 36);
      if port == ADVERT_PORT {
        ReceiveAdvertiseData(f[UDP_SIZE..], Get32(f, 26), f[6..12]);
      } else if port == DSA_PORT || port == LSA_PORT {
        RelayOutwards(frame);
      } else if port >= FIRST_PORT && port < srcPort {
        if port in portToIp {
          RelayInwards(frame, port);
        }
      }
    }

    /** processFrame on the first `length` bytes of the receive buffer. */
    method ProcessFrame(buffer: array<byte>, length: nat, delays: seq<uint16>)
      requires Valid() && buffer.Length == FRAME_BUFFER && length <= FRAME_BUFFER
      requires Enabled(Abs(), FrameArrives(buffer[..], length, delays))
      modifies this`all, this`ipToMac, this`srcPort, this`portToIp, this`portToPort, this`outbox, serverInfoes
      ensures Valid()
      ensures Abs() == Act(old(Abs()), FrameArrives(buffer[..], length, delays)).0
      ensures outbox == old(outbox) + Act(old(Abs()), FrameArrives(buffer[..], length, delays)).1
    {
      hide Process, Accepts, ValidFrame, ValidUdp, UdpKind, Readable;
      var b := buffer[..];
      AcceptedUdp(b, length);
      var ok := IsValidPacket(buffer, length);
      if !ok {
        ProcessIgnored(Abs(), delays);
        return;
      }
      if b[23] == ICMP {
        EchoIsProcess(Abs(), SrcIp(b), Get16(b, 38), delays);
        ReceivePingPacket(Get32(b, 26), Get16(b, 38), delays);
      } else {
        OnlyTwoProtocols(b, length);
        var frame := new byte[length](i requires 0 <= i < length => b[i]);
        assert frame[..] == b[..length];
        HeaderFits(b[..length]);
        UdpNeedsNoDelays(Abs(), UdpKind(Abs(), b[..length]), delays);
        ProcessUdp(frame);
      }
    }
  }

  lemma ProcessIgnored(n: Node, delays: seq<uint16>)
    requires Ok(n)
    ensures Accepts(n, Ignored, delays) && Process(n, Ignored, delays) == (n, [])
  {
  }

  lemma EchoIsProcess(n: Node, ip: uint32, seqId: uint16, delays: seq<uint16>)
    requires Ok(n) && Accepts(n, EchoReply(ip, seqId), delays)
    ensures |delays| == n.configured
    ensures Process(n, EchoReply(ip, seqId), delays)
         == (n.(servers := EchoUpTo(n.servers, n.gateway, ip, seqId, delays, n.configured)), [])
  {
  }

  lemma OnlyTwoProtocols(b: seq<byte>, length: nat)
    requires Buffer(b) && ValidFrame(b, length)
    ensures Protocol(b) == UDP || Protocol(b) == ICMP
  {
  }

  lemma HeaderFits(f: seq<byte>)
    requires ValidUdp(f)
    ensures Header(f) && 14 + 4 * Hl(f) <= |f|
  {
  }

  lemma UdpNeedsNoDelays(n: Node, k: Kind, delays: seq<uint16>)
    requires Ok(n) && !k.EchoReply? && Accepts(n, k, delays)
    ensures Accepts(n, k, []) && Process(n, k, []) == Process(n, k, delays)
  {
  }

  lemma IdMapNext(names: seq<string>, i: nat)
    requires i < |names|
    ensures IdMap(names[..i + 1]) == IdMap(names[..i])[Address.IpToUint(names[i]) := i]
  {
    assert names[..i + 1][..i] == names[..i];
  }

  lemma AdvertiseTable(n: Node, table: seq<Server>)
    requires Ok(n) && n.configured <= MAX_SERVERS && |table| == |n.servers|
    requires forall k :: 0 <= k < |table| ==> table[k] == ResetLearning(Snapshot(n.servers[k]), n.gateway)
    ensures Act(n, AdvertiseCommand) == (n.(servers := table), [Sent(AdvertFrame(n), 0)])
  {
    hide Snapshot, ResetLearning, AdvertFrame;
    assert Act(n, AdvertiseCommand).0.servers == table;
  }

  lemma PingTable(n: Node, t: seq<Server>)
    requires Ok(n) && |t| == |n.servers|
    requires forall k :: 0 <= k < |t| ==>
               t[k] == if k < n.configured then CountProbe(Check(n.servers[k]), n.gateway) else n.servers[k]
    ensures Act(n, PingCommand) == (n.(servers := t), PingFrames(n, n.configured))
  {
    assert t == Act(n, PingCommand).0.servers;
  }

  lemma CheckKeepsProbe(s: Server)
    ensures Check(s).ip == s.ip && Check(s).sequenceId == s.sequenceId
  {
  }

  lemma KeepsAddress(s: Server, delay: uint16)
    ensures CountReply(s, delay).ip == s.ip
  {
  }

  lemma AdvertStart(table: seq<Server>, from: IpInfo, records: seq<Record>)
    ensures AdvertUpTo(table, from, records, 0) == table
  {
  }

  lemma AdvertNext(table: seq<Server>, from: IpInfo, records: seq<Record>, k: nat)
    requires k < |records|
    ensures var o := records[k];
            AdvertUpTo(table, from, records, k + 1)
            == LearnAt(AdvertUpTo(table, from, records, k), Named(o.ip), from, o.rtt, o.lost)
  {
  }

  lemma EncodesNothing()
    ensures EncodeRecords(UpServers([])) == []
  {
  }

  lemma UpServersNext(table: seq<Server>, i: nat)
    requires i < |table|
    ensures UpServers(table[..i + 1]) == UpServers(table[..i]) + if table[i].Up() then [table[i]] else []
  {
    assert table[..i + 1][..i] == table[..i];
  }

  lemma EncodeNext(servers: seq<Server>, s: Server)
    ensures EncodeRecords(servers + [s]) == EncodeRecords(servers) + EncodeRecord(s)
  {
  }

  lemma {:induction false} AdvertFits(table: seq<Server>, from: IpInfo, records: seq<Record>, k: nat)
    requires k <= |records|
    ensures |AdvertUpTo(table, from, records, k)| <= |AdvertUpTo(table, from, records, |records|)|
    decreases |records| - k
  {
    if k < |records| {
      AdvertFits(table, from, records, k + 1);
    }
  }
}
