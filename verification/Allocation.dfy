/** The two threads' port allocation and the node's one-step commands agree. */
module Allocation {
  import opened Bytes
  import opened Ports
  import opened Checksum
  import opened Frames
  import opened Overlay
  import opened Tables
  import opened Runs
  import opened Relay
  import NatThreads

  /** The allocation, if any, that an input makes. */
  function IssueOf(n: Node, a: Input): seq<NatThreads.Issue>
    requires Ok(n) && Enabled(n, a)
  {
    var port: uint16 := n.srcPort % PORTS;
    match a
    case SendCommand(dst, _) => if KnownName(n, dst) then [NatThreads.Issue(port, NatThreads.Own)] else []
    case FrameArrives(b, length, _) =>
      (match Classify(n, b, length)
       case RelayRequest(f) => [NatThreads.Issue(port, NatThreads.Relayed(SrcIp(f), SrcPort(f)))]
       case _ => [])
    case _ => []
  }

  ghost function Issues(ns: seq<Node>, ins: seq<Input>, k: nat): seq<NatThreads.Issue>
    requires Behaviour(ns, ins) && k < |ns|
  {
    if k == 0 then [] else Issues(ns, ins, k - 1) + IssueOf(ns[k - 1], ins[k - 1])
  }

  /** What the two threads share of a node. */
  function SharedPart(n: Node): NatThreads.Shared {
    NatThreads.Shared(n.srcPort, n.portToIp, n.portToPort)
  }

  lemma OneIssue(n: Node, a: Input, log: seq<NatThreads.Issue>)
    requires Ok(n) && Enabled(n, a) && SharedPart(n) == NatThreads.Replay(log)
    ensures SharedPart(Act(n, a).0) == NatThreads.Replay(log + IssueOf(n, a))
  {
    hide Classify, UdpKind, EchoUpTo, AdvertUpTo, RelayOut, RelayBack, ProbeFrame, HopFor;
    if IssueOf(n, a) == [] {
      assert log + [] == log;
    } else {
      NatThreads.ReplayNext(log, IssueOf(n, a)[0]);
    }
  }

  /** Over any run, a node's counter and port maps are its allocations replayed in order. */
  lemma {:induction false} RunReplaysIssues(ns: seq<Node>, ins: seq<Input>, k: nat)
    requires Behaviour(ns, ins) && k < |ns| && SharedPart(ns[0]) == NatThreads.START.mem
    ensures SharedPart(ns[k]) == NatThreads.Replay(Issues(ns, ins, k))
  {
    hide Act, Enabled, NatThreads.Replay, IssueOf;
    if k == 0 {
      assert NatThreads.Replay([]) == NatThreads.START.mem by { StartReplay(); }
    } else {
      RunReplaysIssues(ns, ins, k - 1);
      OneIssue(ns[k - 1], ins[k - 1], Issues(ns, ins, k - 1));
    }
  }

  lemma StartReplay()
    ensures NatThreads.Replay([]) == NatThreads.START.mem
  {
  }

  /** A run and an interleaving with the same completed allocations leave, whenever the mutex is free, the
      same counter and maps. */
  lemma SameIssuesSamePorts(ns: seq<Node>, ins: seq<Input>, k: nat, ss: seq<NatThreads.State>, ms: seq<NatThreads.Move>, j: nat)
    requires Behaviour(ns, ins) && k < |ns| && SharedPart(ns[0]) == NatThreads.START.mem
    requires NatThreads.Schedule(ss, ms) && j < |ss| && ss[j].owner.Nobody?
    requires ss[j].log == Issues(ns, ins, k)
    ensures ss[j].mem == SharedPart(ns[k])
  {
    RunReplaysIssues(ns, ins, k);
    NatThreads.AllocationIsAtomic(ss, ms, j);
  }

  // ---- Every interleaving has its run ----

  /** A destination whose last word makes the header sum a multiple of 65536. */
  function CleanDestination(ip: uint32): uint32 {
    var w: uint16 := (0x1_0000 - WordSum(RawHeader(32, UDP, ip, 0)) % 0x1_0000) % 0x1_0000;
    w % 256 * 256 + w / 256
  }

  lemma CleanDestinationIsClean(ip: uint32)
    ensures CleanPair(ip, CleanDestination(ip))
  {
    var h, dst := RawHeader(32, UDP, ip, 0), CleanDestination(ip);
    var w: uint16 := (0x1_0000 - WordSum(h) % 0x1_0000) % 0x1_0000;
    hide WordSum, HeaderFront;
    DestinationBytes(w);
    var g := RawHeader(32, UDP, ip, dst);
    assert g == Splice(h, 18, Le16(w)) by {
      hide Be32;
      LastWord(HeaderFront(32, UDP) + Be32(ip), Be32(0), Be32(dst), Le16(w));
    }
    assert h[18..20] == [0, 0] by { assert Be32(0) == [0, 0, 0, 0]; }
    WordSumSplice(h, 18, Le16(w));
    WordSumZero([0, 0]);
    WordSumWord(w);
    WordSumBound(h);
    RoundedFolds(WordSum(h), w);
  }

  lemma DestinationBytes(w: uint16)
    ensures Be32(w % 256 * 256 + w / 256) == [0, 0] + Le16(w)
  {
  }

  lemma LastWord(front: seq<byte>, zero: seq<byte>, last: seq<byte>, w: seq<byte>)
    requires |front| == 16 && |zero| == 4 && |w| == 2 && zero[0] == zero[1] == 0 && last == [0, 0] + w
    ensures front + last == Splice(front + zero, 18, w)
  {
  }

  lemma WordSumWord(w: uint16)
    ensures WordSum(Le16(w)) == w
  {
    assert Le16(w)[..0] == [];
  }

  lemma RoundedFolds(n: nat, w: uint16)
    requires n <= 10 * 65535 && w == (0x1_0000 - n % 0x1_0000) % 0x1_0000
    ensures (n + w) / 65536 + (n + w) % 65536 < 65536
  {
  }

  /** Any address and port can be the source of a relayed request. */
  lemma RequestInput(n: Node, ip: uint32, port: uint16) returns (a: Input)
    requires Ok(n)
    ensures Enabled(n, a) && IssueOf(n, a) == [NatThreads.Issue(n.srcPort % PORTS, NatThreads.Relayed(ip, port))]
  {
    var m: mac := [0, 0, 0, 0, 0, 0];
    var f := UdpFrame(m, m, ip, CleanDestination(ip), port, DSA_PORT, Be32(COOKIE));
    hide UdpFrame, CleanDestination, ValidUdp, ValidFrame, BuildsCleanly, Classify, IpHeader, IpWords, IpCheck, Get16, Get32;
    CleanDestinationIsClean(ip);
    UdpFrameFields(m, m, ip, CleanDestination(ip), port, DSA_PORT, Be32(COOKIE));
    BuiltIsValid(m, m, ip, CleanDestination(ip), port, DSA_PORT, Be32(COOKIE));
    var padding: seq<byte> := seq(FRAME_BUFFER - PROBE, i => 0);
    var buffer := f + padding;
    assert buffer[..|f|] == f;
    ArrivedKind(n, buffer, f);
    a := FrameArrives(buffer, PROBE, []);
  }

  lemma SendInput(n: Node) returns (a: Input)
    requires WellFormed(n) && Ok(n) && n.configured > 0
    ensures Enabled(n, a) && IssueOf(n, a) == [NatThreads.Issue(n.srcPort % PORTS, NatThreads.Own)]
  {
    var dst := n.servers[0].ip.str;
    a := SendCommand(dst, true);
    SendIsEnabled(n, dst, true);
    assert KnownName(n, dst);
  }

  lemma {:induction false} IssuesOfPrefix(ns: seq<Node>, ins: seq<Input>, m: Node, a: Input, k: nat)
    requires Behaviour(ns, ins) && Behaviour(ns + [m], ins + [a]) && k < |ns|
    ensures Issues(ns + [m], ins + [a], k) == Issues(ns, ins, k)
  {
    hide Act, Enabled, Ok, IssueOf;
    if k > 0 {
      IssuesOfPrefix(ns, ins, m, a, k - 1);
    }
  }

  /** One more step of a run. */
  lemma ExtendRun(ns: seq<Node>, ins: seq<Input>, a: Input) returns (ms: seq<Node>, jns: seq<Input>)
    requires Behaviour(ns, ins) && Ok(ns[|ins|]) && Enabled(ns[|ins|], a)
    ensures Behaviour(ms, jns) && ms[0] == ns[0]
    ensures Issues(ms, jns, |jns|) == Issues(ns, ins, |ins|) + IssueOf(ns[|ins|], a)
  {
    hide Act, Enabled, Ok, IssueOf;
    var m := Act(ns[|ins|], a).0;
    ms, jns := ns + [m], ins + [a];
    assert Behaviour(ms, jns);
    IssuesOfPrefix(ns, ins, m, a, |ins|);
  }

  lemma {:induction false} ReplayCounts(log: seq<NatThreads.Issue>)
    ensures NatThreads.Replay(log).srcPort == FIRST_PORT + |log|
  {
    if log != [] {
      ReplayCounts(log[..|log| - 1]);
    }
  }

  /** From any fresh node with a configured server there is a run that makes exactly these allocations. */
  lemma {:induction false} RunForIssues(n: Node, log: seq<NatThreads.Issue>) returns (ns: seq<Node>, ins: seq<Input>)
    requires WellFormed(n) && n.configured > 0 && SharedPart(n) == NatThreads.START.mem
    requires forall k :: 0 <= k < |log| ==> log[k].port == (FIRST_PORT + k) % PORTS
    ensures Behaviour(ns, ins) && ns[0] == n && Issues(ns, ins, |ins|) == log
  {
    hide WellFormed, Act, Enabled, IssueOf;
    if log == [] {
      ns, ins := [n], [];
    } else {
      var k := |log| - 1;
      ns, ins := RunForIssues(n, log[..k]);
      var m := ns[|ins|];
      AlwaysWellFormed(ns, ins, |ins|);
      WellFormedBasics(m);
      RunReplaysIssues(ns, ins, |ins|);
      ReplayCounts(log[..k]);
      var a: Input;
      match log[k].use {
        case Own => a := SendInput(m);
        case Relayed(ip, port) => a := RequestInput(m, ip, port);
      }
      ns, ins := ExtendRun(ns, ins, a);
    }
  }

  /** Treating a send or a relayed request as one step loses nothing about ports: for every interleaving
      and every state of it, some run of the node makes exactly the allocations completed so far; and
      whenever the mutex is free, the counter and maps are those the run leaves. */
  lemma InterleavingsAreRuns(n: Node, ss: seq<NatThreads.State>, ms: seq<NatThreads.Move>, j: nat)
    returns (ns: seq<Node>, ins: seq<Input>)
    requires WellFormed(n) && n.configured > 0 && SharedPart(n) == NatThreads.START.mem
    requires NatThreads.Schedule(ss, ms) && j < |ss|
    ensures Behaviour(ns, ins) && ns[0] == n && Issues(ns, ins, |ins|) == ss[j].log
    ensures ss[j].owner.Nobody? ==> ss[j].mem == SharedPart(ns[|ins|])
  {
    hide WellFormed, Issues, Act, Enabled, Ok;
    NatThreads.AllocationIsAtomic(ss, ms, j);
    ns, ins := RunForIssues(n, ss[j].log);
    if ss[j].owner.Nobody? {
      SameIssuesSamePorts(ns, ins, |ins|, ss, ms, j);
    }
  }

  // ---- Replies are sorted by the allocations ----

  lemma StartIsFresh(gw: string, gatewayMac: mac, inside: Iface, outside: Iface, names: seq<string>)
    ensures SharedPart(Start(gw, gatewayMac, inside, outside, names)) == NatThreads.START.mem
  {
  }

  lemma {:induction false} IssuedInOrder(ns: seq<Node>, ins: seq<Input>, k: nat)
    requires Behaviour(ns, ins) && k < |ns| && SharedPart(ns[0]) == NatThreads.START.mem
    ensures forall j :: 0 <= j < |Issues(ns, ins, k)| ==> Issues(ns, ins, k)[j].port == (FIRST_PORT + j) % PORTS
  {
    hide Act, Enabled, Ok, NatThreads.Replay;
    if k > 0 {
      IssuedInOrder(ns, ins, k - 1);
      RunReplaysIssues(ns, ins, k - 1);
      ReplayCounts(Issues(ns, ins, k - 1));
      IssuedPort(ns[k - 1], ins[k - 1]);
    }
  }

  lemma IssuedPort(n: Node, a: Input)
    requires Ok(n) && Enabled(n, a)
    ensures |IssueOf(n, a)| <= 1 && forall i :: i in IssueOf(n, a) ==> i.port == n.srcPort % PORTS
  {
    hide Classify;
  }

  /** Over any run, while ports last: an accepted frame to a port outside the three services is relayed back
      exactly when that port was allocated for a relayed request, taken for an own reply exactly when it
      was allocated for a probe of the node, and ignored when it was never allocated. */
  lemma RepliesAreSorted(ns: seq<Node>, ins: seq<Input>, k: nat, buffer: seq<byte>, f: seq<byte>)
    requires Behaviour(ns, ins) && k < |ns| && SharedPart(ns[0]) == NatThreads.START.mem && ns[k].srcPort <= PORTS
    requires Arrived(buffer, f) && ValidUdp(f) && DstPort(f) !in {1000, 2000, 5000}
    ensures var log, p, kind := Issues(ns, ins, k), DstPort(f), Classify(ns[k], buffer, |f|);
            && (kind == RelayReply(f, p) <==> p in NatThreads.RelayedPorts(log))
            && (kind == OwnReply(p) <==> p in NatThreads.OwnPorts(log))
            && (kind == Ignored <==> p !in NatThreads.RelayedPorts(log) + NatThreads.OwnPorts(log))
  {
    hide ValidUdp, Act, Enabled, Ok, Issues, Classify, NatThreads.Replay, NatThreads.RelayedPorts, NatThreads.OwnPorts;
    var log := Issues(ns, ins, k);
    RunReplaysIssues(ns, ins, k);
    ReplayCounts(log);
    IssuedInOrder(ns, ins, k);
    NatThreads.ReplayMaps(log);
    NatThreads.IssuedPorts(log);
    NatThreads.KeysAreRelayed(NatThreads.Replay(log), log);
    ValidHasHeader(f);
    ArrivedKind(ns[k], buffer, f);
    var p, n := DstPort(f), ns[k];
    assert p in n.portToIp <==> p in NatThreads.RelayedPorts(log);
    assert p in NatThreads.RelayedPorts(log) + NatThreads.OwnPorts(log) <==> FIRST_PORT <= p < n.srcPort;
    assert Classify(n, buffer, |f|) == UdpKind(n, f);
    assert p in NatThreads.RelayedPorts(log) ==> p !in NatThreads.OwnPorts(log);
  }

  lemma ValidHasHeader(f: seq<byte>)
    requires ValidUdp(f)
    ensures Header(f) && Protocol(f) == UDP
  {
  }
}
