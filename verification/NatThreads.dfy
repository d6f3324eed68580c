/** Port allocation under every interleaving of the frame thread (relaying) and the console thread
    (sending): one step is one statement of either thread. */
module NatThreads {
  import opened Bytes
  import opened Ports

  /** What a port was allocated for. */
  datatype Use = Relayed(ip: uint32, port: uint16) | Own

  datatype Issue = Issue(port: uint16, use: Use)

  datatype Owner = Nobody | RelayThread | SendThread

  /** The frame thread: waiting for the mutex, holding it, then after each statement of the section. */
  datatype RelayPc =
    | RIdle
    | RWaiting(ip: uint32, port: uint16)
    | RLocked(ip: uint32, port: uint16)
    | RIpStored(ip: uint32, port: uint16)
    | RPortStored(ip: uint32, port: uint16)
    | RStamped(ip: uint32, port: uint16, stamp: uint16)
    | RCounted
  {
    predicate InSection() { !RIdle? && !RWaiting? }
  }

  /** The console thread; `SUnlocked` is the stretch before it records the send time. */
  datatype SendPc = SIdle | SWaiting | SLocked | SStamped(stamp: uint16) | SCounted(stamp: uint16) | SUnlocked(stamp: uint16)
  {
    predicate InSection() { SLocked? || SStamped? || SCounted? }
  }

  datatype Shared = Shared(srcPort: nat, portToIp: map<uint16, uint32>, portToPort: map<uint16, uint16>)

  datatype State = State(mem: Shared, owner: Owner, relay: RelayPc, send: SendPc, sentTimes: set<uint16>, log: seq<Issue>)

  const START := State(Shared(FIRST_PORT, map[], map[]), Nobody, RIdle, SIdle, {}, [])

  /** A scheduling choice: a request arrives, a send is typed, or one thread moves. */
  datatype Move = Request(ip: uint32, port: uint16) | Typed | Relay | Send

  predicate CanMove(s: State, m: Move) {
    match m
    case Request(_, _) => s.relay.RIdle?
    case Typed => s.send.SIdle?
    case Relay => s.relay.InSection() || (s.relay.RWaiting? && s.owner.Nobody?)
    case Send => s.send.InSection() || s.send.SUnlocked? || (s.send.SWaiting? && s.owner.Nobody?)
  }

  function RelayMove(s: State): State
    requires CanMove(s, Relay)
  {
    var key: uint16 := s.mem.srcPort % PORTS;
    match s.relay
    case RWaiting(ip, port) => s.(owner := RelayThread, relay := RLocked(ip, port))
    case RLocked(ip, port) => s.(mem := s.mem.(portToIp := s.mem.portToIp[key := ip]), relay := RIpStored(ip, port))
    case RIpStored(ip, port) =>
      s.(mem := s.mem.(portToPort := s.mem.portToPort[key := port]), relay := RPortStored(ip, port))
    case RPortStored(ip, port) => s.(relay := RStamped(ip, port, key))
    case RStamped(ip, port, stamp) =>
      s.(mem := s.mem.(srcPort := s.mem.srcPort + 1), relay := RCounted, log := s.log + [Issue(stamp, Relayed(ip, port))])
    case RCounted => s.(owner := Nobody, relay := RIdle)
  }

  function SendMove(s: State): State
    requires CanMove(s, Send)
  {
    var key: uint16 := s.mem.srcPort % PORTS;
    match s.send
    case SWaiting => s.(owner := SendThread, send := SLocked)
    case SLocked => s.(send := SStamped(key))
    case SStamped(stamp) =>
      s.(mem := s.mem.(srcPort := s.mem.srcPort + 1), send := SCounted(stamp), log := s.log + [Issue(stamp, Own)])
    case SCounted(stamp) => s.(owner := Nobody, send := SUnlocked(stamp))
    case SUnlocked(stamp) => s.(send := SIdle, sentTimes := s.sentTimes + {SentKey(s)})
  }

  /** The key of sent_times: src_port - 1, read again after the unlock. */
  function SentKey(s: State): uint16 {
    (s.mem.srcPort - 1) % PORTS
  }

  function Apply(s: State, m: Move): State
    requires CanMove(s, m)
  {
    match m
    case Request(ip, port) => s.(relay := RWaiting(ip, port))
    case Typed => s.(send := SWaiting)
    case Relay => RelayMove(s)
    case Send => SendMove(s)
  }

  /** A schedule: `ss[k + 1]` is the state after move `ms[k]`. */
  ghost predicate Schedule(ss: seq<State>, ms: seq<Move>) {
    && |ss| == |ms| + 1 && ss[0] == START
    && forall k :: 0 <= k < |ms| ==> CanMove(ss[k], ms[k]) && ss[k + 1] == Apply(ss[k], ms[k])
  }

  // ---- Reference: the allocations done atomically, one after another ----

  function Replay(log: seq<Issue>): Shared {
    if log == [] then Shared(FIRST_PORT, map[], map[])
    else
      var m, i := Replay(log[..|log| - 1]), log[|log| - 1];
      var key: uint16 := m.srcPort % PORTS;
      match i.use
      case Own => m.(srcPort := m.srcPort + 1)
      case Relayed(ip, port) =>
        Shared(m.srcPort + 1, m.portToIp[key := ip], m.portToPort[key := port])
  }

  lemma ReplayNext(log: seq<Issue>, i: Issue)
    ensures Replay((log + [i])[..|log|]) == Replay(log) && (log + [i])[|log|] == i
  {
  }

  /** What a section in progress has written beyond the completed allocations. */
  ghost predicate Linear(s: State) {
    var m, key: uint16 := Replay(s.log), s.mem.srcPort % PORTS;
    && s.mem.srcPort == m.srcPort == FIRST_PORT + |s.log|
    && s.mem.portToIp == (if s.relay.RIpStored? || s.relay.RPortStored? || s.relay.RStamped?
                          then m.portToIp[key := s.relay.ip] else m.portToIp)
    && s.mem.portToPort == (if s.relay.RPortStored? || s.relay.RStamped?
                            then m.portToPort[key := s.relay.port] else m.portToPort)
    && (s.relay.RStamped? ==> s.relay.stamp == key)
    && (s.send.SStamped? ==> s.send.stamp == key)
    && (forall k :: 0 <= k < |s.log| ==> s.log[k].port == (FIRST_PORT + k) % PORTS)
  }

  ghost predicate Exclusive(s: State) {
    && (s.relay.InSection() <==> s.owner.RelayThread?)
    && (s.send.InSection() <==> s.owner.SendThread?)
    && (s.send.SCounted? || s.send.SUnlocked? ==> Issue(s.send.stamp, Own) in s.log)
  }

  lemma RelayMoveKeeps(s: State)
    requires Exclusive(s) && Linear(s) && CanMove(s, Relay)
    ensures Exclusive(RelayMove(s)) && Linear(RelayMove(s))
  {
    if s.relay.RStamped? {
      ReplayNext(s.log, Issue(s.relay.stamp, Relayed(s.relay.ip, s.relay.port)));
    }
  }

  lemma SendMoveKeeps(s: State)
    requires Exclusive(s) && Linear(s) && CanMove(s, Send)
    ensures Exclusive(SendMove(s)) && Linear(SendMove(s))
  {
    if s.send.SStamped? {
      ReplayNext(s.log, Issue(s.send.stamp, Own));
      assert (s.log + [Issue(s.send.stamp, Own)])[|s.log|] == Issue(s.send.stamp, Own);
    }
  }

  /** In every schedule, whenever the mutex is free the shared memory is exactly what the completed
      allocations would leave if run one after another in log order. */
  lemma {:induction false} AllocationIsAtomic(ss: seq<State>, ms: seq<Move>, k: nat)
    requires Schedule(ss, ms) && k < |ss|
    ensures Exclusive(ss[k]) && Linear(ss[k])
    ensures ss[k].owner.Nobody? ==> ss[k].mem == Replay(ss[k].log)
  {
    if k > 0 {
      AllocationIsAtomic(ss, ms, k - 1);
      match ms[k - 1]
      case Relay => RelayMoveKeeps(ss[k - 1]);
      case Send => SendMoveKeeps(ss[k - 1]);
      case _ =>
    }
  }

  // ---- Consequences while ports last ----

  function RelayedPorts(log: seq<Issue>): set<uint16> {
    set k | 0 <= k < |log| && log[k].use.Relayed? :: log[k].port
  }

  function OwnPorts(log: seq<Issue>): set<uint16> {
    set k | 0 <= k < |log| && log[k].use.Own? :: log[k].port
  }

  /** Ports were issued in order. */
  ghost predicate InOrder(log: seq<Issue>) {
    FIRST_PORT + |log| <= PORTS && forall k :: 0 <= k < |log| ==> log[k].port == FIRST_PORT + k
  }

  /** The maps hold exactly the relayed ports of the log, with what each was allocated for. */
  ghost predicate MapsMatch(m: Shared, log: seq<Issue>) {
    && m.srcPort == FIRST_PORT + |log|
    && (forall p :: p in m.portToIp ==> p in RelayedPorts(log))
    && (forall p :: p in m.portToPort ==> p in RelayedPorts(log))
    && Delivers(m, log)
  }

  ghost predicate Delivers(m: Shared, log: seq<Issue>) {
    forall k :: 0 <= k < |log| && log[k].use.Relayed? ==>
      && log[k].port in m.portToIp && m.portToIp[log[k].port] == log[k].use.ip
      && log[k].port in m.portToPort && m.portToPort[log[k].port] == log[k].use.port
  }

  lemma {:induction false} ReplayMaps(log: seq<Issue>)
    requires InOrder(log)
    ensures MapsMatch(Replay(log), log)
  {
    if log != [] {
      var n := |log| - 1;
      var u, i := log[..n], log[n];
      ReplayMaps(u);
      assert Replay(u).srcPort % PORTS == i.port;
      RelayedNext(u, i);
      assert log == u + [i];
      assert Delivers(Replay(log), log);
    }
  }

  lemma RelayedNext(log: seq<Issue>, i: Issue)
    ensures RelayedPorts(log + [i]) == RelayedPorts(log) + if i.use.Relayed? then {i.port} else {}
  {
    var r := log + [i];
    assert r[|log|] == i;
    assert forall k :: 0 <= k < |log| ==> r[k] == log[k];
  }

  lemma IssuedPorts(log: seq<Issue>)
    requires InOrder(log)
    ensures RelayedPorts(log) !! OwnPorts(log)
    ensures forall p: uint16 :: p in RelayedPorts(log) + OwnPorts(log) <==> FIRST_PORT <= p < FIRST_PORT + |log|
  {
    forall p: uint16
      ensures p in RelayedPorts(log) + OwnPorts(log) <==> FIRST_PORT <= p < FIRST_PORT + |log|
    {
      if FIRST_PORT <= p < FIRST_PORT + |log| {
        assert log[p - FIRST_PORT].port == p;
      }
    }
  }

  /** While the counter is at most 65536, under every interleaving: no port is handed out twice; own and
      relayed ports are disjoint and together exactly [8000, src_port) whenever the mutex is free; and
      the maps hold, for exactly the relayed ports, the address and port they were allocated for. */
  lemma PortsAreUnique(ss: seq<State>, ms: seq<Move>, k: nat)
    requires Schedule(ss, ms) && k < |ss| && ss[k].mem.srcPort <= PORTS
    ensures var s := ss[k];
            && (forall i, j :: 0 <= i < j < |s.log| ==> s.log[i].port != s.log[j].port)
            && RelayedPorts(s.log) !! OwnPorts(s.log)
            && (forall p: uint16 :: p in RelayedPorts(s.log) + OwnPorts(s.log) <==> FIRST_PORT <= p < FIRST_PORT + |s.log|)
            && Delivers(s.mem, s.log)
            && (s.owner.Nobody? ==>
                  && s.mem.srcPort == FIRST_PORT + |s.log|
                  && s.mem.portToIp.Keys == RelayedPorts(s.log) && s.mem.portToPort.Keys == RelayedPorts(s.log))
  {
    AllocationIsAtomic(ss, ms, k);
    var s := ss[k];
    assert InOrder(s.log);
    ReplayMaps(s.log);
    IssuedPorts(s.log);
    hide Replay, InOrder, RelayedPorts, OwnPorts;
    SectionKeepsOld(s);
    if s.owner.Nobody? {
      KeysAreRelayed(s.mem, s.log);
    }
  }

  lemma KeysAreRelayed(m: Shared, log: seq<Issue>)
    requires MapsMatch(m, log)
    ensures m.portToIp.Keys == RelayedPorts(log) && m.portToPort.Keys == RelayedPorts(log)
  {
  }

  lemma SectionKeepsOld(s: State)
    requires Linear(s) && InOrder(s.log) && MapsMatch(Replay(s.log), s.log)
    ensures Delivers(s.mem, s.log)
  {
    hide Replay;
    assert forall k :: 0 <= k < |s.log| ==> s.log[k].port < s.mem.srcPort;
    assert s.mem.srcPort < PORTS ==> s.mem.srcPort % PORTS == s.mem.srcPort;
    assert s.mem.srcPort == PORTS ==> s.mem.srcPort % PORTS == 0;
  }

  lemma {:induction false} LogGrows(ss: seq<State>, ms: seq<Move>, i: nat, j: nat)
    requires Schedule(ss, ms) && i <= j < |ss|
    ensures ss[i].log <= ss[j].log && ss[i].mem.srcPort <= ss[j].mem.srcPort
    decreases j - i
  {
    if i < j {
      LogGrows(ss, ms, i, j - 1);
      assert CanMove(ss[j - 1], ms[j - 1]);
    }
  }

  /** A relayed port maps for ever to the address and port it was allocated for. */
  lemma RelayedPortsAreForever(ss: seq<State>, ms: seq<Move>, i: nat, j: nat, k: nat)
    requires Schedule(ss, ms) && i <= j < |ss| && ss[j].mem.srcPort <= PORTS
    requires k < |ss[i].log| && ss[i].log[k].use.Relayed?
    ensures var a, m := ss[i].log[k], ss[j].mem;
            && a.port in m.portToIp && m.portToIp[a.port] == a.use.ip
            && a.port in m.portToPort && m.portToPort[a.port] == a.use.port
  {
    LogGrows(ss, ms, i, j);
    assert ss[j].log[k] == ss[i].log[k];
    PortsAreUnique(ss, ms, j);
  }

  // ---- The send-time key ----

  /** The time of a send is recorded under the port it used exactly when no other allocation has been
      completed since: the last issue of the log is its own. */
  lemma SentTimeKey(ss: seq<State>, ms: seq<Move>, k: nat)
    requires Schedule(ss, ms) && k < |ss| && ss[k].mem.srcPort <= PORTS && ss[k].send.SUnlocked?
    ensures ss[k].log != []
    ensures SentKey(ss[k]) == ss[k].send.stamp <==> ss[k].log[|ss[k].log| - 1] == Issue(ss[k].send.stamp, Own)
  {
    AllocationIsAtomic(ss, ms, k);
    var s := ss[k];
    var own :| 0 <= own < |s.log| && s.log[own] == Issue(s.send.stamp, Own);
    assert s.log[|s.log| - 1].port == FIRST_PORT + |s.log| - 1;
  }

  ghost predicate Reachable(s: State) {
    exists ss: seq<State>, ms: seq<Move> :: Schedule(ss, ms) && ss[|ms|] == s
  }

  lemma Reach(s: State, m: Move) returns (r: State)
    requires Reachable(s) && CanMove(s, m)
    ensures Reachable(r) && r == Apply(s, m)
  {
    var ss: seq<State>, ms: seq<Move> :| Schedule(ss, ms) && ss[|ms|] == s;
    r := Apply(s, m);
    assert Schedule(ss + [r], ms + [m]);
    assert (ss + [r])[|ms + [m]|] == r;
  }

  lemma ReachSent() returns (s: State)
    ensures Reachable(s)
    ensures s == State(Shared(8001, map[], map[]), Nobody, RIdle, SUnlocked(8000), {}, [Issue(8000, Own)])
  {
    assert Schedule([START], []) && [START][0] == START;
    hide Reachable;
    s := Reach(START, Typed);
    s := Reach(s, Send);
    s := Reach(s, Send);
    s := Reach(s, Send);
    s := Reach(s, Send);
  }

  /** An interleaving in which the console thread, sending from port 8000, is about to record its time
      under the port 8001 that the frame thread relayed in between. */
  lemma SentTimeWitness() returns (s: State)
    ensures Reachable(s)
    ensures s.send == SUnlocked(8000) && SentKey(s) == 8001 && s.log == [Issue(8000, Own), Issue(8001, Relayed(7, 9))]
  {
    s := ReachSent();
    hide Reachable;
    s := Reach(s, Request(7, 9));
    s := Reach(s, Relay);
    s := Reach(s, Relay);
    s := Reach(s, Relay);
    s := Reach(s, Relay);
    s := Reach(s, Relay);
    s := Reach(s, Relay);
  }
}
