/** What happens to one entry of the server table: probes, replies, offers, snapshots and resets. */
module Destination {
  import opened Bytes
  import opened Learning

  datatype IpInfo = IpInfo(uint: uint32, str: string)

  datatype Routing = Routing(rttHop: IpInfo, lostHop: IpInfo, rtt: uint16, lost: Cost, active: bool)

  datatype Server = Server(
    ip: IpInfo, lostRate: Cost, sent: uint16, received: uint16, rtt: uint16, sequenceId: uint16,
    lostPings: uint16, gotLast: bool, fwd: Routing, learn: Routing)
  {
    /** The direct path is believed usable. */
    predicate Up() { rtt != MAX16 }
    function RttCell(): Cell { Cell(learn.rttHop.uint, Fin(learn.rtt as real)) }
    function LossCell(): Cell { Cell(learn.lostHop.uint, learn.lost) }
  }

  function Inc16(x: uint16): uint16 {
    if x == MAX16 then 0 else x + 1
  }

  /** initialize_server_information; is_received_last_ping keeps the zero of static storage. */
  function Fresh(ip: IpInfo, gw: IpInfo): Server {
    var r := Routing(gw, gw, MAX16, Fin(1.0), false);
    Server(ip, Fin(1.0), 0, 0, MAX16, 0, 0, false, r, r)
  }

  /** One iteration of check_connections_is_alive. */
  function Check(s: Server): Server {
    if s.gotLast then s
    else
      var t := if s.lostPings == 2 then s.(lostRate := Fin(1.0), rtt := MAX16) else s;
      t.(lostPings := Inc16(s.lostPings))
  }

  /** update_server_information. */
  function CountProbe(s: Server, gw: IpInfo): Server {
    var t := s.(sequenceId := Inc16(s.sequenceId));
    var u := if s.Up() then
               var sent := Inc16(s.sent);
               t.(sent := sent, lostRate := LossRate(s.received, sent))
             else t;
    var v := if s.learn.lostHop.uint == gw.uint then u.(learn := u.learn.(lost := u.lostRate)) else u;
    v.(gotLast := false)
  }

  /** The part of update_learning_table that follows the look-up. */
  function LearnFrom(s: Server, from: IpInfo, rtt: uint16, lost: Cost): Server {
    var a := s.learn.(active := true);
    var b := if from.uint == a.rttHop.uint || a.rtt > rtt then a.(rttHop := from, rtt := rtt) else a;
    var c := if from.uint == b.lostHop.uint || Less(lost, b.lost) then b.(lostHop := from, lost := lost) else b;
    s.(learn := c)
  }

  /** The reply test: an int comparison, so a probe numbered 65535 is never matched. */
  predicate Matches(s: Server, seqId: uint16) {
    seqId as int + 1 == s.sequenceId
  }

  /** The counters after an accepted reply, before the learning table is told. */
  function CountReply(s: Server, sample: uint16): Server {
    var t := if s.Up() then s.(rtt := (s.rtt as int + sample) / 2)
             else s.(rtt := sample, sent := Inc16(s.sent));
    var received := Inc16(s.received);
    t.(received := received, gotLast := true, lostPings := 0, lostRate := LossRate(received, t.sent))
  }

  function Snapshot(s: Server): Server {
    s.(fwd := s.fwd.(rttHop := s.learn.rttHop, lostHop := s.learn.lostHop))
  }

  function ResetLearning(s: Server, gw: IpInfo): Server {
    s.(learn := s.learn.(rttHop := gw, lostHop := gw, rtt := s.rtt, lost := s.lostRate))
  }

  // ---- Events and runs ----

  datatype Event =
    | Ping
    | Reply(seqId: uint16, sample: uint16)
    | Offered(from: IpInfo, rtt: uint16, lost: Cost)
    | Snap
    | Reset

  function Step(s: Server, gw: IpInfo, e: Event): Server {
    match e
    case Ping => CountProbe(Check(s), gw)
    case Reply(seqId, sample) =>
      if Matches(s, seqId) then
        var t := CountReply(s, sample);
        LearnFrom(t, gw, t.rtt, t.lostRate)
      else s
    case Offered(from, rtt, lost) => LearnFrom(s, from, rtt, lost)
    case Snap => Snapshot(s)
    case Reset => ResetLearning(s, gw)
  }

  function Run(s: Server, gw: IpInfo, t: seq<Event>): Server {
    if t == [] then s else Step(Run(s, gw, t[..|t| - 1]), gw, t[|t| - 1])
  }

  lemma {:induction false} RunAppend(s: Server, gw: IpInfo, t: seq<Event>, u: seq<Event>)
    ensures Run(s, gw, t + u) == Run(Run(s, gw, t), gw, u)
  {
    if u == [] {
      assert t + u == t;
    } else {
      var n := |u| - 1;
      RunAppend(s, gw, t, u[..n]);
      assert (t + u)[..|t + u| - 1] == t + u[..n];
    }
  }

  /** The event is a reply that the server accepts. */
  predicate Accepted(s: Server, e: Event) {
    e.Reply? && Matches(s, e.seqId)
  }

  /** Measured delays stay below the value reserved for "down". */
  predicate Measurable(t: seq<Event>) {
    forall i :: 0 <= i < |t| && t[i].Reply? ==> t[i].sample < MAX16
  }

  // ---- Down detection ----

  /** Some reply has been accepted. */
  predicate Answered(s: Server, gw: IpInfo, t: seq<Event>) {
    t != [] && (Accepted(Run(s, gw, t[..|t| - 1]), t[|t| - 1]) || Answered(s, gw, t[..|t| - 1]))
  }

  /** Ping commands since the last accepted reply. */
  function PingsSince(s: Server, gw: IpInfo, t: seq<Event>): nat {
    if t == [] then 0
    else
      var u, e := t[..|t| - 1], t[|t| - 1];
      if Accepted(Run(s, gw, u), e) then 0
      else PingsSince(s, gw, u) + if e.Ping? then 1 else 0
  }

  ghost predicate AliveState(v: Server, answered: bool, p: nat) {
    if !answered then v.rtt == MAX16 && v.lostRate == Fin(1.0) && !v.gotLast
    else
      && (v.gotLast <==> p == 0)
      && (p <= 3 ==> v.rtt < MAX16 && v.lostPings == if p == 0 then 0 else p - 1)
      && (p >= 4 ==> v.rtt == MAX16 && v.lostRate == Fin(1.0))
  }

  /** A configured server is marked down (maximal RTT and loss 1) exactly when it was never answered
      or at least four ping commands followed its last accepted reply: the three that found a probe
      unanswered, and the one in between that still saw the reply. */
  lemma {:induction false} DownDetection(ip: IpInfo, gw: IpInfo, t: seq<Event>)
    requires Measurable(t)
    ensures var v, s := Run(Fresh(ip, gw), gw, t), Fresh(ip, gw);
            && (v.rtt == MAX16 <==> !Answered(s, gw, t) || PingsSince(s, gw, t) >= 4)
            && (v.rtt == MAX16 ==> v.lostRate == Fin(1.0))
            && AliveState(v, Answered(s, gw, t), PingsSince(s, gw, t))
  {
    if t != [] {
      var n, s := |t| - 1, Fresh(ip, gw);
      DownDetection(ip, gw, t[..n]);
      AliveStep(Run(s, gw, t[..n]), gw, t[n], Answered(s, gw, t[..n]), PingsSince(s, gw, t[..n]));
    }
  }

  lemma AliveStep(v: Server, gw: IpInfo, e: Event, answered: bool, p: nat)
    requires AliveState(v, answered, p) && (e.Reply? ==> e.sample < MAX16)
    ensures AliveState(Step(v, gw, e), answered || Accepted(v, e),
                       if Accepted(v, e) then 0 else p + if e.Ping? then 1 else 0)
  {
  }

  // ---- Probe accounting ----

  /** A probe: whether the path was up when it was sent, and how many replies to it were accepted. */
  datatype Probe = Probe(up: bool, replies: nat)

  function LogStep(v: Server, log: seq<Probe>, e: Event): seq<Probe> {
    if e.Ping? then log + [Probe(Check(v).Up(), 0)]
    else if Accepted(v, e) && log != [] then
      var last := log[|log| - 1];
      log[..|log| - 1] + [last.(replies := last.replies + 1)]
    else log
  }

  function Log(s: Server, gw: IpInfo, t: seq<Event>): seq<Probe> {
    if t == [] then []
    else
      var u := t[..|t| - 1];
      LogStep(Run(s, gw, u), Log(s, gw, u), t[|t| - 1])
  }

  /** Probes the counter should hold: sent while up, or sent while down and answered. */
  function Countable(log: seq<Probe>): nat {
    if log == [] then 0
    else Countable(log[..|log| - 1]) + if log[|log| - 1].up || log[|log| - 1].replies > 0 then 1 else 0
  }

  function Replies(log: seq<Probe>): nat {
    if log == [] then 0 else Replies(log[..|log| - 1]) + log[|log| - 1].replies
  }

  /** Probes sent while up that no accepted reply answers. */
  function Unanswered(log: seq<Probe>): nat {
    if log == [] then 0
    else Unanswered(log[..|log| - 1]) + if log[|log| - 1].up && log[|log| - 1].replies == 0 then 1 else 0
  }

  /** Accepted replies beyond the first to the same probe. */
  function Duplicates(log: seq<Probe>): nat {
    if log == [] then 0
    else Duplicates(log[..|log| - 1]) + if log[|log| - 1].replies > 0 then log[|log| - 1].replies - 1 else 0
  }

  lemma {:induction false} Balance(log: seq<Probe>)
    ensures Countable(log) + Duplicates(log) == Replies(log) + Unanswered(log)
  {
    if log != [] {
      Balance(log[..|log| - 1]);
    }
  }

  ghost predicate Counted(v: Server, log: seq<Probe>) {
    && v.sent == Countable(log) % 0x1_0000
    && v.received == Replies(log) % 0x1_0000
    && v.sequenceId == |log| % 0x1_0000
    && (v.Up() ==> v.lostRate == LossRate(v.received, v.sent) && Replies(log) > 0)
    && (v.Up() <==> log != [] && (log[|log| - 1].up || log[|log| - 1].replies > 0))
  }

  /** The 16-bit counters are the history's counts modulo 65536, and an up server's loss rate is the
      quotient of the counters, in every run. */
  lemma {:induction false} CountersTrackHistory(ip: IpInfo, gw: IpInfo, t: seq<Event>)
    requires Measurable(t)
    ensures Counted(Run(Fresh(ip, gw), gw, t), Log(Fresh(ip, gw), gw, t))
  {
    if t != [] {
      var n, s := |t| - 1, Fresh(ip, gw);
      CountersTrackHistory(ip, gw, t[..n]);
      CountedStep(Run(s, gw, t[..n]), gw, Log(s, gw, t[..n]), t[n]);
    }
  }

  lemma CountedStep(v: Server, gw: IpInfo, log: seq<Probe>, e: Event)
    requires Counted(v, log) && (e.Reply? ==> e.sample < MAX16)
    ensures Counted(Step(v, gw, e), LogStep(v, log, e))
  {
    if e.Ping? {
      CountedPing(v, gw, log);
    } else if Accepted(v, e) {
      CountedReply(v, gw, log, e.seqId, e.sample);
    }
  }

  lemma IncMod(n: nat)
    ensures Inc16(n % 0x1_0000) == (n + 1) % 0x1_0000
  {
  }

  lemma CountsExtend(log: seq<Probe>, p: Probe)
    ensures Countable(log + [p]) == Countable(log) + if p.up || p.replies > 0 then 1 else 0
    ensures Replies(log + [p]) == Replies(log) + p.replies
  {
  }

  lemma CountedPing(v: Server, gw: IpInfo, log: seq<Probe>)
    requires Counted(v, log)
    ensures Counted(Step(v, gw, Ping), LogStep(v, log, Ping))
  {
    hide Countable, Replies;
    CountsExtend(log, Probe(Check(v).Up(), 0));
    IncMod(Countable(log));
    IncMod(|log|);
  }

  lemma CountedReply(v: Server, gw: IpInfo, log: seq<Probe>, seqId: uint16, sample: uint16)
    requires Counted(v, log) && Matches(v, seqId) && sample < MAX16
    ensures Counted(Step(v, gw, Reply(seqId, sample)), LogStep(v, log, Reply(seqId, sample)))
  {
    hide Countable, Replies;
    var n := |log| - 1;
    assert log == log[..n] + [log[n]];
    CountsExtend(log[..n], log[n]);
    CountsExtend(log[..n], log[n].(replies := log[n].replies + 1));
    IncMod(Countable(log));
    IncMod(Replies(log));
  }

  // At most three probes in a row are counted unanswered before the path is declared down.

  function AtMost3(p: nat): nat {
    if p < 3 then p else 3
  }

  ghost predicate FewLost(log: seq<Probe>, answered: bool, p: nat) {
    if answered then Countable(log) + 3 <= 4 * Replies(log) + AtMost3(p)
    else Countable(log) == 0
  }

  lemma FewLostPing(v: Server, log: seq<Probe>, answered: bool, p: nat)
    requires AliveState(v, answered, p) && FewLost(log, answered, p)
    ensures FewLost(LogStep(v, log, Ping), answered, p + 1)
  {
    hide Countable, Replies;
    CountsExtend(log, Probe(Check(v).Up(), 0));
  }

  lemma FewLostReply(v: Server, log: seq<Probe>, e: Event, answered: bool, p: nat)
    requires Counted(v, log) && AliveState(v, answered, p) && FewLost(log, answered, p) && Accepted(v, e)
    ensures FewLost(LogStep(v, log, e), true, 0)
  {
    hide Countable, Replies;
    var n := |log| - 1;
    assert log == log[..n] + [log[n]];
    CountsExtend(log[..n], log[n]);
    CountsExtend(log[..n], log[n].(replies := log[n].replies + 1));
  }

  lemma {:induction false} FewLostAlways(ip: IpInfo, gw: IpInfo, t: seq<Event>)
    requires Measurable(t)
    ensures var s := Fresh(ip, gw); FewLost(Log(s, gw, t), Answered(s, gw, t), PingsSince(s, gw, t))
  {
    if t != [] {
      var n, s := |t| - 1, Fresh(ip, gw);
      FewLostAlways(ip, gw, t[..n]);
      CountersTrackHistory(ip, gw, t[..n]);
      DownDetection(ip, gw, t[..n]);
      hide FewLost, Counted, AliveState;
      var v, log, answered, p := Run(s, gw, t[..n]), Log(s, gw, t[..n]), Answered(s, gw, t[..n]), PingsSince(s, gw, t[..n]);
      if t[n].Ping? {
        FewLostPing(v, log, answered, p);
      } else if Accepted(v, t[n]) {
        FewLostReply(v, log, t[n], answered, p);
      }
    }
  }

  /** Down detection bounds what the counters can lose: in every run at least a quarter of the counted
      probes has been answered. */
  lemma QuarterAnswered(ip: IpInfo, gw: IpInfo, t: seq<Event>)
    requires Measurable(t)
    ensures Countable(Log(Fresh(ip, gw), gw, t)) <= 4 * Replies(Log(Fresh(ip, gw), gw, t))
  {
    FewLostAlways(ip, gw, t);
  }

  /** Exact accounting while no counter has wrapped: sent - received is the number of probes sent
      while up that went unanswered, less the duplicate replies. So the counters stay ordered exactly
      as long as duplicates do not outnumber unanswered probes. An up server's loss rate is
      1 - received/sent and never above 3/4; it is not negative exactly as long as the counters are
      ordered, so with at most one reply per request it lies in [0, 3/4]. */
  lemma ProbeAccounting(ip: IpInfo, gw: IpInfo, t: seq<Event>)
    requires Measurable(t)
    requires var log := Log(Fresh(ip, gw), gw, t); Countable(log) < 0x1_0000 && Replies(log) < 0x1_0000
    ensures Accounted(Run(Fresh(ip, gw), gw, t), Log(Fresh(ip, gw), gw, t))
  {
    CountersTrackHistory(ip, gw, t);
    QuarterAnswered(ip, gw, t);
    AccountedFromCounts(Run(Fresh(ip, gw), gw, t), Log(Fresh(ip, gw), gw, t));
  }

  ghost predicate Accounted(v: Server, log: seq<Probe>) {
    && v.sent as int - v.received == Unanswered(log) as int - Duplicates(log)
    && (v.received <= v.sent <==> Duplicates(log) <= Unanswered(log))
    && v.sent <= 4 * v.received
    && (v.Up() ==>
          && v.sent > 0 && v.lostRate == Fin(1.0 - v.received as real / v.sent as real)
          && v.lostRate.v <= 0.75 && (0.0 <= v.lostRate.v <==> Duplicates(log) <= Unanswered(log)))
  }

  lemma AccountedFromCounts(v: Server, log: seq<Probe>)
    requires Counted(v, log) && Countable(log) < 0x1_0000 && Replies(log) < 0x1_0000
    requires Countable(log) <= 4 * Replies(log)
    ensures Accounted(v, log)
  {
    hide Countable, Replies, Unanswered, Duplicates, LossRate;
    Balance(log);
    if v.Up() {
      LastCounts(log);
      LossBounds(v.received, v.sent);
    }
  }

  lemma LastCounts(log: seq<Probe>)
    requires log != [] && (log[|log| - 1].up || log[|log| - 1].replies > 0)
    ensures Countable(log) > 0
  {
  }

  lemma LossBounds(r: nat, s: nat)
    requires 0 < s <= 4 * r
    ensures LossRate(r, s) == Fin(1.0 - r as real / s as real)
    ensures LossRate(r, s).v <= 0.75 && (0.0 <= LossRate(r, s).v <==> r <= s)
  {
    var x, y := r as real, s as real;
    var q := x / y;
    assert q * y == x;
    OrderScaled(0.25, q, y);
    OrderScaled(q, 1.0, y);
  }

  lemma OrderScaled(p: real, q: real, y: real)
    requires y > 0.0
    ensures p <= q <==> p * y <= q * y
  {
    assert (q - p) * y == q * y - p * y;
  }

  /** The bound is reached: one answered probe, then three that go unanswered. */
  lemma ThreeQuartersLost(ip: IpInfo, gw: IpInfo)
    ensures var v := Run(Fresh(ip, gw), gw, [Ping] + [Reply(0, 7)] + [Ping] + [Ping] + [Ping]);
            v.Up() && v.sent == 4 && v.received == 1 && v.lostRate == Fin(0.75)
  {
    var s, u := Fresh(ip, gw), [Ping] + [Reply(0, 7)];
    RunTwo(s, gw, Ping, Reply(0, 7));
    RunLast(s, gw, u, Ping);
    RunLast(s, gw, u + [Ping], Ping);
    RunLast(s, gw, u + [Ping] + [Ping], Ping);
  }

  lemma RunLast(s: Server, gw: IpInfo, t: seq<Event>, e: Event)
    ensures Run(s, gw, t + [e]) == Step(Run(s, gw, t), gw, e)
  {
    assert (t + [e])[..|t|] == t;
  }

  lemma RunTwo(s: Server, gw: IpInfo, d: Event, e: Event)
    ensures Run(s, gw, [d] + [e]) == Step(Step(s, gw, d), gw, e)
  {
    assert [d] == [] + [d];
    RunLast(s, gw, [], d);
    RunLast(s, gw, [d], e);
  }

  /** Replies are matched by number alone: a repeated reply is counted again. */
  lemma DuplicateCounted(ip: IpInfo, gw: IpInfo)
    ensures var v := Run(Fresh(ip, gw), gw, [Ping] + [Reply(0, 7)] + [Reply(0, 7)]);
            v.sent == 1 && v.received == 2
  {
    var s := Fresh(ip, gw);
    RunAppend(s, gw, [Ping] + [Reply(0, 7)], [Reply(0, 7)]);
    RunAppend(s, gw, [Ping], [Reply(0, 7)]);
    forall v, e ensures Run(v, gw, [e]) == Step(v, gw, e) {
      assert [e][..0] == [];
    }
  }

  /** The probe numbered 65535 can never be answered: no reply carries a matching number. */
  lemma LastNumberUnmatched(s: Server, seqId: uint16)
    requires s.sequenceId == 0
    ensures !Matches(s, seqId)
  {
  }

  // ---- RTT smoothing ----

  function SampleStep(v: Server, x: seq<uint16>, e: Event): seq<uint16> {
    if e.Ping? && !Check(v).Up() then []
    else if Accepted(v, e) then (if v.Up() then x else []) + [e.sample]
    else x
  }

  /** Delays accepted since the path last came up. */
  function Samples(s: Server, gw: IpInfo, t: seq<Event>): seq<uint16> {
    if t == [] then []
    else
      var u := t[..|t| - 1];
      SampleStep(Run(s, gw, u), Samples(s, gw, u), t[|t| - 1])
  }

  /** The exact halving average: the first sample, then the mean of the average and each sample. */
  function Halving(x: seq<uint16>): real
    requires x != []
  {
    if |x| == 1 then x[0] as real else (Halving(x[..|x| - 1]) + x[|x| - 1] as real) / 2.0
  }

  ghost predicate Smoothed(v: Server, x: seq<uint16>, lo: uint16, hi: uint16) {
    && (v.Up() <==> x != [])
    && (v.Up() ==> Halving(x) - 1.0 < v.rtt as real <= Halving(x))
    && (v.Up() && (forall i :: 0 <= i < |x| ==> lo <= x[i] <= hi) ==> lo <= v.rtt <= hi)
  }

  /** The stored RTT lies in (E - 1, E] for the exact average E of the samples since the path came up:
      rounding never adds up to a millisecond. It also lies between any bounds on those samples. */
  lemma {:induction false} SmoothingBound(ip: IpInfo, gw: IpInfo, t: seq<Event>, lo: uint16, hi: uint16)
    requires Measurable(t)
    ensures Smoothed(Run(Fresh(ip, gw), gw, t), Samples(Fresh(ip, gw), gw, t), lo, hi)
  {
    if t != [] {
      var n, s := |t| - 1, Fresh(ip, gw);
      SmoothingBound(ip, gw, t[..n], lo, hi);
      SmoothedStep(Run(s, gw, t[..n]), gw, Samples(s, gw, t[..n]), t[n], lo, hi);
    }
  }

  lemma SmoothedStep(v: Server, gw: IpInfo, x: seq<uint16>, e: Event, lo: uint16, hi: uint16)
    requires Smoothed(v, x, lo, hi) && (e.Reply? ==> e.sample < MAX16)
    ensures Smoothed(Step(v, gw, e), SampleStep(v, x, e), lo, hi)
  {
    if Accepted(v, e) && v.Up() {
      var y := x + [e.sample];
      assert y[..|y| - 1] == x && y[|y| - 1] == e.sample;
      assert forall i :: 0 <= i < |x| ==> x[i] == y[i];
      HalfFloor(v.rtt, e.sample);
    }
  }

  lemma HalfFloor(a: nat, b: nat)
    ensures (a as real + b as real) / 2.0 - 0.5 <= ((a + b) / 2) as real <= (a as real + b as real) / 2.0
  {
  }

  // ---- Learning epochs ----

  /** The cell an epoch starts from and the offers made in it: a reset starts an epoch at the gateway
      with the direct cost, and an accepted reply is an offer by the gateway. */
  datatype Epoch = Epoch(start: Cell, offers: seq<Offer>) {
    function Add(o: Offer): Epoch { Epoch(start, offers + [o]) }
    function Current(): Cell { LearnAll(start, offers) }
    function Past(): seq<Offer> { History(start, offers) }
  }

  function RttEpochStep(v: Server, gw: IpInfo, ep: Epoch, e: Event): Epoch {
    match e
    case Offered(from, rtt, _) => ep.Add(Offer(from.uint, Fin(rtt as real)))
    case Reset => Epoch(Cell(gw.uint, Fin(v.rtt as real)), [])
    case Reply(_, sample) =>
      if Accepted(v, e) then ep.Add(Offer(gw.uint, Fin(CountReply(v, sample).rtt as real))) else ep
    case _ => ep
  }

  /** For loss, each ping also renews the gateway's own offer while the gateway is the stored hop. */
  function LossEpochStep(v: Server, gw: IpInfo, ep: Epoch, e: Event): Epoch {
    match e
    case Offered(from, _, lost) => ep.Add(Offer(from.uint, lost))
    case Reset => Epoch(Cell(gw.uint, v.lostRate), [])
    case Reply(_, sample) =>
      if Accepted(v, e) then ep.Add(Offer(gw.uint, CountReply(v, sample).lostRate)) else ep
    case Ping =>
      if v.learn.lostHop.uint == gw.uint then ep.Add(Offer(gw.uint, CountProbe(Check(v), gw).lostRate)) else ep
    case Snap => ep
  }

  function RttEpoch(s: Server, gw: IpInfo, t: seq<Event>): Epoch {
    if t == [] then Epoch(s.RttCell(), [])
    else
      var u := t[..|t| - 1];
      RttEpochStep(Run(s, gw, u), gw, RttEpoch(s, gw, u), t[|t| - 1])
  }

  function LossEpoch(s: Server, gw: IpInfo, t: seq<Event>): Epoch {
    if t == [] then Epoch(s.LossCell(), [])
    else
      var u := t[..|t| - 1];
      LossEpochStep(Run(s, gw, u), gw, LossEpoch(s, gw, u), t[|t| - 1])
  }

  lemma LearnAdd(ep: Epoch, o: Offer)
    ensures ep.Add(o).Current() == Learn(ep.Current(), o)
  {
  }

  /** update_learning_table works the two cells independently. */
  lemma LearnsBothCells(s: Server, from: IpInfo, rtt: uint16, lost: Cost)
    ensures LearnFrom(s, from, rtt, lost).RttCell() == Learn(s.RttCell(), Offer(from.uint, Fin(rtt as real)))
    ensures LearnFrom(s, from, rtt, lost).LossCell() == Learn(s.LossCell(), Offer(from.uint, lost))
  {
  }

  lemma CountReplyKeepsCells(s: Server, sample: uint16)
    ensures CountReply(s, sample).RttCell() == s.RttCell() && CountReply(s, sample).LossCell() == s.LossCell()
  {
  }

  lemma RttFollows(v: Server, gw: IpInfo, ep: Epoch, e: Event)
    requires v.RttCell() == ep.Current()
    ensures Step(v, gw, e).RttCell() == RttEpochStep(v, gw, ep, e).Current()
  {
    match e
    case Offered(from, rtt, lost) =>
      hide LearnFrom, Learn;
      LearnsBothCells(v, from, rtt, lost);
      LearnAdd(ep, Offer(from.uint, Fin(rtt as real)));
    case Reply(_, sample) =>
      hide LearnFrom, Learn, CountReply;
      var w := CountReply(v, sample);
      CountReplyKeepsCells(v, sample);
      LearnsBothCells(w, gw, w.rtt, w.lostRate);
      LearnAdd(ep, Offer(gw.uint, Fin(w.rtt as real)));
    case _ =>
  }

  lemma LossFollows(v: Server, gw: IpInfo, ep: Epoch, e: Event)
    requires v.LossCell() == ep.Current()
    ensures Step(v, gw, e).LossCell() == LossEpochStep(v, gw, ep, e).Current()
  {
    match e
    case Offered(from, rtt, lost) =>
      hide LearnFrom, Learn;
      LearnsBothCells(v, from, rtt, lost);
      LearnAdd(ep, Offer(from.uint, lost));
    case Reply(_, sample) =>
      hide LearnFrom, Learn, CountReply;
      var w := CountReply(v, sample);
      CountReplyKeepsCells(v, sample);
      LearnsBothCells(w, gw, w.rtt, w.lostRate);
      LearnAdd(ep, Offer(gw.uint, w.lostRate));
    case Ping => LearnAdd(ep, Offer(gw.uint, CountProbe(Check(v), gw).lostRate));
    case _ =>
  }

  /** In every run, and independently for RTT and loss, the learning table holds what the stream of
      offers of the current epoch leaves in a cell. */
  lemma {:induction false} TablesFollowEpochs(s: Server, gw: IpInfo, t: seq<Event>)
    ensures Run(s, gw, t).RttCell() == RttEpoch(s, gw, t).Current()
    ensures Run(s, gw, t).LossCell() == LossEpoch(s, gw, t).Current()
  {
    if t != [] {
      var u, e := t[..|t| - 1], t[|t| - 1];
      TablesFollowEpochs(s, gw, u);
      RttFollows(Run(s, gw, u), gw, RttEpoch(s, gw, u), e);
      LossFollows(Run(s, gw, u), gw, LossEpoch(s, gw, u), e);
    }
  }

  /** The cell holds the cheapest offer of the epoch, and its hop was the first to offer it. */
  ghost predicate Optimal(c: Cell, ep: Epoch) {
    exists k: nat :: FirstCheapest(ep.Past(), k) && ep.Past()[k] == c.AsOffer()
  }

  lemma RaiseFreeIsOptimal(c: Cell, ep: Epoch)
    requires c == ep.Current() && NoRaise(ep.Past())
    ensures Optimal(c, ep)
  {
    var k := RouteOptimality(ep.start, ep.offers);
  }

  /** Over any history, and for each cost on its own: while nobody has raised that offer in the current
      epoch, the stored cost is minimal and the stored hop was the first to offer it. */
  lemma LearnedRoutesAreOptimal(s: Server, gw: IpInfo, t: seq<Event>)
    ensures NoRaise(RttEpoch(s, gw, t).Past()) ==> Optimal(Run(s, gw, t).RttCell(), RttEpoch(s, gw, t))
    ensures NoRaise(LossEpoch(s, gw, t).Past()) ==> Optimal(Run(s, gw, t).LossCell(), LossEpoch(s, gw, t))
  {
    hide NoRaise, Optimal, LearnAll;
    TablesFollowEpochs(s, gw, t);
    if NoRaise(RttEpoch(s, gw, t).Past()) {
      RaiseFreeIsOptimal(Run(s, gw, t).RttCell(), RttEpoch(s, gw, t));
    }
    if NoRaise(LossEpoch(s, gw, t).Past()) {
      RaiseFreeIsOptimal(Run(s, gw, t).LossCell(), LossEpoch(s, gw, t));
    }
  }

  /** Whenever the cell is dearer than an offer of the epoch, its then incumbent raised that offer later. */
  ghost predicate Explained(c: Cell, ep: Epoch) {
    forall k :: 0 <= k < |ep.offers| && Less(ep.offers[k].cost, c.cost) ==>
      exists j :: k < j < |ep.offers| && IncumbentRaise(ep.start, ep.offers, j)
  }

  lemma {:induction false} RttOffersAreFinite(s: Server, gw: IpInfo, t: seq<Event>)
    ensures NoNaN(RttEpoch(s, gw, t).start, RttEpoch(s, gw, t).offers)
  {
    hide Run;
    if t != [] {
      RttOffersAreFinite(s, gw, t[..|t| - 1]);
    }
  }

  lemma OverpricedIsExplained(c: Cell, ep: Epoch)
    requires c == ep.Current() && NoNaN(ep.start, ep.offers)
    ensures Explained(c, ep)
  {
    forall k | 0 <= k < |ep.offers| && Less(ep.offers[k].cost, c.cost)
      ensures exists j :: k < j < |ep.offers| && IncumbentRaise(ep.start, ep.offers, j)
    {
      OverpricedMeansRaise(ep.start, ep.offers, k);
    }
  }

  /** Over any history, a route dearer than an offer made to it in this epoch was raised by its then
      incumbent after that offer; for loss, as long as no offer was NaN. */
  lemma OverpricedRoutesWereRaised(s: Server, gw: IpInfo, t: seq<Event>)
    ensures Explained(Run(s, gw, t).RttCell(), RttEpoch(s, gw, t))
    ensures var ep := LossEpoch(s, gw, t); NoNaN(ep.start, ep.offers) ==> Explained(Run(s, gw, t).LossCell(), ep)
  {
    hide NoNaN, Explained, LearnAll;
    TablesFollowEpochs(s, gw, t);
    RttOffersAreFinite(s, gw, t);
    OverpricedIsExplained(Run(s, gw, t).RttCell(), RttEpoch(s, gw, t));
    var ep := LossEpoch(s, gw, t);
    if NoNaN(ep.start, ep.offers) {
      OverpricedIsExplained(Run(s, gw, t).LossCell(), ep);
    }
  }

  // ---- Provenance against the direct path ----

  /** Nobody but the entry itself offers in the gateway's name. */
  predicate NoImpostor(gw: IpInfo, t: seq<Event>) {
    forall i :: 0 <= i < |t| && t[i].Offered? ==> t[i].from.uint != gw.uint
  }

  predicate StaleStep(v: Server, stale: bool, e: Event) {
    if e.Ping? && v.Up() && !Check(v).Up() then true
    else if e.Reset? || Accepted(v, e) then false
    else stale
  }

  /** The direct path was declared down and neither a reset nor an accepted reply has followed. */
  predicate Stale(s: Server, gw: IpInfo, t: seq<Event>) {
    t != [] && StaleStep(Run(s, gw, t[..|t| - 1]), Stale(s, gw, t[..|t| - 1]), t[|t| - 1])
  }

  ghost predicate Direct(v: Server, gw: IpInfo, stale: bool) {
    && (v.learn.lostHop.uint == gw.uint ==> v.learn.lost == v.lostRate)
    && (v.learn.rttHop.uint == gw.uint ==> (v.learn.rtt == v.rtt <==> !stale))
    && (stale ==> !v.Up())
  }

  lemma DirectStep(v: Server, gw: IpInfo, stale: bool, e: Event)
    requires Direct(v, gw, stale) && (e.Offered? ==> e.from.uint != gw.uint)
    ensures Direct(Step(v, gw, e), gw, StaleStep(v, stale, e))
  {
  }

  /** A gateway loss hop always carries the current direct loss. A gateway RTT hop carries the current
      direct RTT exactly when the direct path has not been declared down since. */
  lemma {:induction false} GatewayCarriesDirect(ip: IpInfo, gw: IpInfo, t: seq<Event>)
    requires NoImpostor(gw, t)
    ensures Direct(Run(Fresh(ip, gw), gw, t), gw, Stale(Fresh(ip, gw), gw, t))
  {
    if t != [] {
      var n, s := |t| - 1, Fresh(ip, gw);
      GatewayCarriesDirect(ip, gw, t[..n]);
      DirectStep(Run(s, gw, t[..n]), gw, Stale(s, gw, t[..n]), t[n]);
    }
  }

  /** A hop other than the starting one has offered in this epoch and the cell holds its latest offer. */
  ghost predicate CarriesLatest(c: Cell, start: nat, os: seq<Offer>) {
    c.hop != start ==>
      && (exists i :: 0 <= i < |os| && os[i].from == c.hop)
      && c.cost == Latest(os, c.hop, NaN)
  }

  lemma CellCarriesLatest(c: Cell, ep: Epoch)
    requires c == ep.Current()
    ensures CarriesLatest(c, ep.start.hop, ep.offers)
  {
    Provenance(ep.start, ep.offers);
    if c.hop != ep.start.hop {
      LatestIgnoresDefault(ep.offers, c.hop, ep.start.cost, NaN);
    }
  }

  /** A stored hop other than the gateway carries that peer's own latest offer of this epoch. */
  lemma PeerCarriesLatestOffer(ip: IpInfo, gw: IpInfo, t: seq<Event>)
    ensures var v, s := Run(Fresh(ip, gw), gw, t), Fresh(ip, gw);
            && CarriesLatest(v.RttCell(), gw.uint, RttEpoch(s, gw, t).offers)
            && CarriesLatest(v.LossCell(), gw.uint, LossEpoch(s, gw, t).offers)
  {
    hide CarriesLatest, LearnAll;
    var v, s := Run(Fresh(ip, gw), gw, t), Fresh(ip, gw);
    TablesFollowEpochs(s, gw, t);
    EpochsStartAtGateway(ip, gw, t);
    CellCarriesLatest(v.RttCell(), RttEpoch(s, gw, t));
    CellCarriesLatest(v.LossCell(), LossEpoch(s, gw, t));
  }

  lemma {:induction false} EpochsStartAtGateway(ip: IpInfo, gw: IpInfo, t: seq<Event>)
    ensures RttEpoch(Fresh(ip, gw), gw, t).start.hop == gw.uint
    ensures LossEpoch(Fresh(ip, gw), gw, t).start.hop == gw.uint
  {
    if t != [] {
      EpochsStartAtGateway(ip, gw, t[..|t| - 1]);
    }
  }

  lemma {:induction false} LatestIgnoresDefault(os: seq<Offer>, from: nat, a: Cost, b: Cost)
    requires exists i :: 0 <= i < |os| && os[i].from == from
    ensures Latest(os, from, a) == Latest(os, from, b)
  {
    var n := |os| - 1;
    if os[n].from != from {
      var i :| 0 <= i < |os| && os[i].from == from;
      assert os[..n][i].from == from;
      LatestIgnoresDefault(os[..n], from, a, b);
    }
  }

  /** The learning table has been given some route: an offer, or an accepted reply. */
  predicate Routed(s: Server, gw: IpInfo, t: seq<Event>) {
    t != [] && (t[|t| - 1].Offered? || Accepted(Run(s, gw, t[..|t| - 1]), t[|t| - 1]) || Routed(s, gw, t[..|t| - 1]))
  }

  /** The activity mark of the learning table: set by the first route, and for ever. */
  lemma {:induction false} ActiveOnceRouted(s: Server, gw: IpInfo, t: seq<Event>)
    ensures Run(s, gw, t).learn.active <==> s.learn.active || Routed(s, gw, t)
  {
    if t != [] {
      ActiveOnceRouted(s, gw, t[..|t| - 1]);
      ActiveStep(Run(s, gw, t[..|t| - 1]), gw, t[|t| - 1]);
    }
  }

  lemma ActiveStep(v: Server, gw: IpInfo, e: Event)
    ensures Step(v, gw, e).learn.active <==> v.learn.active || e.Offered? || Accepted(v, e)
  {
  }

  // ---- The forwarding table ----

  /** `t[k]` is the last snapshot of `t`. */
  predicate LastSnap(t: seq<Event>, k: nat) {
    k < |t| && t[k].Snap? && forall i :: k < i < |t| ==> !t[i].Snap?
  }

  lemma OthersKeepForwarding(s: Server, gw: IpInfo, e: Event)
    requires !e.Snap?
    ensures Step(s, gw, e).fwd == s.fwd
  {
  }

  /** Over any history the forwarding hops are what the learning hops were at the last snapshot. */
  lemma {:induction false} ForwardingIsLastSnap(s: Server, gw: IpInfo, t: seq<Event>, k: nat)
    requires LastSnap(t, k)
    ensures var v, w := Run(s, gw, t), Run(s, gw, t[..k]);
            v.fwd.rttHop == w.learn.rttHop && v.fwd.lostHop == w.learn.lostHop
  {
    var n := |t| - 1;
    if k < n {
      assert t[..n][..k] == t[..k];
      ForwardingIsLastSnap(s, gw, t[..n], k);
      OthersKeepForwarding(Run(s, gw, t[..n]), gw, t[n]);
    }
  }

  /** Without a snapshot they are what they were. */
  lemma {:induction false} ForwardingUntilSnap(s: Server, gw: IpInfo, t: seq<Event>)
    requires forall i :: 0 <= i < |t| ==> !t[i].Snap?
    ensures Run(s, gw, t).fwd == s.fwd
  {
    if t != [] {
      var n := |t| - 1;
      ForwardingUntilSnap(s, gw, t[..n]);
      OthersKeepForwarding(Run(s, gw, t[..n]), gw, t[n]);
    }
  }

  /** The routes in use: those learned by the last snapshot, or the first ones. */
  ghost predicate Forwards(s: Server, gw: IpInfo, t: seq<Event>, v: Server) {
    && (forall k: nat :: LastSnap(t, k) ==>
          v.fwd.rttHop == Run(s, gw, t[..k]).learn.rttHop && v.fwd.lostHop == Run(s, gw, t[..k]).learn.lostHop)
    && ((forall i :: 0 <= i < |t| ==> !t[i].Snap?) ==> v.fwd.rttHop == s.fwd.rttHop && v.fwd.lostHop == s.fwd.lostHop)
  }

  lemma ForwardingFollows(s: Server, gw: IpInfo, t: seq<Event>)
    ensures Forwards(s, gw, t, Run(s, gw, t))
  {
    hide Run;
    forall k: nat | LastSnap(t, k)
      ensures Run(s, gw, t).fwd.rttHop == Run(s, gw, t[..k]).learn.rttHop
              && Run(s, gw, t).fwd.lostHop == Run(s, gw, t[..k]).learn.lostHop
    {
      ForwardingIsLastSnap(s, gw, t, k);
    }
    if forall i :: 0 <= i < |t| ==> !t[i].Snap? {
      ForwardingUntilSnap(s, gw, t);
    }
  }

  /** A fresh destination forwards through the gateway. */
  lemma FreshForwardsToGateway(ip: IpInfo, gw: IpInfo)
    ensures Fresh(ip, gw).fwd.rttHop == gw && Fresh(ip, gw).fwd.lostHop == gw
  {
  }
}
