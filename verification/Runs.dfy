/** Whole runs of the node: every table entry evolves as one destination fed its own events. */
module Runs {
  import opened Bytes
  import opened Learning
  import opened Destination
  import opened Advert
  import opened Frames
  import opened Overlay
  import opened Tables
  import Address

  // ---- What one step means to one entry ----

  function OffersUpTo(ip: uint32, from: IpInfo, records: seq<Record>, k: nat): seq<Event>
    requires k <= |records|
  {
    if k == 0 then []
    else
      var o := records[k - 1];
      OffersUpTo(ip, from, records, k - 1) + if o.ip == ip then [Offered(from, o.rtt, o.lost)] else []
  }

  function KindEvents(n: Node, k: Kind, delays: seq<uint16>, i: nat, ip: uint32): seq<Event>
    requires Ok(n) && Accepts(n, k, delays)
  {
    match k
    case EchoReply(from, seqId) => if i < n.configured && from == ip then [Reply(seqId, delays[i])] else []
    case Advertisement(from, _, p) => OffersUpTo(ip, Named(from), Records(p), |Records(p)|)
    case _ => []
  }

  /** The events input `a` brings to entry `i`, whose address is `ip`. */
  function Events(n: Node, a: Input, i: nat, ip: uint32): seq<Event>
    requires Ok(n) && Enabled(n, a)
  {
    match a
    case PingCommand => if i < n.configured then [Ping] else []
    case AdvertiseCommand => [Snap, Reset]
    case SendCommand(_, _) => []
    case FrameArrives(b, length, delays) => KindEvents(n, Classify(n, b, length), delays, i, ip)
  }

  lemma {:induction false} OffersAreOffers(ip: uint32, from: IpInfo, records: seq<Record>, k: nat)
    requires k <= |records|
    ensures forall e :: e in OffersUpTo(ip, from, records, k) ==> e.Offered?
  {
    if k > 0 {
      OffersAreOffers(ip, from, records, k - 1);
    }
  }

  /** Frames bring replies and offers only. */
  lemma FramesBring(n: Node, k: Kind, delays: seq<uint16>, i: nat, ip: uint32)
    requires Ok(n) && Accepts(n, k, delays)
    ensures forall e :: e in KindEvents(n, k, delays, i, ip) ==> e.Offered? || (e.Reply? && i < n.configured)
  {
    hide OffersUpTo, AdvertUpTo, Readable;
    if k.Advertisement? {
      OffersAreOffers(ip, Named(k.from), Records(k.payload), |Records(k.payload)|);
    }
  }

  lemma RunOne(s: Server, gw: IpInfo, e: Event)
    ensures Run(s, gw, [e]) == Step(s, gw, e)
  {
  }

  lemma LearnAtEntry(table: seq<Server>, ip: IpInfo, from: IpInfo, rtt: uint16, lost: Cost, i: nat)
    requires Distinct(table) && i < |table|
    ensures var r := LearnAt(table, ip, from, rtt, lost);
            && Distinct(r)
            && r[i] == (if table[i].ip.uint == ip.uint then LearnFrom(table[i], from, rtt, lost) else table[i])
  {
  }

  lemma LearnKeepsIp(s: Server, from: IpInfo, rtt: uint16, lost: Cost)
    ensures LearnFrom(s, from, rtt, lost).ip == s.ip
  {
  }

  lemma OfferStep(s: Server, gw: IpInfo, from: IpInfo, rtt: uint16, lost: Cost)
    ensures Step(s, gw, Offered(from, rtt, lost)) == LearnFrom(s, from, rtt, lost)
  {
  }

  lemma {:induction false} AdvertEntry(table: seq<Server>, gw: IpInfo, from: IpInfo, records: seq<Record>, k: nat, i: nat)
    requires Distinct(table) && i < |table| && k <= |records|
    ensures var r := AdvertUpTo(table, from, records, k);
            && Distinct(r)
            && r[i] == Run(table[i], gw, OffersUpTo(table[i].ip.uint, from, records, k))
            && r[i].ip == table[i].ip
  {
    hide Distinct, LearnAt, LearnFrom, Run, Step;
    if k == 0 {
      RunNone(table[i], gw);
    } else {
      AdvertEntry(table, gw, from, records, k - 1, i);
      var o, t := records[k - 1], AdvertUpTo(table, from, records, k - 1);
      var before := OffersUpTo(table[i].ip.uint, from, records, k - 1);
      LearnAtEntry(t, Named(o.ip), from, o.rtt, o.lost, i);
      LearnKeepsIp(t[i], from, o.rtt, o.lost);
      if o.ip == table[i].ip.uint {
        var e := Offered(from, o.rtt, o.lost);
        RunAppend(table[i], gw, before, [e]);
        RunOne(t[i], gw, e);
        OfferStep(t[i], gw, from, o.rtt, o.lost);
      } else {
        assert before + [] == before;
      }
    }
  }

  lemma EchoEntryAt(t: seq<Server>, j: nat, gw: IpInfo, ip: uint32, seqId: uint16, delay: uint16, i: nat)
    requires Distinct(t) && j < |t| && i < |t|
    ensures var r := EchoEntry(t, j, gw, ip, seqId, delay);
            && Distinct(r) && r[i].ip == t[i].ip
            && r[i] == (if i == j && t[i].ip.uint == ip then Step(t[i], gw, Reply(seqId, delay)) else t[i])
  {
    if t[j].ip.uint == ip && Matches(t[j], seqId) {
      var s := CountReply(t[j], delay);
      assert s.ip == t[j].ip;
      LearnAtEntry(t[j := s], s.ip, gw, s.rtt, s.lostRate, i);
    }
  }

  lemma {:induction false} EchoEntries(table: seq<Server>, gw: IpInfo, ip: uint32, seqId: uint16, delays: seq<uint16>, k: nat, i: nat)
    requires Distinct(table) && i < |table| && k <= |table| && k <= |delays|
    ensures var r := EchoUpTo(table, gw, ip, seqId, delays, k);
            && Distinct(r) && r[i].ip == table[i].ip
            && r[i] == (if i < k && table[i].ip.uint == ip then Step(table[i], gw, Reply(seqId, delays[i])) else table[i])
  {
    hide Distinct, EchoEntry, Step;
    if k > 0 {
      EchoEntries(table, gw, ip, seqId, delays, k - 1, i);
      EchoEntryAt(EchoUpTo(table, gw, ip, seqId, delays, k - 1), k - 1, gw, ip, seqId, delays[k - 1], i);
    }
  }

  lemma ProcessEntry(n: Node, k: Kind, delays: seq<uint16>, i: nat)
    requires WellFormed(n) && Accepts(n, k, delays) && i < |n.servers|
    ensures var r := Process(n, k, delays).0;
            && i < |r.servers| && r.servers[i].ip == n.servers[i].ip
            && r.servers[i] == Run(n.servers[i], n.gateway, KindEvents(n, k, delays, i, n.servers[i].ip.uint))
  {
    hide Step, EchoEntry, LearnAt;
    match k
    case EchoReply(ip, seqId) =>
      EchoEntries(n.servers, n.gateway, ip, seqId, delays, n.configured, i);
      if i < n.configured {
        RunOne(n.servers[i], n.gateway, Reply(seqId, delays[i]));
      }
    case Advertisement(from, _, p) =>
      AdvertEntry(n.servers, n.gateway, Named(from), Records(p), |Records(p)|, i);
    case _ =>
  }

  lemma RunSnapReset(s: Server, gw: IpInfo)
    ensures Run(s, gw, [Snap, Reset]) == ResetLearning(Snapshot(s), gw)
  {
    assert [Snap, Reset] == [Snap] + [Reset];
    RunAppend(s, gw, [Snap], [Reset]);
    RunOne(s, gw, Snap);
    RunOne(Snapshot(s), gw, Reset);
  }

  lemma CommandEntry(n: Node, a: Input, i: nat)
    requires Ok(n) && Enabled(n, a) && i < |n.servers| && !a.FrameArrives?
    ensures var r := Act(n, a).0;
            && i < |r.servers| && r.servers[i].ip == n.servers[i].ip
            && r.servers[i] == Run(n.servers[i], n.gateway, Events(n, a, i, n.servers[i].ip.uint))
  {
    hide Step, ResetLearning, Snapshot, Run, Enabled;
    var s, gw := n.servers[i], n.gateway;
    RunNone(s, gw);
    RunOne(s, gw, Ping);
    RunSnapReset(s, gw);
    EntryKeepsIp(s, gw);
  }

  lemma EntryKeepsIp(s: Server, gw: IpInfo)
    ensures Step(s, gw, Ping).ip == s.ip && ResetLearning(Snapshot(s), gw).ip == s.ip
  {
  }

  /** One step of the node is, for each entry, the run of that entry's own events. */
  lemma ActEntry(n: Node, a: Input, i: nat)
    requires WellFormed(n) && Enabled(n, a) && i < |n.servers|
    ensures var r := Act(n, a).0;
            && i < |r.servers| && r.servers[i].ip == n.servers[i].ip
            && r.servers[i] == Run(n.servers[i], n.gateway, Events(n, a, i, n.servers[i].ip.uint))
  {
    hide Process, Run, KindEvents, Classify;
    if a.FrameArrives? {
      ProcessEntry(n, Classify(n, a.buffer, a.length), a.delays, i);
    } else {
      CommandEntry(n, a, i);
    }
  }

  // ---- Whole runs ----

  /** A run: `ns[j + 1]` is the state after input `ins[j]`. */
  ghost predicate Behaviour(ns: seq<Node>, ins: seq<Input>) {
    && |ns| == |ins| + 1
    && forall j :: 0 <= j < |ins| ==> Ok(ns[j]) && Enabled(ns[j], ins[j]) && ns[j + 1] == Act(ns[j], ins[j]).0
  }

  ghost predicate SameSetup(n: Node, m: Node) {
    n.gateway == m.gateway && n.configured == m.configured && n.inside == m.inside && n.outside == m.outside
    && n.gatewayMac == m.gatewayMac
  }

  lemma ActKeepsSetup(n: Node, a: Input)
    requires Ok(n) && Enabled(n, a)
    ensures SameSetup(n, Act(n, a).0)
  {
  }

  /** Every reachable state of a run from a well-formed node is well-formed. */
  lemma {:induction false} AlwaysWellFormed(ns: seq<Node>, ins: seq<Input>, k: nat)
    requires Behaviour(ns, ins) && WellFormed(ns[0]) && k < |ns|
    ensures WellFormed(ns[k]) && SameSetup(ns[0], ns[k]) && |ns[0].servers| <= |ns[k].servers|
  {
    hide WellFormed;
    if k > 0 {
      AlwaysWellFormed(ns, ins, k - 1);
      ActKeeps(ns[k - 1], ins[k - 1]);
      ActKeepsSetup(ns[k - 1], ins[k - 1]);
      ActGrows(ns[k - 1], ins[k - 1]);
    }
  }

  lemma ActGrows(n: Node, a: Input)
    requires Ok(n) && Enabled(n, a)
    ensures |n.servers| <= |Act(n, a).0.servers|
  {
  }

  /** The events the first k inputs of a run bring to entry `i`. */
  ghost function Trace(ns: seq<Node>, ins: seq<Input>, i: nat, ip: uint32, k: nat): seq<Event>
    requires Behaviour(ns, ins) && k <= |ins|
  {
    if k == 0 then [] else Trace(ns, ins, i, ip, k - 1) + Events(ns[k - 1], ins[k - 1], i, ip)
  }

  /** The whole node refines independent destinations: in every run, the entry at `i` is exactly the
      destination machine run on the events addressed to it. */
  lemma {:induction false} EntriesAreDestinations(ns: seq<Node>, ins: seq<Input>, i: nat, k: nat)
    requires Behaviour(ns, ins) && WellFormed(ns[0]) && i < |ns[0].servers| && k <= |ins|
    ensures var s := ns[0].servers[i];
            && i < |ns[k].servers| && ns[k].servers[i].ip == s.ip
            && ns[k].servers[i] == Run(s, ns[0].gateway, Trace(ns, ins, i, s.ip.uint, k))
  {
    hide WellFormed, Act, Events, Run;
    if k == 0 {
      RunNone(ns[0].servers[i], ns[0].gateway);
    } else {
      EntriesAreDestinations(ns, ins, i, k - 1);
      AlwaysWellFormed(ns, ins, k - 1);
      ActEntry(ns[k - 1], ins[k - 1], i);
      var s := ns[0].servers[i];
      RunAppend(s, ns[0].gateway, Trace(ns, ins, i, s.ip.uint, k - 1), Events(ns[k - 1], ins[k - 1], i, s.ip.uint));
    }
  }

  lemma RunNone(s: Server, gw: IpInfo)
    ensures Run(s, gw, []) == s
  {
  }

  // ---- The destination theorems on whole nodes ----

  predicate MeasurableInputs(ins: seq<Input>) {
    forall j :: 0 <= j < |ins| && ins[j].FrameArrives? ==>
      forall i :: 0 <= i < |ins[j].delays| ==> ins[j].delays[i] < MAX16
  }

  lemma {:induction false} OffersAreMeasurable(ip: uint32, from: IpInfo, records: seq<Record>, k: nat)
    requires k <= |records|
    ensures Measurable(OffersUpTo(ip, from, records, k))
  {
    if k > 0 {
      OffersAreMeasurable(ip, from, records, k - 1);
    }
  }

  lemma MeasurableKind(n: Node, k: Kind, delays: seq<uint16>, i: nat, ip: uint32)
    requires Ok(n) && Accepts(n, k, delays) && forall j :: 0 <= j < |delays| ==> delays[j] < MAX16
    ensures Measurable(KindEvents(n, k, delays, i, ip))
  {
    hide OffersUpTo, AdvertUpTo, Readable;
    if k.Advertisement? {
      OffersAreMeasurable(ip, Named(k.from), Records(k.payload), |Records(k.payload)|);
    }
  }

  lemma MeasurableEvents(n: Node, a: Input, i: nat, ip: uint32)
    requires Ok(n) && Enabled(n, a)
    requires a.FrameArrives? ==> forall i :: 0 <= i < |a.delays| ==> a.delays[i] < MAX16
    ensures Measurable(Events(n, a, i, ip))
  {
    hide KindEvents, Classify;
    if a.FrameArrives? {
      MeasurableKind(n, Classify(n, a.buffer, a.length), a.delays, i, ip);
    }
  }

  lemma {:induction false} MeasurableTrace(ns: seq<Node>, ins: seq<Input>, i: nat, ip: uint32, k: nat)
    requires Behaviour(ns, ins) && k <= |ins| && MeasurableInputs(ins)
    ensures Measurable(Trace(ns, ins, i, ip, k))
  {
    hide Act, Events, Classify;
    if k > 0 {
      MeasurableTrace(ns, ins, i, ip, k - 1);
      MeasurableEvents(ns[k - 1], ins[k - 1], i, ip);
    }
  }

  /** What a destination that has seen the events `t` knows about its routes. */
  ghost predicate RoutesAsOffered(s: Server, g: IpInfo, t: seq<Event>, v: Server) {
    var r, l := RttEpoch(s, g, t), LossEpoch(s, g, t);
    && v.RttCell() == r.Current() && v.LossCell() == l.Current()
    && (NoRaise(r.Past()) ==> Optimal(v.RttCell(), r))
    && (NoRaise(l.Past()) ==> Optimal(v.LossCell(), l))
    && Explained(v.RttCell(), r)
    && (NoNaN(l.start, l.offers) ==> Explained(v.LossCell(), l))
    && CarriesLatest(v.RttCell(), r.start.hop, r.offers) && CarriesLatest(v.LossCell(), l.start.hop, l.offers)
    && Forwards(s, g, t, v)
  }

  lemma RoutesFollow(s: Server, g: IpInfo, t: seq<Event>)
    ensures RoutesAsOffered(s, g, t, Run(s, g, t))
  {
    hide Fresh, Run, RttEpoch, LossEpoch, NoRaise, Optimal, Explained, NoNaN, CarriesLatest, Forwards;
    TablesFollowEpochs(s, g, t);
    LearnedRoutesAreOptimal(s, g, t);
    OverpricedRoutesWereRaised(s, g, t);
    CellCarriesLatest(Run(s, g, t).RttCell(), RttEpoch(s, g, t));
    CellCarriesLatest(Run(s, g, t).LossCell(), LossEpoch(s, g, t));
    ForwardingFollows(s, g, t);
  }

  /** In every run of a freshly initialized node, each configured server detects failure after exactly
      three unanswered probes, keeps its counters equal to its probe history and, until a counter wraps,
      accounts for every probe, smooths its RTT within a millisecond of the exact average, and holds the
      routes its offers dictate: optimal without raises, overpriced only after one, and each the stored
      hop's own latest word. */
  lemma ConfiguredServers(gw: string, gatewayMac: mac, inside: Iface, outside: Iface, names: seq<string>,
                          ns: seq<Node>, ins: seq<Input>, i: nat, lo: uint16, hi: uint16)
    requires DistinctNames(names) && Behaviour(ns, ins) && ns[0] == Start(gw, gatewayMac, inside, outside, names)
    requires i < |names| && MeasurableInputs(ins)
    ensures |ns[|ins|].servers| > i
    ensures var s, g, v := ns[0].servers[i], Resolve(gw), ns[|ins|].servers[i];
            var t := Trace(ns, ins, i, s.ip.uint, |ins|);
            && v == Run(s, g, t)
            && (v.rtt == MAX16 <==> !Answered(s, g, t) || PingsSince(s, g, t) >= 4)
            && (v.rtt == MAX16 ==> v.lostRate == Fin(1.0))
            && Counted(v, Log(s, g, t))
            && (Countable(Log(s, g, t)) < 0x1_0000 && Replies(Log(s, g, t)) < 0x1_0000 ==> Accounted(v, Log(s, g, t)))
            && Smoothed(v, Samples(s, g, t), lo, hi)
            && RoutesAsOffered(s, g, t, v) && s.fwd.rttHop == g && s.fwd.lostHop == g
            && RttEpoch(s, g, t).start.hop == LossEpoch(s, g, t).start.hop == g.uint
            && (NoImpostor(g, t) ==> Direct(v, g, Stale(s, g, t)))
  {
    var ip, g := Resolve(names[i]), Resolve(gw);
    var t := Trace(ns, ins, i, ip.uint, |ins|);
    assert ns[0].servers[i] == Fresh(ip, g);
    StartWellFormed(gw, gatewayMac, inside, outside, names);
    EntriesAreDestinations(ns, ins, i, |ins|);
    MeasurableTrace(ns, ins, i, ip.uint, |ins|);
    hide *;
    DownDetection(ip, g, t);
    CountersTrackHistory(ip, g, t);
    SmoothingBound(ip, g, t, lo, hi);
    RoutesFollow(Fresh(ip, g), g, t);
    EpochsStartAtGateway(ip, g, t);
    FreshForwardsToGateway(ip, g);
    if NoImpostor(g, t) {
      GatewayCarriesDirect(ip, g, t);
    }
    if Countable(Log(Fresh(ip, g), g, t)) < 0x1_0000 && Replies(Log(Fresh(ip, g), g, t)) < 0x1_0000 {
      ProbeAccounting(ip, g, t);
    }
  }
}
