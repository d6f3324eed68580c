/** What an advertisement does to the server table: known servers learn, unknown ones are added. */
module Discovery {
  import opened Bytes
  import opened Learning
  import opened Destination
  import opened Advert
  import opened Frames
  import opened Overlay
  import opened Tables
  import opened Runs
  import opened Relay
  import Address

  // ---- Which servers are new ----

  predicate Knows(table: seq<Server>, ip: uint32) {
    exists i :: 0 <= i < |table| && table[i].ip.uint == ip
  }

  /** Addresses named by the first k records and not in the table, each once, in order of first mention. */
  function NewIps(table: seq<Server>, rs: seq<Record>, k: nat): seq<uint32>
    requires k <= |rs|
  {
    if k == 0 then []
    else
      var u, ip := NewIps(table, rs, k - 1), rs[k - 1].ip;
      if Knows(table, ip) || ip in u then u else u + [ip]
  }

  predicate Names(rs: seq<Record>, k: nat, ip: uint32)
    requires k <= |rs|
  {
    exists j :: 0 <= j < k && rs[j].ip == ip
  }

  lemma {:induction false} NewIpsExact(table: seq<Server>, rs: seq<Record>, k: nat)
    requires k <= |rs|
    ensures forall ip: uint32 :: ip in NewIps(table, rs, k) <==> Names(rs, k, ip) && !Knows(table, ip)
    ensures forall x, y :: 0 <= x < y < |NewIps(table, rs, k)| ==> NewIps(table, rs, k)[x] != NewIps(table, rs, k)[y]
  {
    if k > 0 {
      NewIpsExact(table, rs, k - 1);
      var u, v, last := NewIps(table, rs, k - 1), NewIps(table, rs, k), rs[k - 1].ip;
      forall ip: uint32
        ensures ip in v <==> Names(rs, k, ip) && !Knows(table, ip)
      {
        assert Names(rs, k, ip) <==> Names(rs, k - 1, ip) || ip == last;
      }
    }
  }

  /** Of two new addresses the one that stands first was mentioned first. */
  lemma {:induction false} NewIpsInOrder(table: seq<Server>, rs: seq<Record>, k: nat, x: nat, y: nat)
    requires k <= |rs| && x < y < |NewIps(table, rs, k)|
    ensures exists j :: 0 <= j < k && rs[j].ip == NewIps(table, rs, k)[x] && !Names(rs, j, NewIps(table, rs, k)[y])
  {
    var u := NewIps(table, rs, k - 1);
    NewIpsExact(table, rs, k - 1);
    if y < |u| {
      NewIpsInOrder(table, rs, k - 1, x, y);
      var j :| 0 <= j < k - 1 && rs[j].ip == u[x] && !Names(rs, j, u[y]);
      assert rs[j].ip == NewIps(table, rs, k)[x];
    } else {
      assert u[x] in u;
      var j :| 0 <= j < k - 1 && rs[j].ip == u[x];
      assert NewIps(table, rs, k)[y] == rs[k - 1].ip && rs[k - 1].ip !in u;
      assert Names(rs, j, rs[k - 1].ip) ==> Names(rs, k - 1, rs[k - 1].ip);
    }
  }

  // ---- What each server is offered ----

  function RttOffers(rs: seq<Record>, k: nat, ip: uint32, from: uint32): seq<Offer>
    requires k <= |rs|
  {
    if k == 0 then []
    else RttOffers(rs, k - 1, ip, from) + if rs[k - 1].ip == ip then [Offer(from, Fin(rs[k - 1].rtt as real))] else []
  }

  function LossOffers(rs: seq<Record>, k: nat, ip: uint32, from: uint32): seq<Offer>
    requires k <= |rs|
  {
    if k == 0 then []
    else LossOffers(rs, k - 1, ip, from) + if rs[k - 1].ip == ip then [Offer(from, rs[k - 1].lost)] else []
  }

  /** A discovered server before its first offer: never probed, down, no next hop. */
  function NewEntry(ip: uint32): Server {
    var zero := IpInfo(0, "");
    Server(IpInfo(ip, Address.Print(ip)), Fin(1.0), 0, 0, 65535, 0, 0, false,
           Routing(zero, zero, 0, Fin(0.0), false), Routing(zero, zero, 65535, Fin(1.0), false))
  }

  /** `v` is `s` after the offers of the first k records: only its learning table has changed, each cell by
      the records that name it, as the destination machine does. */
  ghost predicate Taught(v: Server, s: Server, gw: IpInfo, from: IpInfo, rs: seq<Record>, k: nat)
    requires k <= |rs|
  {
    && v == s.(learn := v.learn)
    && v.RttCell() == LearnAll(s.RttCell(), RttOffers(rs, k, s.ip.uint, from.uint))
    && v.LossCell() == LearnAll(s.LossCell(), LossOffers(rs, k, s.ip.uint, from.uint))
    && v == Run(s, gw, OffersUpTo(s.ip.uint, from, rs, k))
  }

  /** The servers the receiver knows or hears of, the old ones first. */
  function Heard(table: seq<Server>, rs: seq<Record>, k: nat): (r: seq<Server>)
    requires k <= |rs|
    ensures |r| == |table| + |NewIps(table, rs, k)|
  {
    table + seq(|NewIps(table, rs, k)|, m requires 0 <= m < |NewIps(table, rs, k)| => NewEntry(NewIps(table, rs, k)[m]))
  }

  ghost predicate AllTaught(r: seq<Server>, h: seq<Server>, gw: IpInfo, from: IpInfo, rs: seq<Record>, k: nat)
    requires k <= |rs|
  {
    |r| == |h| && forall i :: 0 <= i < |h| ==> Taught(r[i], h[i], gw, from, rs, k)
  }

  lemma LearnAllNext(c: Cell, os: seq<Offer>, o: Offer)
    ensures LearnAll(c, os + [o]) == Learn(LearnAll(c, os), o)
  {
    assert (os + [o])[..|os|] == os;
  }

  /** A record teaches the server it names and no other. */
  lemma TaughtNext(v: Server, s: Server, gw: IpInfo, from: IpInfo, rs: seq<Record>, k: nat)
    requires k < |rs| && Taught(v, s, gw, from, rs, k)
    ensures Taught(if rs[k].ip == s.ip.uint then LearnFrom(v, from, rs[k].rtt, rs[k].lost) else v, s, gw, from, rs, k + 1)
  {
    hide LearnAll, Learn, Run, Step;
    var o, ip := rs[k], s.ip.uint;
    var t := OffersUpTo(ip, from, rs, k);
    if o.ip == ip {
      LearnsBothCells(v, from, o.rtt, o.lost);
      LearnAllNext(s.RttCell(), RttOffers(rs, k, ip, from.uint), Offer(from.uint, Fin(o.rtt as real)));
      LearnAllNext(s.LossCell(), LossOffers(rs, k, ip, from.uint), Offer(from.uint, o.lost));
      RunLast(s, gw, t, Offered(from, o.rtt, o.lost));
      OfferStep(v, gw, from, o.rtt, o.lost);
    } else {
      assert t + [] == t;
      assert RttOffers(rs, k, ip, from.uint) + [] == RttOffers(rs, k, ip, from.uint);
      assert LossOffers(rs, k, ip, from.uint) + [] == LossOffers(rs, k, ip, from.uint);
    }
  }

  lemma {:induction false} UnnamedIsNotOffered(rs: seq<Record>, k: nat, ip: uint32, from: IpInfo)
    requires k <= |rs| && !Names(rs, k, ip)
    ensures RttOffers(rs, k, ip, from.uint) == [] && LossOffers(rs, k, ip, from.uint) == []
    ensures OffersUpTo(ip, from, rs, k) == []
  {
    if k > 0 {
      assert Names(rs, k - 1, ip) ==> Names(rs, k, ip);
      UnnamedIsNotOffered(rs, k - 1, ip, from);
    }
  }

  lemma NewEntryUntaught(ip: uint32, gw: IpInfo, from: IpInfo, rs: seq<Record>, k: nat)
    requires k <= |rs| && !Names(rs, k, ip)
    ensures Taught(NewEntry(ip), NewEntry(ip), gw, from, rs, k)
  {
    UnnamedIsNotOffered(rs, k, ip, from);
    RunNone(NewEntry(ip), gw);
  }

  lemma HeardNext(table: seq<Server>, rs: seq<Record>, k: nat)
    requires k < |rs|
    ensures var h, ip := Heard(table, rs, k), rs[k].ip;
            Heard(table, rs, k + 1) == if Knows(h, ip) then h else h + [NewEntry(ip)]
    ensures !Knows(Heard(table, rs, k), rs[k].ip) ==> !Names(rs, k, rs[k].ip)
  {
    hide NewEntry;
    var h, u, ip := Heard(table, rs, k), NewIps(table, rs, k), rs[k].ip;
    KnowsHeard(table, rs, k, ip);
    NewIpsExact(table, rs, k);
    if !Knows(h, ip) {
      assert NewIps(table, rs, k + 1) == u + [ip];
      assert Heard(table, rs, k + 1) == h + [NewEntry(ip)];
    }
  }

  lemma KnowsHeard(table: seq<Server>, rs: seq<Record>, k: nat, ip: uint32)
    requires k <= |rs|
    ensures Knows(Heard(table, rs, k), ip) <==> Knows(table, ip) || ip in NewIps(table, rs, k)
  {
    hide NewIps, Address.Print;
    var h, u := Heard(table, rs, k), NewIps(table, rs, k);
    if Knows(table, ip) {
      var i :| 0 <= i < |table| && table[i].ip.uint == ip;
      assert h[i].ip.uint == ip;
    }
    if ip in u {
      var m :| 0 <= m < |u| && u[m] == ip;
      assert h[|table| + m] == NewEntry(ip);
    }
    if Knows(h, ip) {
      var i :| 0 <= i < |h| && h[i].ip.uint == ip;
      if i >= |table| {
        assert h[i] == NewEntry(u[i - |table|]);
      }
    }
  }

  /** One record, one step of the table. */
  lemma RecordTeaches(t: seq<Server>, h: seq<Server>, h': seq<Server>, gw: IpInfo, from: IpInfo, rs: seq<Record>, k: nat)
    requires k < |rs| && Distinct(t) && AllTaught(t, h, gw, from, rs, k)
    requires h' == if Knows(h, rs[k].ip) then h else h + [NewEntry(rs[k].ip)]
    requires !Knows(h, rs[k].ip) ==> !Names(rs, k, rs[k].ip)
    ensures AllTaught(LearnAt(t, Named(rs[k].ip), from, rs[k].rtt, rs[k].lost), h', gw, from, rs, k + 1)
  {
    hide LearnAll, Learn, Run, OffersUpTo, RttOffers, LossOffers, LearnFrom;
    var o := rs[k];
    var q, r := Find(t, o.ip), LearnAt(t, Named(o.ip), from, o.rtt, o.lost);
    assert forall i :: 0 <= i < |t| ==> t[i].ip == h[i].ip by { SameAddresses(t, h, gw, from, rs, k); }
    assert q == -1 <==> !Knows(h, o.ip);
    forall i | 0 <= i < |t|
      ensures Taught(r[i], h[i], gw, from, rs, k + 1)
    {
      TaughtNext(t[i], h[i], gw, from, rs, k);
    }
    if q == -1 {
      NewEntryUntaught(o.ip, gw, from, rs, k);
      TaughtNext(NewEntry(o.ip), NewEntry(o.ip), gw, from, rs, k);
    }
  }

  lemma SameAddresses(t: seq<Server>, h: seq<Server>, gw: IpInfo, from: IpInfo, rs: seq<Record>, k: nat)
    requires k <= |rs| && AllTaught(t, h, gw, from, rs, k)
    ensures forall i :: 0 <= i < |t| ==> t[i].ip == h[i].ip
  {
    hide LearnAll, Run, OffersUpTo, RttOffers, LossOffers;
  }

  lemma LearnKeepsDistinct(t: seq<Server>, ip: IpInfo, from: IpInfo, rtt: uint16, lost: Cost)
    requires Distinct(t)
    ensures Distinct(LearnAt(t, ip, from, rtt, lost))
  {
  }

  lemma {:induction false} RecordsTeach(table: seq<Server>, gw: IpInfo, from: IpInfo, rs: seq<Record>, k: nat)
    requires k <= |rs| && Distinct(table)
    ensures Distinct(AdvertUpTo(table, from, rs, k))
    ensures AllTaught(AdvertUpTo(table, from, rs, k), Heard(table, rs, k), gw, from, rs, k)
  {
    hide Distinct, LearnAt, Heard, AllTaught, NewIps, Knows, Names, Named, NewEntry;
    if k == 0 {
      NothingHeard(table, gw, from, rs);
    } else {
      RecordsTeach(table, gw, from, rs, k - 1);
      var t, o := AdvertUpTo(table, from, rs, k - 1), rs[k - 1];
      HeardNext(table, rs, k - 1);
      RecordTeaches(t, Heard(table, rs, k - 1), Heard(table, rs, k), gw, from, rs, k - 1);
      LearnKeepsDistinct(t, Named(o.ip), from, o.rtt, o.lost);
    }
  }

  lemma NothingHeard(table: seq<Server>, gw: IpInfo, from: IpInfo, rs: seq<Record>)
    ensures Heard(table, rs, 0) == table && AllTaught(table, table, gw, from, rs, 0)
  {
  }

  // ---- Over whole steps and runs ----

  /** After an accepted advertisement the table is the old servers, then the new addresses in order of first
      mention; every old and new server has learned the records that name it, and nothing else of it has
      changed. The sender's MAC is stored and nothing is sent. */
  lemma AdvertTeaches(n: Node, from: uint32, smac: mac, p: seq<byte>, delays: seq<uint16>)
    requires WellFormed(n) && Ok(n) && Accepts(n, Advertisement(from, smac, p), delays)
    ensures var r, rs := Process(n, Advertisement(from, smac, p), delays), Records(p);
            && AllTaught(r.0.servers, Heard(n.servers, rs, |rs|), n.gateway, IpInfo(from, Address.Print(from)), rs, |rs|)
            && r.0 == n.(servers := r.0.servers, ipToMac := n.ipToMac[from := smac]) && r.1 == []
  {
    hide AllTaught, Heard, AdvertUpTo, Records;
    RecordsTeach(n.servers, n.gateway, Named(from), Records(p), |Records(p)|);
  }

  /** Only an advertisement adds a server: the entry is new to the table and has learned exactly the records
      that name it. */
  lemma DiscoveredBy(n: Node, a: Input, i: nat)
    requires WellFormed(n) && Ok(n) && Enabled(n, a) && |n.servers| <= i < |Act(n, a).0.servers|
    ensures var v := Act(n, a).0.servers[i];
            && v.ip == IpInfo(v.ip.uint, Address.Print(v.ip.uint)) && !Knows(n.servers, v.ip.uint)
            && v == Run(NewEntry(v.ip.uint), n.gateway, Events(n, a, i, v.ip.uint))
    ensures n.configured <= i
  {
    hide Classify, NewEntry, Run, OffersUpTo, AdvertUpTo, EchoUpTo, Records, Heard, AllTaught, NewIps;
    assert a.FrameArrives?;
    var k := Classify(n, a.buffer, a.length);
    assert k.Advertisement?;
    var rs := Records(k.payload);
    AdvertTeaches(n, k.from, k.smac, k.payload, a.delays);
    NewIsDiscovered(n.servers, Act(n, a).0.servers, n.gateway, Named(k.from), rs, i);
  }

  lemma NewIsDiscovered(table: seq<Server>, r: seq<Server>, gw: IpInfo, from: IpInfo, rs: seq<Record>, i: nat)
    requires AllTaught(r, Heard(table, rs, |rs|), gw, from, rs, |rs|) && |table| <= i < |r|
    ensures var ip := r[i].ip.uint;
            && r[i].ip == IpInfo(ip, Address.Print(ip)) && !Knows(table, ip)
            && r[i] == Run(NewEntry(ip), gw, OffersUpTo(ip, from, rs, |rs|))
  {
    hide LearnAll, Run, OffersUpTo, RttOffers, LossOffers;
    var u := NewIps(table, rs, |rs|);
    NewIpsExact(table, rs, |rs|);
    var ip := u[i - |table|];
    assert ip in u;
    assert Heard(table, rs, |rs|)[i] == NewEntry(ip);
  }

  lemma {:induction false} NeverProbed(s: Server, gw: IpInfo, t: seq<Event>)
    requires forall e :: e in t ==> !e.Ping? && !e.Reply?
    ensures var v := Run(s, gw, t); v == s.(learn := v.learn, fwd := v.fwd)
  {
    if t != [] {
      NeverProbed(s, gw, t[..|t| - 1]);
    }
  }

  lemma NoProbesFor(n: Node, a: Input, i: nat, ip: uint32)
    requires Ok(n) && Enabled(n, a) && n.configured <= i
    ensures forall e :: e in Events(n, a, i, ip) ==> !e.Ping? && !e.Reply?
  {
    hide KindEvents, Classify;
    if a.FrameArrives? {
      FramesBring(n, Classify(n, a.buffer, a.length), a.delays, i, ip);
    }
  }

  lemma {:induction false} NoProbesInTrace(ns: seq<Node>, ins: seq<Input>, i: nat, ip: uint32, k: nat)
    requires Behaviour(ns, ins) && WellFormed(ns[0]) && k <= |ins| && ns[0].configured <= i
    ensures forall e :: e in Trace(ns, ins, i, ip, k) ==> !e.Ping? && !e.Reply?
  {
    hide WellFormed, Act, Events, Enabled, Ok;
    if k > 0 {
      NoProbesInTrace(ns, ins, i, ip, k - 1);
      AlwaysWellFormed(ns, ins, k - 1);
      NoProbesFor(ns[k - 1], ins[k - 1], i, ip);
    }
  }

  /** The events a server discovered by input `d` of the run has seen: that advertisement, then the rest. */
  ghost function TraceSince(ns: seq<Node>, ins: seq<Input>, d: nat, i: nat, ip: uint32): seq<Event>
    requires Behaviour(ns, ins) && d < |ins|
  {
    Events(ns[d], ins[d], i, ip) + Trace(ns[d + 1..], ins[d + 1..], i, ip, |ins| - d - 1)
  }

  /** In every run, an entry that input `d` adds is the destination machine of a discovered server run on the
      events addressed to it since: it is never probed and stays down, and its routes are as offered. */
  lemma DiscoveredServers(ns: seq<Node>, ins: seq<Input>, d: nat, i: nat)
    requires Behaviour(ns, ins) && WellFormed(ns[0]) && d < |ins| && |ns[d].servers| <= i < |ns[d + 1].servers|
    ensures |ns[|ins|].servers| > i && !Knows(ns[d].servers, ns[|ins|].servers[i].ip.uint)
    ensures var v, g := ns[|ins|].servers[i], ns[0].gateway;
            var s, t := NewEntry(v.ip.uint), TraceSince(ns, ins, d, i, v.ip.uint);
            && v == Run(s, g, t)
            && v == s.(learn := v.learn, fwd := v.fwd)
            && RoutesAsOffered(s, g, t, v)
            && RttEpoch(s, g, t).start.hop in {0, g.uint} && LossEpoch(s, g, t).start.hop in {0, g.uint}
  {
    hide WellFormed, Act, Events, Enabled, Ok, NewEntry, RoutesAsOffered, RttEpoch, LossEpoch, Run, Knows;
    var ms, jns := ns[d + 1..], ins[d + 1..];
    assert Behaviour(ms, jns);
    AlwaysWellFormed(ns, ins, d);
    AlwaysWellFormed(ns, ins, d + 1);
    DiscoveredBy(ns[d], ins[d], i);
    EntriesAreDestinations(ms, jns, i, |jns|);
    var w, g := ns[d + 1].servers[i], ns[0].gateway;
    var ip := w.ip.uint;
    assert ms[|jns|] == ns[|ins|];
    RunAppend(NewEntry(ip), g, Events(ns[d], ins[d], i, ip), Trace(ms, jns, i, ip, |jns|));
    NoProbesFor(ns[d], ins[d], i, ip);
    NoProbesInTrace(ms, jns, i, ip, |jns|);
    var t := TraceSince(ns, ins, d, i, ip);
    NeverProbed(NewEntry(ip), g, t);
    RoutesFollow(NewEntry(ip), g, t);
    NewEpochs(ip, g, t);
  }

  lemma {:induction false} NewEpochs(ip: uint32, g: IpInfo, t: seq<Event>)
    ensures RttEpoch(NewEntry(ip), g, t).start.hop in {0, g.uint} && LossEpoch(NewEntry(ip), g, t).start.hop in {0, g.uint}
  {
    hide Run;
    if t != [] {
      NewEpochs(ip, g, t[..|t| - 1]);
    }
  }
}
