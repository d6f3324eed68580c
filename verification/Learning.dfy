/** One learning cell: a next hop and the cost it is believed to offer, fed by a stream of offers. */
module Learning {

  /** A cost as a C++ double can hold it after a division: a counter of zero probes sent gives NaN or
      minus infinity. */
  datatype Cost = NaN | NegInf | Fin(v: real)

  /** The `<` of doubles. */
  predicate Less(a: Cost, b: Cost) {
    match (a, b)
    case (NaN, _) => false
    case (_, NaN) => false
    case (_, NegInf) => false
    case (NegInf, Fin(_)) => true
    case (Fin(x), Fin(y)) => x < y
  }

  /** 1 - received / sent in double arithmetic with exact quotients. */
  function LossRate(received: nat, sent: nat): Cost {
    if sent == 0 then (if received == 0 then NaN else NegInf)
    else Fin(1.0 - received as real / sent as real)
  }

  datatype Offer = Offer(from: nat, cost: Cost)

  /** The hop and cost currently stored. */
  datatype Cell = Cell(hop: nat, cost: Cost) {
    function AsOffer(): Offer { Offer(hop, cost) }
  }

  /** One half of update_learning_table: an incumbent always rewrites, anybody else must be cheaper. */
  function Learn(c: Cell, o: Offer): Cell {
    if o.from == c.hop || Less(o.cost, c.cost) then Cell(o.from, o.cost) else c
  }

  function LearnAll(c: Cell, os: seq<Offer>): Cell {
    if os == [] then c else Learn(LearnAll(c, os[..|os| - 1]), os[|os| - 1])
  }

  lemma {:induction false} LearnAppend(c: Cell, u: seq<Offer>, v: seq<Offer>)
    ensures LearnAll(c, u + v) == LearnAll(LearnAll(c, u), v)
  {
    if v == [] {
      assert u + v == u;
    } else {
      var n := |v| - 1;
      LearnAppend(c, u, v[..n]);
      assert (u + v)[..|u + v| - 1] == u + v[..n];
    }
  }

  // ---- Optimality ----

  /** The starting cell counts as the first offer. */
  function History(c: Cell, os: seq<Offer>): seq<Offer> {
    [c.AsOffer()] + os
  }

  /** No neighbour raises its earlier offer, and no offer is NaN. */
  predicate NoRaise(h: seq<Offer>) {
    && (forall i :: 0 <= i < |h| ==> !h[i].cost.NaN?)
    && (forall i, j :: 0 <= i < j < |h| && h[i].from == h[j].from ==> !Less(h[i].cost, h[j].cost))
  }

  /** `h[k]` is the first cheapest offer of `h`. */
  predicate FirstCheapest(h: seq<Offer>, k: nat) {
    && k < |h|
    && (forall j :: 0 <= j < |h| ==> !Less(h[j].cost, h[k].cost))
    && (forall j :: 0 <= j < k ==> Less(h[k].cost, h[j].cost))
  }

  /** While nobody raises an offer, the stored cost is the minimum of the starting cost and all
      offers. At index `k` the minimum was offered first; the stored hop is the one that offered it. */
  lemma {:induction false} RouteOptimality(c: Cell, os: seq<Offer>) returns (k: nat)
    requires NoRaise(History(c, os))
    ensures FirstCheapest(History(c, os), k)
    ensures LearnAll(c, os).AsOffer() == History(c, os)[k]
  {
    if os == [] {
      k := 0;
    } else {
      var n := |os| - 1;
      var h, p := History(c, os), History(c, os[..n]);
      assert h == p + [os[n]];
      assert forall i :: 0 <= i < |p| ==> p[i] == h[i];
      assert h[n + 1] == os[n];
      k := RouteOptimality(c, os[..n]);
      if Less(os[n].cost, h[k].cost) {
        k := n + 1;
      }
    }
  }

  /** The first cheapest offer is unique, so the previous lemma determines hop and cost. */
  lemma FirstCheapestUnique(h: seq<Offer>, j: nat, k: nat)
    requires FirstCheapest(h, j) && FirstCheapest(h, k)
    ensures j == k
  {
    assert !Less(h[k].cost, h[j].cost) && !Less(h[j].cost, h[k].cost);
  }

  // ---- Why a stored cost can be too high ----

  /** Offer `j` is a raise by the hop then stored. */
  predicate IncumbentRaise(c: Cell, os: seq<Offer>, j: nat) {
    j < |os| && var before := LearnAll(c, os[..j]); os[j].from == before.hop && Less(before.cost, os[j].cost)
  }

  predicate NoNaN(c: Cell, os: seq<Offer>) {
    !c.cost.NaN? && forall i :: 0 <= i < |os| ==> !os[i].cost.NaN?
  }

  lemma {:induction false} NeverNaN(c: Cell, os: seq<Offer>)
    requires NoNaN(c, os)
    ensures !LearnAll(c, os).cost.NaN?
  {
    if os != [] {
      NeverNaN(c, os[..|os| - 1]);
    }
  }

  /** A stored cost above an offer once made means that an incumbent raised its offer after it. */
  lemma {:induction false} OverpricedMeansRaise(c: Cell, os: seq<Offer>, k: nat)
    requires NoNaN(c, os) && k < |os|
    requires Less(os[k].cost, LearnAll(c, os).cost)
    ensures exists j :: k < j < |os| && IncumbentRaise(c, os, j)
  {
    var n := |os| - 1;
    var before := LearnAll(c, os[..n]);
    NeverNaN(c, os[..n]);
    if k < n {
      assert os[..n][k] == os[k];
      if Less(os[k].cost, before.cost) {
        OverpricedMeansRaise(c, os[..n], k);
        var j :| k < j < n && IncumbentRaise(c, os[..n], j);
        assert os[..n][..j] == os[..j];
        assert IncumbentRaise(c, os, j);
      } else {
        assert IncumbentRaise(c, os, n);
      }
    }
  }

  /** An incumbent that offers NaN keeps the cell against every other neighbour. */
  lemma {:induction false} NaNSticks(c: Cell, os: seq<Offer>)
    requires c.cost.NaN? && forall i :: 0 <= i < |os| ==> os[i].from != c.hop
    ensures LearnAll(c, os) == c
  {
    if os != [] {
      NaNSticks(c, os[..|os| - 1]);
    }
  }

  /** An offer from counters with nothing sent: with nothing received either it is NaN, and only the
      incumbent can make it; otherwise it beats every finite cost and nothing beats it. */
  lemma NothingSentOffers(c: Cell, from: nat, received: nat, cost: Cost)
    ensures from != c.hop ==> Learn(c, Offer(from, LossRate(0, 0))) == c
    ensures received > 0 && c.cost.Fin? ==> Learn(c, Offer(from, LossRate(received, 0))).hop == from
    ensures received > 0 ==> !Less(cost, LossRate(received, 0))
  {
  }

  // ---- Provenance ----

  /** The last offer `from` made in `os`, or `none`. */
  function Latest(os: seq<Offer>, from: nat, none: Cost): Cost {
    if os == [] then none
    else if os[|os| - 1].from == from then os[|os| - 1].cost
    else Latest(os[..|os| - 1], from, none)
  }

  /** The stored cost is always the stored hop's own latest offer; a hop that never made one is the
      starting hop at its starting cost. */
  lemma {:induction false} Provenance(c: Cell, os: seq<Offer>)
    ensures var e := LearnAll(c, os);
            e.cost == Latest(os, e.hop, c.cost) && (e.hop == c.hop || exists i :: 0 <= i < |os| && os[i].from == e.hop)
  {
    if os != [] {
      var n := |os| - 1;
      Provenance(c, os[..n]);
      var e := LearnAll(c, os[..n]);
      if e.hop != c.hop {
        var i :| 0 <= i < n && os[..n][i].from == e.hop;
        assert os[i].from == e.hop;
      }
    }
  }
}
