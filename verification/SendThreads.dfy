/** Any number of threads writing whole messages to one socket under one mutex, with partial sends:
    one step is one lock, one send call or one unlock. */
module SendThreads {
  import opened Bytes
  import opened Wire

  datatype Pc =
    | Idle
    | Waiting(req: Request)
    | Entered(req: Request)                                                // holds the mutex
    | Sending(req: Request, rest: seq<byte>, more: seq<seq<byte>>)         // inside sendOrReceive
    | AllSent(req: Request)                                                // before sentBytes is raised
    | Leaving                                                              // before the unlock
  {
    predicate InSection() { !Idle? && !Waiting? }
  }

  datatype Owner = Nobody | Thread(id: nat)

  /** What one call has left on the wire: its whole message, or the first n bytes before an error. */
  datatype Piece = Whole(req: Request) | Fragment(req: Request, n: nat)

  /** `pieces` lists the calls that have ended, in order; `granted` those that have taken the mutex. */
  datatype State = State(
    pcs: map<nat, Pc>, owner: Owner, wire: seq<byte>, sentBytes: nat, pieces: seq<Piece>, granted: seq<Request>)

  function At(s: State, t: nat): Pc {
    if t in s.pcs then s.pcs[t] else Idle
  }

  const START := State(map[], Nobody, [], 0, [], [])

  /** Scheduling choices; `Part` is a send call that takes n bytes, `Error` one that fails. */
  datatype Move = Call(t: nat, req: Request) | Lock(t: nat) | Begin(t: nat) | Part(t: nat, n: nat) | Error(t: nat) | Count(t: nat) | Unlock(t: nat)

  predicate CanMove(s: State, m: Move) {
    match m
    case Call(t, _) => At(s, t).Idle?
    case Lock(t) => At(s, t).Waiting? && s.owner.Nobody?
    case Begin(t) => At(s, t).Entered?
    case Part(t, n) => At(s, t).Sending? && 0 < n <= |At(s, t).rest|
    case Error(t) => At(s, t).Sending?
    case Count(t) => At(s, t).AllSent?
    case Unlock(t) => At(s, t).Leaving?
  }

  /** The next buffer, or the end of the call: sendOrReceive returns once count reaches size. */
  function NextBuffer(req: Request, rest: seq<byte>, more: seq<seq<byte>>): Pc {
    if rest != [] then Sending(req, rest, more)
    else if more != [] then Sending(req, more[0], more[1..])
    else AllSent(req)
  }

  /** The bytes of its message that a thread has put on the wire. */
  function Written(p: Pc): seq<byte> {
    match p
    case Sending(req, rest, more) =>
      if Refused(req) || |rest + Join(more)| > |Message(req)| then []
      else Message(req)[..|Message(req)| - |rest + Join(more)|]
    case AllSent(req) => if Refused(req) then [] else Message(req)
    case _ => []
  }

  function Apply(s: State, m: Move): State
    requires CanMove(s, m)
  {
    match m
    case Call(t, req) => s.(pcs := s.pcs[t := Waiting(req)])
    case Lock(t) =>
      s.(pcs := s.pcs[t := Entered(At(s, t).req)], owner := Thread(t), granted := s.granted + [At(s, t).req])
    case Begin(t) =>
      var req := At(s, t).req;
      s.(pcs := s.pcs[t := if Refused(req) then Leaving else Sending(req, Chunks(req)[0], Chunks(req)[1..])])
    case Part(t, n) =>
      var p := At(s, t);
      s.(pcs := s.pcs[t := NextBuffer(p.req, p.rest[n..], p.more)], wire := s.wire + p.rest[..n])
    case Error(t) =>
      var p := At(s, t);
      s.(pcs := s.pcs[t := Leaving], pieces := s.pieces + [Fragment(p.req, |Written(p)|)])
    case Count(t) =>
      var req := At(s, t).req;
      s.(pcs := s.pcs[t := Leaving], sentBytes := s.sentBytes + Payload(req), pieces := s.pieces + [Whole(req)])
    case Unlock(t) => s.(pcs := s.pcs[t := Idle], owner := Nobody)
  }

  ghost predicate Schedule(ss: seq<State>, ms: seq<Move>) {
    && |ss| == |ms| + 1 && ss[0] == START
    && forall k :: 0 <= k < |ms| ==> CanMove(ss[k], ms[k]) && ss[k + 1] == Apply(ss[k], ms[k])
  }

  // ---- Invariant ----

  /** The mutex is held by exactly the thread inside the section. */
  ghost predicate Exclusive(s: State) {
    && (forall t :: t in s.pcs && s.pcs[t].InSection() ==> s.owner == Thread(t))
    && (s.owner.Thread? ==> s.owner.id in s.pcs && s.pcs[s.owner.id].InSection())
  }

  function Holder(s: State): Pc {
    if s.owner.Thread? then At(s, s.owner.id) else Idle
  }

  /** The holder is on its way through its own message. */
  ghost predicate Underway(p: Pc) {
    match p
    case Sending(req, rest, more) =>
      && !Refused(req) && Written(p) + (rest + Join(more)) == Message(req)
      && rest != [] && forall i :: 0 <= i < |more| ==> more[i] != []
    case AllSent(req) => !Refused(req)
    case _ => true
  }

  predicate Sendable(rs: seq<Request>) {
    forall i :: 0 <= i < |rs| ==> !Refused(rs[i])
  }

  /** Whole messages, and fragments that are less than their message. */
  predicate Laid(ps: seq<Piece>) {
    forall i :: 0 <= i < |ps| ==> !Refused(ps[i].req) && (ps[i].Fragment? ==> ps[i].n < |Message(ps[i].req)|)
  }

  function PieceBytes(p: Piece): seq<byte>
    requires Laid([p])
  {
    assert [p][0] == p;
    if p.Whole? then Message(p.req) else Message(p.req)[..p.n]
  }

  function OnWire(ps: seq<Piece>): seq<byte>
    requires Laid(ps)
  {
    if ps == [] then [] else OnWire(ps[..|ps| - 1]) + PieceBytes(ps[|ps| - 1])
  }

  function Requests(ps: seq<Piece>): (rs: seq<Request>)
    ensures |rs| == |ps| && forall i :: 0 <= i < |ps| ==> rs[i] == ps[i].req
  {
    seq(|ps|, i requires 0 <= i < |ps| => ps[i].req)
  }

  /** Requests whose call has succeeded. */
  function Done(ps: seq<Piece>): (rs: seq<Request>)
    ensures Laid(ps) ==> Sendable(rs)
  {
    if ps == [] then [] else Done(ps[..|ps| - 1]) + if ps[|ps| - 1].Whole? then [ps[|ps| - 1].req] else []
  }

  /** Bytes that failed calls have left on the wire. */
  function Torn(ps: seq<Piece>): nat {
    if ps == [] then 0 else Torn(ps[..|ps| - 1]) + if ps[|ps| - 1].Fragment? then ps[|ps| - 1].n else 0
  }

  /** Whether or not a send has failed: the wire is what the ended calls left, in the order the mutex was
      granted, then what its holder has written so far. */
  ghost predicate Placed(s: State) {
    && Laid(s.pieces) && Underway(Holder(s))
    && s.wire == OnWire(s.pieces) + Written(Holder(s))
    && Accepted(s.granted) == Requests(s.pieces) + Pending(Holder(s))
  }

  /** Requests of the list that are not refused. */
  function Accepted(rs: seq<Request>): seq<Request> {
    if rs == [] then []
    else Accepted(rs[..|rs| - 1]) + if Refused(rs[|rs| - 1]) then [] else [rs[|rs| - 1]]
  }

  /** The holder's request, if it is granted and not yet counted. */
  function Pending(p: Pc): seq<Request> {
    match p
    case Entered(req) => if Refused(req) then [] else [req]
    case Sending(req, _, _) => [req]
    case AllSent(req) => [req]
    case _ => []
  }

  ghost predicate Invariant(s: State) {
    && Exclusive(s)
    && s.sentBytes == PayloadOf(Done(s.pieces))
    && Placed(s)
  }

  lemma ExclusiveStep(s: State, m: Move)
    requires Exclusive(s) && CanMove(s, m)
    ensures Exclusive(Apply(s, m))
    ensures !m.Call? && !m.Lock? ==> s.owner == Thread(m.t) && Holder(s) == At(s, m.t)
  {
  }

  lemma AcceptedNext(rs: seq<Request>, r: Request)
    ensures Accepted(rs + [r]) == Accepted(rs) + if Refused(r) then [] else [r]
  {
  }

  lemma MessagesNext(rs: seq<Request>, r: Request)
    requires Sendable(rs) && !Refused(r)
    ensures Sendable(rs + [r]) && Messages(rs + [r]) == Messages(rs) + Message(r)
  {
    assert (rs + [r])[..|rs|] == rs;
  }

  lemma PiecesNext(ps: seq<Piece>, p: Piece)
    ensures Done(ps + [p]) == Done(ps) + if p.Whole? then [p.req] else []
    ensures Requests(ps + [p]) == Requests(ps) + [p.req]
    ensures Laid(ps) && Laid([p]) ==> Laid(ps + [p]) && OnWire(ps + [p]) == OnWire(ps) + PieceBytes(p)
  {
    assert (ps + [p])[..|ps|] == ps;
    assert [p][0] == p;
  }

  lemma PayloadNext(rs: seq<Request>, r: Request)
    ensures PayloadOf(rs + [r]) == PayloadOf(rs) + Payload(r)
  {
  }

  lemma LockKeeps(s: State, t: nat)
    requires Exclusive(s) && Placed(s) && CanMove(s, Lock(t))
    ensures Placed(Apply(s, Lock(t)))
  {
    hide OnWire, Laid;
    AcceptedNext(s.granted, At(s, t).req);
    assert Requests(s.pieces) + [] == Requests(s.pieces);
  }

  lemma BeginKeeps(s: State, t: nat)
    requires Exclusive(s) && Placed(s) && CanMove(s, Begin(t))
    ensures Placed(Apply(s, Begin(t)))
  {
    hide OnWire, Laid, Accepted, Exclusive;
    ExclusiveStep(s, Begin(t));
    var req := At(s, t).req;
    if !Refused(req) {
      assert Chunks(req) == [Chunks(req)[0]] + Chunks(req)[1..];
    }
  }

  /** A send call that takes n bytes moves them from the rest of the message to its written part. */
  lemma WrittenGrows(p: Pc, n: nat)
    requires p.Sending? && Underway(p) && 0 < n <= |p.rest|
    ensures var q := NextBuffer(p.req, p.rest[n..], p.more);
            Underway(q) && Written(q) == Written(p) + p.rest[..n] && Pending(q) == Pending(p)
  {
    hide Message, Refused;
    var rest, more, m := p.rest[n..], p.more, Message(p.req);
    var cut := Written(p) + p.rest[..n];
    assert p.rest == p.rest[..n] + rest;
    assert cut + (rest + Join(more)) == m;
    assert cut == m[..|m| - |rest + Join(more)|];
    if rest == [] {
      if more == [] {
        assert cut + (rest + Join([])) == cut;
      } else {
        assert rest + Join(more) == more[0] + Join(more[1..]);
      }
    }
  }

  lemma PartKeeps(s: State, t: nat, n: nat)
    requires Exclusive(s) && Placed(s) && CanMove(s, Part(t, n))
    ensures Placed(Apply(s, Part(t, n)))
  {
    hide OnWire, Laid, Accepted, Exclusive, Underway, Written, Pending, NextBuffer;
    ExclusiveStep(s, Part(t, n));
    WrittenGrows(At(s, t), n);
    Reassociate(OnWire(s.pieces), Written(At(s, t)), At(s, t).rest[..n]);
  }

  /** A call that ends leaves its piece. */
  lemma EndKeeps(s: State, m: Move)
    requires Exclusive(s) && Placed(s) && CanMove(s, m) && (m.Count? || m.Error?)
    ensures Placed(Apply(s, m))
  {
    hide OnWire, Accepted, Exclusive, Message, Requests;
    ExclusiveStep(s, m);
    var p := At(s, m.t);
    var piece := if m.Count? then Whole(p.req) else Fragment(p.req, |Written(p)|);
    PiecesNext(s.pieces, piece);
    assert piece == [piece][0];
    assert Written(p) == PieceBytes(piece);
    assert s.wire + [] == s.wire;
    assert Requests(s.pieces) + [p.req] + [] == Requests(s.pieces) + [p.req];
  }

  lemma OthersKeep(s: State, m: Move)
    requires Exclusive(s) && Placed(s) && CanMove(s, m) && (m.Call? || m.Unlock?)
    ensures Placed(Apply(s, m))
  {
    hide OnWire, Accepted;
    ExclusiveStep(s, m);
  }

  lemma PlacedStep(s: State, m: Move)
    requires Exclusive(s) && Placed(s) && CanMove(s, m)
    ensures Placed(Apply(s, m))
  {
    hide Placed, Exclusive, Apply;
    match m
    case Lock(t) => LockKeeps(s, t);
    case Begin(t) => BeginKeeps(s, t);
    case Part(t, n) => PartKeeps(s, t, n);
    case Count(_) => EndKeeps(s, m);
    case Error(_) => EndKeeps(s, m);
    case _ => OthersKeep(s, m);
  }

  lemma InvariantStep(s: State, m: Move)
    requires Invariant(s) && CanMove(s, m)
    ensures Invariant(Apply(s, m))
  {
    hide Placed, PayloadOf, Done;
    ExclusiveStep(s, m);
    PlacedStep(s, m);
    if m.Count? {
      PiecesNext(s.pieces, Whole(At(s, m.t).req));
      PayloadNext(Done(s.pieces), At(s, m.t).req);
    } else if m.Error? {
      PiecesNext(s.pieces, Fragment(At(s, m.t).req, |Written(At(s, m.t))|));
      assert Done(s.pieces) + [] == Done(s.pieces);
    }
  }

  /** The invariant holds in every state of every schedule. */
  lemma {:induction false} AlwaysInvariant(ss: seq<State>, ms: seq<Move>, k: nat)
    requires Schedule(ss, ms) && k < |ss|
    ensures Invariant(ss[k])
  {
    hide Apply;
    if k > 0 {
      hide Invariant;
      AlwaysInvariant(ss, ms, k - 1);
      InvariantStep(ss[k - 1], ms[k - 1]);
    }
  }

  /** Under every interleaving and every pattern of partial sends and errors: the wire is, call by call in
      the order the threads took the mutex, whole messages and the fragments of failed calls, then a
      prefix of the message of the current holder; `sentBytes` is the payload of the whole ones. */
  lemma WireInLockOrder(ss: seq<State>, ms: seq<Move>, k: nat)
    requires Schedule(ss, ms) && k < |ss|
    ensures var s := ss[k];
            && s.sentBytes == PayloadOf(Done(s.pieces))
            && Laid(s.pieces) && s.wire == OnWire(s.pieces) + Written(Holder(s))
            && Accepted(s.granted) == Requests(s.pieces) + Pending(Holder(s))
            && (Written(Holder(s)) != [] ==>
                  && |Pending(Holder(s))| == 1 && !Refused(Pending(Holder(s))[0])
                  && Written(Holder(s)) <= Message(Pending(Holder(s))[0]))
  {
    AlwaysInvariant(ss, ms, k);
  }

  // ---- When the framing survives ----

  lemma {:induction false} TornBytes(ps: seq<Piece>)
    requires Laid(ps)
    ensures |OnWire(ps)| == |Messages(Done(ps))| + Torn(ps)
    ensures Torn(ps) == 0 ==> OnWire(ps) == Messages(Done(ps))
  {
    hide Message;
    if ps != [] {
      var n := |ps| - 1;
      TornBytes(ps[..n]);
      if ps[n].Whole? {
        MessagesNext(Done(ps[..n]), ps[n].req);
      } else {
        assert Done(ps) == Done(ps[..n]);
        assert ps[n].n == 0 ==> OnWire(ps) == OnWire(ps[..n]) + [];
      }
    }
  }

  /** Bytes of their messages that the failing send calls of a schedule found already written. */
  ghost function LostBytes(ss: seq<State>, ms: seq<Move>, k: nat): nat
    requires Schedule(ss, ms) && k <= |ms|
  {
    if k == 0 then 0
    else LostBytes(ss, ms, k - 1) + if ms[k - 1].Error? then |Written(At(ss[k - 1], ms[k - 1].t))| else 0
  }

  lemma {:induction false} LostIsTorn(ss: seq<State>, ms: seq<Move>, k: nat)
    requires Schedule(ss, ms) && k <= |ms|
    ensures LostBytes(ss, ms, k) == Torn(ss[k].pieces)
  {
    hide Written;
    if k > 0 {
      LostIsTorn(ss, ms, k - 1);
      var s, m := ss[k - 1], ms[k - 1];
      assert CanMove(s, m) && ss[k] == Apply(s, m);
      if m.Error? || m.Count? {
        assert ss[k].pieces[..|s.pieces|] == s.pieces;
      }
    }
  }

  /** The wire is whole messages, those of the completed requests in lock order, and a prefix of the
      holder's, if and only if no send call has failed with part of its message written. */
  lemma WireIsWholeMessages(ss: seq<State>, ms: seq<Move>, k: nat)
    requires Schedule(ss, ms) && k <= |ms|
    ensures var s := ss[k];
            Laid(s.pieces) && (s.wire == Messages(Done(s.pieces)) + Written(Holder(s)) <==> LostBytes(ss, ms, k) == 0)
  {
    AlwaysInvariant(ss, ms, k);
    LostIsTorn(ss, ms, k);
    TornBytes(ss[k].pieces);
  }

  /** No byte has been written behind the first fragment, if there is one; `cut` is the holder's part. */
  predicate Unburied(ps: seq<Piece>, cut: seq<byte>) {
    || Torn(ps) == 0
    || (cut == [] && ps[|ps| - 1].Fragment?
        && (Torn(ps[..|ps| - 1]) == 0 || (ps[|ps| - 1].n == 0 && Unburied(ps[..|ps| - 1], cut))))
  }

  /** As long as nothing is written behind a fragment, the reader at the other end recovers exactly the
      completed requests, in lock order, plus the holder's own once all of it is on the wire, and
      mistakes no partial message for a whole one. */
  lemma ReaderRecovers(ss: seq<State>, ms: seq<Move>, k: nat)
    requires Schedule(ss, ms) && k < |ss| && Unburied(ss[k].pieces, Written(Holder(ss[k])))
    ensures var s := ss[k];
            Decode(s.wire) == Done(s.pieces) + if Holder(s).AllSent? then [Holder(s).req] else []
  {
    hide Decode, Schedule, Message;
    AlwaysInvariant(ss, ms, k);
    var s := ss[k];
    var done, cut := Done(s.pieces), Written(Holder(s));
    assert done + [] == done;
    if Torn(s.pieces) == 0 {
      TornBytes(s.pieces);
      DecodeMessages(done, cut);
      DecodeWritten(Holder(s));
    } else {
      var tail := LoneTail(s.pieces);
      assert s.wire == Messages(done) + tail by { assert OnWire(s.pieces) + [] == OnWire(s.pieces); }
      DecodeMessages(done, tail);
      assert !Holder(s).AllSent? by { if Holder(s).AllSent? { MessageBytes(Holder(s).req); } }
    }
  }

  /** What an unburied fragment leaves behind the whole messages. */
  lemma {:induction false} LoneTail(ps: seq<Piece>) returns (tail: seq<byte>)
    requires Laid(ps) && Torn(ps) > 0 && Unburied(ps, [])
    ensures OnWire(ps) == Messages(Done(ps)) + tail && Decode(tail) == []
  {
    hide Message, Decode;
    var n := |ps| - 1;
    assert Done(ps) == Done(ps[..n]);
    if Torn(ps[..n]) == 0 {
      TornBytes(ps[..n]);
      tail := PieceBytes(ps[n]);
      DecodeFragment(ps[n]);
    } else {
      tail := LoneTail(ps[..n]);
      assert PieceBytes(ps[n]) == [];
      assert OnWire(ps) == OnWire(ps[..n]) + [];
    }
  }

  lemma DecodeFragment(p: Piece)
    requires p.Fragment? && Laid([p])
    ensures Decode(PieceBytes(p)) == []
  {
    assert [p][0] == p;
    CutMessage(p.req, p.n);
  }

  lemma DecodeWritten(p: Pc)
    requires Underway(p)
    ensures Decode(Written(p)) == if p.AllSent? then [p.req] else []
  {
    match p
    case Sending(req, rest, more) =>
      CutMessage(req, |Written(p)|);
    case AllSent(req) =>
      FrontOfMessage(req, []);
      assert Message(req) + [] == Message(req) && Message(req)[|Message(req)|..] == [];
      MessageBytes(req);
    case _ =>
  }

  // ---- After a send error ----

  ghost predicate Reachable(s: State) {
    exists ss: seq<State>, ms: seq<Move> :: Schedule(ss, ms) && ss[|ms|] == s
  }

  lemma Reach(s: State, m: Move) returns (r: State)
    requires Reachable(s) && CanMove(s, m)
    ensures Reachable(r) && r == Apply(s, m)
  {
    var ss: seq<State>, ms: seq<Move> :| Schedule(ss, ms) && ss[|ms|] == s;
    r := Apply(s, m);
    assert Schedule(ss + [r], ms + [m]);
    assert (ss + [r])[|ms + [m]|] == r;
  }

  /** A free mutex and an idle thread: the thread can get as far as its first send call. */
  lemma StartSending(s: State, t: nat, req: Request) returns (r: State)
    requires Reachable(s) && At(s, t).Idle? && s.owner.Nobody? && !Refused(req)
    ensures Reachable(r) && At(r, t) == Sending(req, Chunks(req)[0], Chunks(req)[1..])
    ensures r.wire == s.wire && r.pieces == s.pieces
    ensures forall u :: u != t ==> At(r, u) == At(s, u)
  {
    hide Reachable;
    r := Reach(s, Call(t, req));
    r := Reach(r, Lock(t));
    r := Reach(r, Begin(t));
  }

  lemma FirstPart(req: Request, n: nat)
    requires !Refused(req) && n <= |Chunks(req)[0]|
    ensures |Written(Sending(req, Chunks(req)[0][n..], Chunks(req)[1..]))| == n
  {
    var first, more := Chunks(req)[0], Chunks(req)[1..];
    assert Message(req) == first + Join(more);
    assert |first[n..] + Join(more)| == |Message(req)| - n;
  }

  /** A call that fails after `n` bytes of its first buffer. */
  lemma ReachCut(req: Request, n: nat) returns (s: State)
    requires !Refused(req) && 0 < n < |Chunks(req)[0]|
    ensures Reachable(s) && s.wire == Chunks(req)[0][..n] && s.owner.Nobody? && At(s, 1).Idle?
    ensures s.pieces == [Fragment(req, n)]
  {
    assert Schedule([START], []) && [START][0] == START;
    hide Reachable, Chunks, Message, Refused, Written;
    var first, more := Chunks(req)[0], Chunks(req)[1..];
    s := StartSending(START, 0, req);
    assert At(s, 1) == At(START, 1);
    s := Reach(s, Part(0, n));
    assert At(s, 0) == Sending(req, first[n..], more);
    FirstPart(req, n);
    s := Reach(s, Error(0));
    s := Reach(s, Unlock(0));
  }

  /** The condition is needed: a message written behind a fragment can be lost with it. */
  lemma ErrorBreaksFraming() returns (s: State)
    ensures Reachable(s) && s.pieces == [Fragment(ChangeIp(0, 7), 1), Whole(ChangeIp(0, 9))] && Decode(s.wire) == []
  {
    hide Reachable, Written;
    s := ReachCut(ChangeIp(0, 7), 1);
    assert s.wire == [0];
    var m := Chunks(ChangeIp(0, 9))[0];
    s := StartSending(s, 1, ChangeIp(0, 9));
    assert m[..12] == m && m[12..] == [];
    s := Reach(s, Part(1, 12));
    s := Reach(s, Count(1));
    assert s.wire == [0] + m;
  }

  /** But not always: when the message behind a fragment repeats the fragment, the reader cannot tell them
      apart and recovers exactly what was completed. */
  lemma LuckyFragment() returns (s: State)
    ensures Reachable(s) && !Unburied(s.pieces, Written(Holder(s))) && Decode(s.wire) == Done(s.pieces) != []
  {
    hide Reachable, Written, Decode;
    var req := ChangeIp(2, 2);
    s := ReachCut(req, 4);
    var m, two: seq<byte> := Chunks(req)[0], [0, 0, 0, 2];
    assert s.wire == two;
    s := StartSending(s, 1, req);
    assert m[..12] == m && m[12..] == [];
    s := Reach(s, Part(1, 12));
    s := Reach(s, Count(1));
    assert s.wire == m + two;
    MessageBytes(req);
    DecodeOne(req, two);
    ShortIsNothing(two);
    LuckyPieces(s.pieces, req);
  }

  lemma ShortIsNothing(w: seq<byte>)
    requires |w| < 6
    ensures Decode(w) == []
  {
  }

  lemma LuckyPieces(ps: seq<Piece>, req: Request)
    requires ps == [Fragment(req, 4), Whole(req)]
    ensures Done(ps) == [req] && Torn(ps) == 4
  {
    var first := [Fragment(req, 4)];
    assert ps[..1] == first && first[..0] == [];
    assert Done(first) == [] && Torn(first) == 4;
    PiecesNext(first, Whole(req));
    assert ps == first + [Whole(req)];
  }
}
