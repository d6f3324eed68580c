/** The byte formats of the client protocol: what the client writes, what it reads. */
module Wire {
  import opened Bytes

  // ---- Client to server ----

  const SEND_FRAME: uint32 := 1
  const CHANGE_IP: uint32 := 2
  const CHANGE_MASK: uint32 := 3
  const MAX_FRAME := 0x1_0000 - 4

  datatype Request =
    | SendFrame(data: seq<byte>, iface: uint32)
    | ChangeIp(iface: uint32, ip: uint32)
    | ChangeMask(iface: uint32, mask: uint32)

  /** realSendFrame refuses the frame before writing anything. */
  predicate Refused(r: Request) {
    r.SendFrame? && (|r.data| < 14 || |r.data| >= MAX_FRAME)
  }

  lemma RefusedExactly(data: seq<byte>, iface: uint32)
    ensures Refused(SendFrame(data, iface)) <==> |data| < 14 || |data| > 65531
  {
  }

  function FrameHeader(length: nat, iface: uint32): (h: seq<byte>)
    requires length < MAX_FRAME
    ensures |h| == 10
  {
    Be32(SEND_FRAME) + Be16(4 + length) + Be32(iface)
  }

  /** The buffers handed to sendOrReceive, in order. */
  function Chunks(r: Request): (c: seq<seq<byte>>)
    requires !Refused(r)
    ensures c != [] && forall i :: 0 <= i < |c| ==> c[i] != []
  {
    match r
    case SendFrame(data, iface) => [FrameHeader(|data|, iface), data]
    case ChangeIp(iface, ip) => [Be32(CHANGE_IP) + Be32(iface) + Be32(ip)]
    case ChangeMask(iface, mask) => [Be32(CHANGE_MASK) + Be32(iface) + Be32(mask)]
  }

  function Join(c: seq<seq<byte>>): seq<byte> {
    if c == [] then [] else c[0] + Join(c[1..])
  }

  function Message(r: Request): seq<byte>
    requires !Refused(r)
  {
    Join(Chunks(r))
  }

  /** Frame bytes the request adds to `sentBytes`. */
  function Payload(r: Request): nat {
    if r.SendFrame? then |r.data| else 0
  }

  function Messages(rs: seq<Request>): seq<byte>
    requires forall i :: 0 <= i < |rs| ==> !Refused(rs[i])
  {
    if rs == [] then [] else Messages(rs[..|rs| - 1]) + Message(rs[|rs| - 1])
  }

  function PayloadOf(rs: seq<Request>): nat {
    if rs == [] then 0 else PayloadOf(rs[..|rs| - 1]) + Payload(rs[|rs| - 1])
  }

  /** Reference reader of the server side: the length of the message at the front of `w`, or 0. */
  function FrontLength(w: seq<byte>): nat {
    if |w| < 6 then 0
    else if Get32(w, 0) == SEND_FRAME then (if Get16(w, 4) < 4 || |w| < 6 + Get16(w, 4) then 0 else 6 + Get16(w, 4))
    else if (Get32(w, 0) == CHANGE_IP || Get32(w, 0) == CHANGE_MASK) && |w| >= 12 then 12
    else 0
  }

  function Front(w: seq<byte>): Request
    requires FrontLength(w) > 0
  {
    if Get32(w, 0) == SEND_FRAME then SendFrame(w[10..6 + Get16(w, 4)], Get32(w, 6))
    else if Get32(w, 0) == CHANGE_IP then ChangeIp(Get32(w, 4), Get32(w, 8))
    else ChangeMask(Get32(w, 4), Get32(w, 8))
  }

  /** All whole messages at the front of the stream. */
  function Decode(w: seq<byte>): seq<Request>
    decreases |w|
  {
    var n := FrontLength(w);
    if n == 0 then [] else [Front(w)] + Decode(w[n..])
  }

  lemma MessageBytes(r: Request)
    requires !Refused(r)
    ensures r.SendFrame? ==> Message(r) == Be32(1) + Be16(4 + |r.data|) + Be32(r.iface) + r.data
    ensures r.ChangeIp? ==> Message(r) == Be32(2) + Be32(r.iface) + Be32(r.ip)
    ensures r.ChangeMask? ==> Message(r) == Be32(3) + Be32(r.iface) + Be32(r.mask)
    ensures |Message(r)| == (if r.SendFrame? then 10 else 12) + Payload(r)
    ensures |Message(r)| >= 12
  {
    match r
    case SendFrame(data, iface) =>
      assert Chunks(r)[1..] == [data];
      JoinOne(data);
    case _ => JoinOne(Chunks(r)[0]);
  }

  lemma JoinOne(b: seq<byte>)
    ensures Join([b]) == b
  {
  }

  /** The message at the front of a stream is read back whole, whatever follows it. */
  lemma FrontOfMessage(r: Request, rest: seq<byte>)
    requires !Refused(r)
    ensures FrontLength(Message(r) + rest) == |Message(r)| && Front(Message(r) + rest) == r
  {
    var w := Message(r) + rest;
    MessageBytes(r);
    match r
    case SendFrame(data, iface) =>
      assert w[0..4] == Be32(SEND_FRAME) && w[4..6] == Be16(4 + |data|) && w[6..10] == Be32(iface);
      Get32Inverse(SEND_FRAME, w, 0);
      Get16Inverse(4 + |data|, w, 4);
      Get32Inverse(iface, w, 6);
      assert w[10..6 + (4 + |data|)] == data;
    case ChangeIp(iface, ip) => ThreeWords(w, CHANGE_IP, iface, ip, rest);
    case ChangeMask(iface, mask) => ThreeWords(w, CHANGE_MASK, iface, mask, rest);
  }

  lemma ThreeWords(w: seq<byte>, a: uint32, b: uint32, c: uint32, rest: seq<byte>)
    requires w == Be32(a) + Be32(b) + Be32(c) + rest
    ensures Get32(w, 0) == a && Get32(w, 4) == b && Get32(w, 8) == c
  {
  }

  /** A message cut short is not mistaken for a message. */
  lemma CutMessage(r: Request, n: nat)
    requires !Refused(r) && n < |Message(r)|
    ensures FrontLength(Message(r)[..n]) == 0
  {
    var m, w := Message(r), Message(r)[..n];
    FrontOfMessage(r, []);
    assert m + [] == m;
    if n >= 6 {
      assert w[0] == m[0] && w[1] == m[1] && w[2] == m[2] && w[3] == m[3] && w[4] == m[4] && w[5] == m[5];
    }
  }

  lemma DecodeOne(r: Request, rest: seq<byte>)
    requires !Refused(r)
    ensures Decode(Message(r) + rest) == [r] + Decode(rest)
  {
    hide Message, FrontLength, Front;
    MessageBytes(r);
    FrontOfMessage(r, rest);
    assert (Message(r) + rest)[|Message(r)|..] == rest;
  }

  lemma {:induction false} DecodeMessages(rs: seq<Request>, rest: seq<byte>)
    requires forall i :: 0 <= i < |rs| ==> !Refused(rs[i])
    ensures Decode(Messages(rs) + rest) == rs + Decode(rest)
  {
    hide Message, Decode;
    if rs == [] {
      assert Messages(rs) + rest == rest;
    } else {
      var n := |rs| - 1;
      DecodeMessages(rs[..n], Message(rs[n]) + rest);
      DecodeOne(rs[n], rest);
      Reassociate(Messages(rs[..n]), Message(rs[n]), rest);
      assert rs == rs[..n] + [rs[n]];
    }
  }

  // ---- Server to client ----

  const RAW_FRAME: uint32 := 4
  const INVALID_INTERFACE: uint32 := 5
  const SOCKET_BUFFER := 1524

  datatype Notice = RawFrame(iface: uint32, data: seq<byte>) | BadInterface(text: seq<byte>)

  datatype Delivery = Delivery(data: seq<byte>, iface: uint32)

  /** What the event loop makes of the front of the stream: a message of `length` bytes with perhaps
      a frame to deliver, or a reason to stop. */
  datatype Head = Stop | Skip(length: nat) | Deliver(length: nat, frame: Delivery)

  function ReadHead(w: seq<byte>, ifaces: nat): (h: Head)
    ensures !h.Stop? ==> 6 < h.length <= |w|
  {
    if |w| < 6 then Stop
    else
      var c, size := Get32(w, 0), Get16(w, 4);
      if c == INVALID_INTERFACE then (if size < 1 || |w| < 6 + size then Stop else Skip(6 + size))
      else if c != RAW_FRAME || size < 4 || size > SOCKET_BUFFER || |w| < 6 + size then Stop
      else if Get32(w, 6) >= ifaces then Stop
      else Deliver(6 + size, Delivery(w[10..6 + size], Get32(w, 6)))
  }

  /** Everything the event loop delivers from a stream. */
  function Deliveries(w: seq<byte>, ifaces: nat): seq<Delivery>
    decreases |w|
  {
    match ReadHead(w, ifaces)
    case Stop => []
    case Skip(n) => Deliveries(w[n..], ifaces)
    case Deliver(n, d) => [d] + Deliveries(w[n..], ifaces)
  }

  /** No warning text on the way is larger than the receive buffer. */
  predicate Fits(w: seq<byte>, ifaces: nat)
    decreases |w|
  {
    && (|w| >= 6 && Get32(w, 0) == INVALID_INTERFACE ==> Get16(w, 4) <= SOCKET_BUFFER)
    && var h := ReadHead(w, ifaces);
       (!h.Stop? ==> Fits(w[h.length..], ifaces))
  }

  /** The message fits the receive buffer. */
  predicate Sized(n: Notice) {
    match n
    case RawFrame(_, data) => 4 + |data| <= SOCKET_BUFFER
    case BadInterface(text) => 1 <= |text| <= SOCKET_BUFFER
  }

  predicate WellFormedNotice(n: Notice, ifaces: nat) {
    Sized(n) && (n.RawFrame? ==> n.iface < ifaces)
  }

  function EncodeNotice(n: Notice): seq<byte>
    requires Sized(n)
  {
    match n
    case RawFrame(iface, data) => Be32(RAW_FRAME) + Be16(4 + |data|) + Be32(iface) + data
    case BadInterface(text) => Be32(INVALID_INTERFACE) + Be16(|text|) + text
  }

  function EncodeNotices(ns: seq<Notice>): seq<byte>
    requires forall i :: 0 <= i < |ns| ==> Sized(ns[i])
  {
    if ns == [] then [] else EncodeNotice(ns[0]) + EncodeNotices(ns[1..])
  }

  function Frames(ns: seq<Notice>): seq<Delivery> {
    if ns == [] then []
    else (if ns[0].RawFrame? then [Delivery(ns[0].data, ns[0].iface)] else []) + Frames(ns[1..])
  }

  lemma HeadOfNotice(n: Notice, rest: seq<byte>, ifaces: nat)
    requires WellFormedNotice(n, ifaces)
    ensures var e := EncodeNotice(n);
            && ReadHead(e + rest, ifaces) == (if n.RawFrame? then Deliver(|e|, Delivery(n.data, n.iface)) else Skip(|e|))
            && |e| > 6 && Get16(e + rest, 4) <= SOCKET_BUFFER && (e + rest)[|e|..] == rest
  {
    var w := EncodeNotice(n) + rest;
    match n
    case RawFrame(iface, data) =>
      assert w[0..4] == Be32(RAW_FRAME) && w[4..6] == Be16(4 + |data|) && w[6..10] == Be32(iface);
      Get32Inverse(RAW_FRAME, w, 0);
      Get16Inverse(4 + |data|, w, 4);
      Get32Inverse(iface, w, 6);
      assert w[10..6 + (4 + |data|)] == data;
    case BadInterface(text) =>
      assert w[0..4] == Be32(INVALID_INTERFACE) && w[4..6] == Be16(|text|);
      Get32Inverse(INVALID_INTERFACE, w, 0);
      Get16Inverse(|text|, w, 4);
  }

  /** One message of the server, whatever its type and body: what the event loop makes of it. */
  lemma HeadExactly(c: uint32, body: seq<byte>, rest: seq<byte>, ifaces: nat)
    requires |body| < 65536
    ensures var w, size := Be32(c) + Be16(|body|) + body + rest, |body|;
            && (c == 5 ==> ReadHead(w, ifaces) == if size > 0 then Skip(6 + size) else Stop)
            && (c == 4 ==> ReadHead(w, ifaces) ==
                           if 4 <= size <= 1524 && Get32(body, 0) < ifaces then
                             Deliver(6 + size, Delivery(body[4..], Get32(body, 0)))
                           else Stop)
            && (c != 4 && c != 5 ==> ReadHead(w, ifaces) == Stop)
  {
    hide Be16, Be32;
    var w := Be32(c) + Be16(|body|) + body + rest;
    assert w[0..4] == Be32(c) && w[4..6] == Be16(|body|) && w[6..6 + |body|] == body;
    hide Get16;
    Get32Inverse(c, w, 0);
    Get16Inverse(|body|, w, 4);
    if |body| >= 4 {
      LoadInside(w, 6, body);
      assert w[10..6 + |body|] == body[4..];
    }
  }

  lemma LoadInside(w: seq<byte>, at: nat, body: seq<byte>)
    requires at + |body| <= |w| && w[at..at + |body|] == body && |body| >= 4
    ensures Get32(w, at) == Get32(body, 0)
  {
    assert forall k :: 0 <= k < 4 ==> body[k] == w[at..at + |body|][k];
  }

  /** A message cut short stops the loop. */
  lemma CutNoticeStops(n: Notice, ifaces: nat, k: nat)
    requires Sized(n) && k < |EncodeNotice(n)|
    ensures ReadHead(EncodeNotice(n)[..k], ifaces) == Stop
  {
    if k >= 6 {
      var e, w := EncodeNotice(n), EncodeNotice(n)[..k];
      var size := |e| - 6;
      assert e[4..6] == Be16(size);
      Get16Inverse(size, e, 4);
      assert w[4] == e[4] && w[5] == e[5];
    }
  }

  lemma Reassociate(a: seq<byte>, b: seq<byte>, c: seq<byte>)
    ensures (a + b) + c == a + (b + c)
  {
  }

  lemma OneNotice(n: Notice, rest: seq<byte>, ifaces: nat)
    requires WellFormedNotice(n, ifaces)
    ensures var w := EncodeNotice(n) + rest;
            && Deliveries(w, ifaces)
               == (if n.RawFrame? then [Delivery(n.data, n.iface)] else []) + Deliveries(rest, ifaces)
            && (Fits(w, ifaces) <==> Fits(rest, ifaces))
  {
    hide EncodeNotice, ReadHead;
    HeadOfNotice(n, rest, ifaces);
  }

  /** The event loop recovers every well-formed message in order, up to whatever follows them. */
  lemma {:induction false} NoticesRecovered(ns: seq<Notice>, rest: seq<byte>, ifaces: nat)
    requires forall i :: 0 <= i < |ns| ==> Sized(ns[i]) && WellFormedNotice(ns[i], ifaces)
    ensures Deliveries(EncodeNotices(ns) + rest, ifaces) == Frames(ns) + Deliveries(rest, ifaces)
    ensures Fits(EncodeNotices(ns) + rest, ifaces) <==> Fits(rest, ifaces)
  {
    hide EncodeNotice, Deliveries, Fits;
    if ns == [] {
      assert EncodeNotices(ns) + rest == rest;
    } else {
      var tail := EncodeNotices(ns[1..]) + rest;
      Reassociate(EncodeNotice(ns[0]), EncodeNotices(ns[1..]), rest);
      OneNotice(ns[0], tail, ifaces);
      NoticesRecovered(ns[1..], rest, ifaces);
    }
  }
}
