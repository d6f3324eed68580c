/** One client connection: the partial-transfer loop, message framing and the event loop. */
module Transport {
  import opened Bytes
  import opened Wire

  /** Frame bytes in a list of deliveries. */
  function Volume(ds: seq<Delivery>): nat {
    if ds == [] then 0 else Volume(ds[..|ds| - 1]) + |ds[|ds| - 1].data|
  }

  lemma VolumeNext(ds: seq<Delivery>, d: Delivery)
    ensures Volume(ds + [d]) == Volume(ds) + |d.data|
  {
  }

  /** A stream of frames holds their bytes and ten more for each. */
  lemma {:induction false} StreamVolume(ns: seq<Notice>)
    requires forall i :: 0 <= i < |ns| ==> Sized(ns[i]) && ns[i].RawFrame?
    ensures |Frames(ns)| == |ns| && |EncodeNotices(ns)| == Volume(Frames(ns)) + 10 * |ns|
  {
    if ns != [] {
      StreamVolume(ns[1..]);
      VolumeCons(Delivery(ns[0].data, ns[0].iface), Frames(ns[1..]));
    }
  }

  lemma {:induction false} VolumeCons(d: Delivery, ds: seq<Delivery>)
    ensures Volume([d] + ds) == |d.data| + Volume(ds)
  {
    if ds == [] {
      assert [d] + ds == [] + [d];
    } else {
      VolumeCons(d, ds[..|ds| - 1]);
      assert ([d] + ds)[..|ds|] == [d] + ds[..|ds| - 1];
    }
  }

  /** A 32-bit load into an int. */
  function AsSigned(x: uint32): int {
    if x < 0x8000_0000 then x else x - 0x1_0000_0000
  }

  /** The stream after its first n bytes. */
  function Past(w: seq<byte>, n: nat): seq<byte>
    requires n <= |w|
  {
    w[n..]
  }

  lemma PastPast(w: seq<byte>, m: nat, n: nat)
    requires m + n <= |w|
    ensures Past(Past(w, m), n) == Past(w, m + n) && Past(w, m)[..n] == w[m..m + n]
  {
  }

  /** `incoming` is what the peer has sent and recv has not yet handed over, `outgoing` what send has
      taken; `delivered` lists the calls of processFrame. `failed` is raised when a socket call fails
      other than by running out of input. */
  class Connection {
    var incoming: seq<byte>
    var outgoing: seq<byte>
    var failed: bool
    var sentBytes: nat
    var receivedBytes: nat
    var delivered: seq<Delivery>
    const buffer: array<byte>

    constructor (input: seq<byte>)
      ensures incoming == input && outgoing == [] && delivered == [] && !failed
      ensures sentBytes == receivedBytes == 0 && buffer.Length == SOCKET_BUFFER && fresh(buffer)
    {
      incoming, outgoing, failed, sentBytes, receivedBytes, delivered := input, [], false, 0, 0, [];
      buffer := new byte[SOCKET_BUFFER];
    }

    /** recv: at least one byte if any is asked for and none missing, at most `size`, or an error. */
    method Recv(buf: array<byte>, off: nat, size: nat) returns (count: int)
      requires off + size <= buf.Length
      modifies this`incoming, this`failed, buf
      ensures 0 <= count ==>
                && count <= size && count <= |old(incoming)| && (size > 0 ==> count > 0)
                && failed == old(failed) && incoming == Past(old(incoming), count)
                && buf[..] == Splice(old(buf[..]), off, old(incoming)[..count])
      ensures count < 0 ==>
                incoming == old(incoming) && buf[..] == old(buf[..]) && (failed || (incoming == [] && size > 0))
    {
      var most := if size < |incoming| then size else |incoming|;
      if size == 0 {
        count := 0;
      } else if most == 0 {
        count := -1;
      } else if * {
        count, failed := -1, true;
      } else {
        count :| 1 <= count <= most;
        Put(buf, off, incoming[..count]);
        incoming := Past(incoming, count);
      }
    }

    /** send: at least one byte if any is offered, at most `size`, or an error. */
    method Send(buf: array<byte>, off: nat, size: nat) returns (count: int)
      requires off + size <= buf.Length
      modifies this`outgoing, this`failed
      ensures 0 <= count ==>
                && count <= size && (size > 0 ==> count > 0) && failed == old(failed)
                && outgoing == old(outgoing) + buf[off..off + count]
      ensures count < 0 ==> outgoing == old(outgoing) && failed
    {
      if * {
        count, failed := -1, true;
      } else if size == 0 {
        count := 0;
      } else {
        count :| 1 <= count <= size;
        outgoing := outgoing + buf[off..off + count];
      }
    }

    /** sendOrReceive for sending: the whole buffer, or after an error a part of it. */
    method SendAll(buf: array<byte>, size: nat) returns (ok: bool)
      requires size <= buf.Length
      modifies this`outgoing, this`failed
      ensures ok ==> outgoing == old(outgoing) + buf[..size] && failed == old(failed)
      ensures !ok ==> failed && old(outgoing) <= outgoing <= old(outgoing) + buf[..size]
    {
      var left, off, count := size, 0, 0;
      while true
        invariant 0 <= count <= left && off + left == size
        invariant failed == old(failed)
        invariant outgoing == old(outgoing) + buf[..off + count]
        decreases left - count
      {
        left, off := left - count, off + count;
        ghost var was := outgoing;
        count := Send(buf, off, left);
        if count < 0 {
          return false;
        }
        assert buf[..off] + buf[off..off + count] == buf[..off + count];
        if count >= left {
          break;
        }
      }
      return true;
    }

    /** sendOrReceive for receiving: exactly the first `size` bytes of the stream fill the front of the
        buffer, however recv cuts them. */
    method ReceiveAll(buf: array<byte>, size: nat) returns (ok: bool)
      requires size <= buf.Length
      modifies this`incoming, this`failed, buf
      ensures ok ==>
                && size <= |old(incoming)| && incoming == Past(old(incoming), size) && failed == old(failed)
                && buf[..] == Splice(old(buf[..]), 0, old(incoming)[..size])
      ensures !ok ==> failed || |old(incoming)| < size
    {
      var left, off, count := size, 0, 0;
      ghost var w := incoming;
      while true
        invariant 0 <= count <= left && off + left == size
        invariant off + count <= |w| && incoming == Past(w, off + count)
        invariant failed == old(failed)
        invariant buf[..] == Splice(old(buf[..]), 0, w[..off + count])
        decreases left - count
      {
        left, off := left - count, off + count;
        ghost var before := buf[..];
        count := Recv(buf, off, left);
        if count < 0 {
          return false;
        }
        PastPast(w, off, count);
        SpliceMore(old(buf[..]), w, off, count);
        if count >= left {
          break;
        }
      }
      return true;
    }

    /** realSendFrame. */
    method RealSendFrame(data: array<byte>, iface: uint32) returns (ok: bool)
      modifies this`outgoing, this`failed, this`sentBytes
      ensures var r := SendFrame(data[..], iface);
              && (Refused(r) ==> !ok && outgoing == old(outgoing) && failed == old(failed))
              && (ok ==> !Refused(r) && outgoing == old(outgoing) + Message(r) && failed == old(failed))
              && (!ok && !Refused(r) ==> failed && old(outgoing) <= outgoing <= old(outgoing) + Message(r))
              && sentBytes == old(sentBytes) + if ok then Payload(r) else 0
    {
      hide Message, Be16, Be32;
      ghost var r := SendFrame(data[..], iface);
      if data.Length < 14 || data.Length >= MAX_FRAME {
        return false;
      }
      var head := new byte[10];
      Put(head, 0, Be32(SEND_FRAME));
      Put(head, 4, Be16(4 + data.Length));
      Put(head, 6, Be32(iface));
      assert head[..] == FrameHeader(data.Length, iface);
      MessageBytes(r);
      ok := SendAll(head, 10);
      assert head[..10] == head[..];
      if !ok {
        return false;
      }
      ok := SendAll(data, data.Length);
      assert data[..data.Length] == data[..];
      if !ok {
        return false;
      }
      sentBytes := sentBytes + data.Length;
    }

    /** realNotifyChangeOfIPAddress. */
    method RealNotifyChangeOfIPAddress(ip: uint32, iface: uint32) returns (ok: bool)
      modifies this`outgoing, this`failed
      ensures ok ==> outgoing == old(outgoing) + Message(ChangeIp(iface, ip)) && failed == old(failed)
      ensures !ok ==> failed && old(outgoing) <= outgoing <= old(outgoing) + Message(ChangeIp(iface, ip))
    {
      MessageBytes(ChangeIp(iface, ip));
      ok := Notify(CHANGE_IP, iface, ip);
    }

    /** realNotifyChangeOfNetmask. */
    method RealNotifyChangeOfNetmask(mask: uint32, iface: uint32) returns (ok: bool)
      modifies this`outgoing, this`failed
      ensures ok ==> outgoing == old(outgoing) + Message(ChangeMask(iface, mask)) && failed == old(failed)
      ensures !ok ==> failed && old(outgoing) <= outgoing <= old(outgoing) + Message(ChangeMask(iface, mask))
    {
      MessageBytes(ChangeMask(iface, mask));
      ok := Notify(CHANGE_MASK, iface, mask);
    }

    method Notify(command: uint32, iface: uint32, value: uint32) returns (ok: bool)
      modifies this`outgoing, this`failed
      ensures ok ==> outgoing == old(outgoing) + (Be32(command) + Be32(iface) + Be32(value)) && failed == old(failed)
      ensures !ok ==> failed && old(outgoing) <= outgoing <= old(outgoing) + (Be32(command) + Be32(iface) + Be32(value))
    {
      var buf := new byte[12];
      Put(buf, 0, Be32(command));
      Put(buf, 4, Be32(iface));
      Put(buf, 8, Be32(value));
      assert buf[..12] == Be32(command) + Be32(iface) + Be32(value);
      ok := SendAll(buf, 12);
    }

    /** simulationEventLoop, for a machine with `ifaces` interfaces: it hands over every frame of the
        stream up to the first message that ends it, in order and whole, however the stream is cut up;
        after a failing recv, only some of the first of them. */
    method SimulationEventLoop(ifaces: nat)
      requires buffer.Length == SOCKET_BUFFER && !failed && ifaces < 0x8000_0000
      requires Fits(incoming, ifaces)
      modifies this`incoming, this`failed, this`receivedBytes, this`delivered, buffer
      ensures old(delivered) <= delivered <= old(delivered) + Deliveries(old(incoming), ifaces)
      ensures !failed ==> delivered == old(delivered) + Deliveries(old(incoming), ifaces)
      ensures receivedBytes + Volume(old(delivered)) == old(receivedBytes) + Volume(delivered)
    {
      hide Deliveries, Fits, Volume, Get16, Get32, Splice;
      ghost var all := old(delivered) + Deliveries(incoming, ifaces);
      while true
        invariant !failed && Fits(incoming, ifaces)
        invariant old(delivered) <= delivered
        invariant delivered + Deliveries(incoming, ifaces) == all
        invariant receivedBytes + Volume(old(delivered)) == old(receivedBytes) + Volume(delivered)
        decreases |incoming|
      {
        ghost var w := incoming;
        NextMessage(w, ifaces);
        var ok := ReceiveAll(buffer, 6);
        if !ok {
          break;
        }
        var c, size := Get32(buffer[..], 0), Get16(buffer[..], 4);
        HeaderLoads(buffer[..], w);
        if c == INVALID_INTERFACE {
          if size < 1 {
            break;
          }
          ok := ReceiveAll(buffer, size);
          if !ok {
            break;
          }
          PastPast(w, 6, size);
          continue;
        }
        if c != RAW_FRAME || size < 4 || size > SOCKET_BUFFER {
          break;
        }
        ok := ReceiveAll(buffer, size);
        if !ok {
          break;
        }
        BodyLoads(buffer[..], w, size);
        var index := AsSigned(Get32(buffer[..], 0));
        if index < 0 || index >= ifaces {
          break;
        }
        receivedBytes := receivedBytes + (size - 4);
        VolumeNext(delivered, Delivery(buffer[4..size], index));
        PastPast(w, 6, size);
        delivered := delivered + [Delivery(buffer[4..size], index)];
      }
    }
  }

  /** What one message adds to what the stream delivers. */
  lemma NextMessage(w: seq<byte>, ifaces: nat)
    ensures var h := ReadHead(w, ifaces);
            && Deliveries(w, ifaces)
               == (if h.Stop? then []
                   else (if h.Deliver? then [h.frame] else []) + Deliveries(Past(w, h.length), ifaces))
            && (Fits(w, ifaces) ==>
                  && (|w| >= 6 && Get32(w, 0) == INVALID_INTERFACE ==> Get16(w, 4) <= SOCKET_BUFFER)
                  && (!h.Stop? ==> Fits(Past(w, h.length), ifaces)))
  {
  }

  lemma SpliceMore(b: seq<byte>, w: seq<byte>, m: nat, n: nat)
    requires m + n <= |w| && m + n <= |b|
    ensures Splice(Splice(b, 0, w[..m]), m, Past(w, m)[..n]) == Splice(b, 0, w[..m + n])
  {
  }

  /** The first six bytes of the stream, read from the buffer. */
  lemma HeaderLoads(b: seq<byte>, w: seq<byte>)
    requires 6 <= |w| && 6 <= |b| && b[..6] == w[..6]
    ensures Get32(b, 0) == Get32(w, 0) && Get16(b, 4) == Get16(w, 4)
  {
  }

  /** The body of a message, read from the buffer. */
  lemma BodyLoads(b: seq<byte>, w: seq<byte>, size: nat)
    requires 4 <= size <= |b| && 6 + size <= |w| && b[..size] == w[6..6 + size]
    ensures Get32(b, 0) == Get32(w, 6) && b[4..size] == w[10..6 + size]
  {
  }
}
