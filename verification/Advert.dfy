/** The advertisement payload: twelve bytes for each server that is up, then a four-byte trailer. */
module Advert {
  import opened Bytes
  import opened Checksum
  import opened Learning
  import opened Destination

  /** One decoded record. The loss rate is taken before the counters are converted from wire order. */
  datatype Record = Record(ip: uint32, rtt: uint16, sent: uint16, received: uint16, lost: Cost)

  const RECORD := 12
  const TRAILER := 4

  function EncodeRecord(s: Server): (b: seq<byte>)
    ensures |b| == RECORD
  {
    Be32(s.ip.uint) + Be32(s.rtt) + Be16(s.sent) + Be16(s.received)
  }

  function UpServers(table: seq<Server>): seq<Server> {
    if table == [] then []
    else UpServers(table[..|table| - 1]) + if table[|table| - 1].Up() then [table[|table| - 1]] else []
  }

  function EncodeRecords(servers: seq<Server>): (b: seq<byte>)
    ensures |b| == RECORD * |servers|
  {
    if servers == [] then [] else EncodeRecords(servers[..|servers| - 1]) + EncodeRecord(servers[|servers| - 1])
  }

  /** The payload advertise_data broadcasts for its configured servers. */
  function EncodeTable(table: seq<Server>): (b: seq<byte>)
    ensures |b| == RECORD * |UpServers(table)| + TRAILER
  {
    EncodeRecords(UpServers(table)) + [0, 0, 0, 0]
  }

  /** Iterations of the decoding loop on `n` bytes. */
  function RecordCount(n: nat): nat {
    if n <= TRAILER then 0 else (n - TRAILER + RECORD - 1) / RECORD
  }

  /** The decoding loop stays inside the payload. */
  predicate Readable(n: nat) {
    RECORD * RecordCount(n) <= n
  }

  function DecodeRecord(p: seq<byte>, i: nat): Record
    requires i + RECORD <= |p|
  {
    Record(Get32(p, i), Get32(p, i + 4) % 0x1_0000, Get16(p, i + 8), Get16(p, i + 10),
           LossRate(GetLe16(p, i + 10), GetLe16(p, i + 8)))
  }

  /** The records receive_advertise_data reads, from the k-th on. */
  function RecordsFrom(p: seq<byte>, k: nat): (r: seq<Record>)
    requires Readable(|p|) && k <= RecordCount(|p|)
    ensures |r| == RecordCount(|p|) - k
    ensures forall i :: 0 <= i < |r| ==> r[i] == DecodeRecord(p, RECORD * (k + i))
    decreases RecordCount(|p|) - k
  {
    if k == RecordCount(|p|) then [] else [DecodeRecord(p, RECORD * k)] + RecordsFrom(p, k + 1)
  }

  function Records(p: seq<byte>): (r: seq<Record>)
    requires Readable(|p|)
    ensures |r| == RecordCount(|p|) && forall i :: 0 <= i < |r| ==> r[i] == DecodeRecord(p, RECORD * i)
  {
    RecordsFrom(p, 0)
  }

  /** The loop `for (i = 0; i < size - 4; i += 12)` has an iteration k exactly when 12k < size - 4. */
  lemma RecordCountExact(n: nat, k: nat)
    ensures k < RecordCount(n) <==> 12 * k < n - 4
  {
  }

  /** An advertised RTT above 16 bits is cut to its low half. */
  lemma RttIsCut(p: seq<byte>, i: nat)
    requires i + 12 <= |p|
    ensures DecodeRecord(p, i).rtt == Get16(p, i + 6) && DecodeRecord(p, i).ip == Get32(p, i)
  {
    hide Word;
    LowHalf(Word(p[i + 5], p[i + 4]), Get16(p, i + 6));
  }

  lemma LowHalf(hi: int, lo: uint16)
    ensures (0x1_0000 * hi + lo) % 0x1_0000 == lo
  {
  }

  /** What a receiver should learn about an advertised server. */
  function Told(s: Server): Record {
    Record(s.ip.uint, s.rtt, s.sent, s.received, LossRate(Swap16(s.received), Swap16(s.sent)))
  }

  function ToldAll(servers: seq<Server>): (r: seq<Record>)
    ensures |r| == |servers| && forall i :: 0 <= i < |servers| ==> r[i] == Told(servers[i])
  {
    if servers == [] then [] else ToldAll(servers[..|servers| - 1]) + [Told(servers[|servers| - 1])]
  }

  lemma DecodeEncoded(s: Server, p: seq<byte>, i: nat)
    requires i + RECORD <= |p| && p[i..i + RECORD] == EncodeRecord(s)
    ensures DecodeRecord(p, i) == Told(s)
  {
    var r := p[i..i + RECORD];
    assert r[..4] == Be32(s.ip.uint) && r[4..8] == Be32(s.rtt) && r[8..10] == Be16(s.sent) && r[10..12] == Be16(s.received);
    SubSlice(p, i, i + RECORD, 0, 4);
    SubSlice(p, i, i + RECORD, 4, 8);
    SubSlice(p, i, i + RECORD, 8, 10);
    SubSlice(p, i, i + RECORD, 10, 12);
    Get32Inverse(s.ip.uint, p, i);
    Get32Inverse(s.rtt, p, i + 4);
    Get16Inverse(s.sent, p, i + 8);
    Get16Inverse(s.received, p, i + 10);
    NativeLoad(s.sent, p, i + 8);
    NativeLoad(s.received, p, i + 10);
  }

  lemma NativeLoad(x: uint16, p: seq<byte>, i: nat)
    requires i + 2 <= |p| && p[i..i + 2] == Be16(x)
    ensures GetLe16(p, i) == Swap16(x)
  {
  }

  lemma {:induction false} RecordAt(servers: seq<Server>, k: nat)
    requires k < |servers|
    ensures EncodeRecords(servers)[RECORD * k..RECORD * k + RECORD] == EncodeRecord(servers[k])
  {
    var n := |servers| - 1;
    if k < n {
      RecordAt(servers[..n], k);
      var e := EncodeRecords(servers[..n]);
      assert (e + EncodeRecord(servers[n]))[RECORD * k..RECORD * k + RECORD] == e[RECORD * k..RECORD * k + RECORD];
    }
  }

  /** Decoding an advertised table yields exactly the servers that are up, in order, with the same
      address, RTT and counters; the loop stops at the trailer. */
  lemma AdvertRoundTrip(table: seq<Server>)
    ensures var p := EncodeTable(table);
            && Readable(|p|) && RECORD * RecordCount(|p|) + TRAILER == |p|
            && Records(p) == ToldAll(UpServers(table))
  {
    hide EncodeRecords, DecodeRecord, Told, UpServers;
    var up, p := UpServers(table), EncodeTable(table);
    forall k | 0 <= k < |up|
      ensures DecodeRecord(p, RECORD * k) == Told(up[k])
    {
      DecodeAt(up, k);
    }
    assert |Records(p)| == |ToldAll(up)|;
  }

  lemma DecodeAt(up: seq<Server>, k: nat)
    requires k < |up|
    ensures DecodeRecord(EncodeRecords(up) + [0, 0, 0, 0], RECORD * k) == Told(up[k])
  {
    hide EncodeRecords, EncodeRecord, DecodeRecord, Told;
    RecordAt(up, k);
    DecodeInPrefix(EncodeRecords(up), [0, 0, 0, 0], RECORD * k, up[k]);
  }

  lemma DecodeInPrefix(e: seq<byte>, rest: seq<byte>, at: nat, s: Server)
    requires at + RECORD <= |e| && e[at..at + RECORD] == EncodeRecord(s)
    ensures DecodeRecord(e + rest, at) == Told(s)
  {
    assert (e + rest)[at..at + RECORD] == e[at..at + RECORD];
    DecodeEncoded(s, e + rest, at);
  }

  /** `UpServers` is the subsequence of entries that are up. */
  lemma {:induction false} UpServersExact(table: seq<Server>, s: Server)
    ensures s in UpServers(table) <==> s in table && s.Up()
  {
    if table != [] {
      UpServersExact(table[..|table| - 1], s);
    }
  }

  /** The loss rate derived from unconverted counters is the advertiser's exactly when the byte pairs
      of the two counters are proportional. */
  predicate ProportionalBytes(received: uint16, sent: uint16) {
    (received % 256) * (sent / 256) == (received / 256) * (sent % 256)
  }

  lemma SwappedLossExact(received: uint16, sent: uint16)
    ensures LossRate(Swap16(received), Swap16(sent)) == LossRate(received, sent) <==> ProportionalBytes(received, sent)
    ensures received < 256 && sent < 256 ==> ProportionalBytes(received, sent)
  {
    var rh, rl, sh, sl := received / 256, received % 256, sent / 256, sent % 256;
    if sent > 0 {
      QuotientsEqual(Swap16(received), Swap16(sent), received, sent);
      CrossProducts(rh, rl, sh, sl);
    }
  }

  lemma QuotientsEqual(a: nat, b: nat, c: nat, d: nat)
    requires b > 0 && d > 0
    ensures a as real / b as real == c as real / d as real <==> a * d == c * b
  {
    var x, y := a as real / b as real, c as real / d as real;
    var p, q := b as real, d as real;
    assert x * p == a as real && y * q == c as real;
    assert (a * d) as real == x * p * q && (c * b) as real == y * q * p;
    if a * d == c * b {
      assert x * p * q == y * p * q;
      CancelPositive(x, y, p * q);
    }
  }

  lemma CancelPositive(x: real, y: real, k: real)
    requires k > 0.0 && x * k == y * k
    ensures x == y
  {
  }

  lemma CrossProducts(rh: int, rl: int, sh: int, sl: int)
    ensures (256 * rl + rh) * (256 * sh + sl) == (256 * rh + rl) * (256 * sl + sh) <==> rl * sh == rh * sl
  {
  }

  /** `k` pings, each answered before the next. */
  function Rounds(k: nat): seq<Event>
    requires k <= MAX16
  {
    if k == 0 then [] else Rounds(k - 1) + [Ping] + [Reply(k - 1, 7)]
  }

  lemma {:induction false} AfterRounds(ip: IpInfo, gw: IpInfo, k: nat)
    requires k <= MAX16
    ensures var v := Run(Fresh(ip, gw), gw, Rounds(k));
            && v.sent == v.received == v.sequenceId == k && v.lostPings == 0
            && (k == 0 ==> !v.Up()) && (k > 0 ==> v.rtt == 7 && v.gotLast)
  {
    if k > 0 {
      AfterRounds(ip, gw, k - 1);
      RunLast(Fresh(ip, gw), gw, Rounds(k - 1), Ping);
      RunLast(Fresh(ip, gw), gw, Rounds(k - 1) + [Ping], Reply(k - 1, 7));
    }
  }

  /** A run in which the two differ: 255 answered pings and one still open. The advertiser stores a loss of
      1/256; its advertisement is decoded as 1 - 65280. */
  lemma SwappedLossWitness(ip: IpInfo, gw: IpInfo)
    ensures var v := Run(Fresh(ip, gw), gw, Rounds(255) + [Ping]);
            && v.Up() && v.sent == 256 && v.received == 255
            && v.lostRate == Fin(1.0 / 256.0) && Told(v).lost == Fin(-65279.0)
  {
    AfterRounds(ip, gw, 255);
    RunLast(Fresh(ip, gw), gw, Rounds(255), Ping);
    assert Swap16(255) == 65280 && Swap16(256) == 1;
  }
}
