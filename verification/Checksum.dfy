/** The two Internet checksum routines against section 1 of RFC 1071. */
module Checksum {
  import opened Bytes

  // ---- Reference: ones-complement sum with end-around carry, one word at a time ----

  function EndAround(x: uint16, y: uint16): uint16 {
    if x + y > 65535 then x + y - 65535 else x + y
  }

  /** RFC 1071 section 1: ones-complement sum of the 16-bit words of `h`, loaded in host order. */
  function OnesSum(h: seq<byte>): uint16
    requires |h| % 2 == 0
  {
    if |h| == 0 then 0
    else EndAround(OnesSum(h[..|h| - 2]), GetLe16(h, |h| - 2))
  }

  /** The checksum of RFC 1071 section 1. */
  function Rfc1071(h: seq<byte>): uint16
    requires |h| % 2 == 0
  {
    65535 - OnesSum(h)
  }

  // ---- The plain 32-bit accumulation both routines start from ----

  function WordSum(h: seq<byte>): nat
    requires |h| % 2 == 0
  {
    if |h| == 0 then 0 else WordSum(h[..|h| - 2]) + GetLe16(h, |h| - 2)
  }

  lemma {:induction false} WordSumBound(h: seq<byte>)
    requires |h| % 2 == 0
    ensures WordSum(h) <= |h| / 2 * 65535
  {
    if |h| > 0 {
      WordSumBound(h[..|h| - 2]);
    }
  }

  /** Representative in 1..65535 of a positive sum modulo 65535; 0 stays 0. */
  function Residue(n: nat): uint16 {
    if n == 0 then 0 else (n - 1) % 65535 + 1
  }

  lemma ResidueStep(n: nat, w: uint16)
    ensures Residue(n + w) == EndAround(Residue(n), w)
  {
  }

  lemma DivModUnique(n: nat, q: nat, r: nat)
    requires n == 65535 * q + r && r < 65535
    ensures n % 65535 == r && n / 65535 == q
  {
  }

  lemma {:induction false} OnesSumIsResidue(h: seq<byte>)
    requires |h| % 2 == 0
    ensures OnesSum(h) == Residue(WordSum(h))
  {
    if |h| > 0 {
      OnesSumIsResidue(h[..|h| - 2]);
      ResidueStep(WordSum(h[..|h| - 2]), GetLe16(h, |h| - 2));
    }
  }

  // ---- check_sum_icmp: two folds ----

  function FoldTwice(sum: uint32): uint16 {
    var s := sum / 65536 + sum % 65536;
    65535 - (s + s / 65536) % 65536
  }

  lemma FoldTwiceArithmetic(n: uint32)
    ensures FoldTwice(n) == 65535 - Residue(n)
  {
    var q, s := n / 65536, n / 65536 + n % 65536;
    if n > 0 {
      if s > 65535 {
        DivModUnique(n - 1, q + 1, s - 1 - 65535);
      } else {
        DivModUnique(n - 1, q, s - 1);
      }
    }
  }

  /** Two folds compute the RFC checksum of every word string whose sum fits the accumulator. */
  lemma FoldTwiceIsRfc1071(h: seq<byte>)
    requires |h| % 2 == 0 && WordSum(h) < 0x1_0000_0000
    ensures FoldTwice(WordSum(h)) == Rfc1071(h)
  {
    OnesSumIsResidue(h);
    FoldTwiceArithmetic(WordSum(h));
  }

  lemma WordSumNone()
    ensures WordSum([]) == 0
  {
  }

  lemma WordSumNext(h: seq<byte>)
    requires |h| % 2 == 0 && |h| > 0
    ensures WordSum(h) == WordSum(h[..|h| - 2]) + Word(h[|h| - 2], h[|h| - 1])
  {
  }

  /** check_sum_icmp over the 12 bytes of an echo header at `off`. */
  method CheckSumIcmp(a: array<byte>, off: nat) returns (c: uint16)
    requires off + 12 <= a.Length
    ensures c == Rfc1071(a[off..off + 12])
  {
    hide Rfc1071, OnesSum, WordSum;
    var nbytes, at := 12, off;
    var sum: uint32 := 0;
    WordSumNone();
    assert a[off..at] == [];
    while nbytes > 1
      invariant 0 <= nbytes <= 12 && nbytes % 2 == 0 && at == off + 12 - nbytes
      invariant sum == WordSum(a[off..at]) && sum <= 6 * 65535 - nbytes / 2 * 65535
    {
      WordSumNext(a[off..at + 2]);
      assert a[off..at + 2][..at - off] == a[off..at];
      sum := sum + Word(a[at], a[at + 1]);
      at := at + 2;
      nbytes := nbytes - 2;
    }
    FoldTwiceIsRfc1071(a[off..off + 12]);
    sum := sum / 65536 + sum % 65536;
    sum := sum + sum / 65536;
    c := 65535 - sum % 65536;
  }

  // ---- Byte-order independence: section 2 (B) of RFC 1071 ----

  function Swap16(x: uint16): uint16 {
    256 * (x % 256) + x / 256
  }

  /** `h` with the two bytes of every word exchanged. */
  function SwapWords(h: seq<byte>): (r: seq<byte>)
    requires |h| % 2 == 0
    ensures |r| == |h|
  {
    seq(|h|, i requires 0 <= i < |h| => if i % 2 == 0 then h[i + 1] else h[i - 1])
  }

  lemma SwapIsShift(x: uint16)
    ensures Swap16(x) == Residue(256 * x)
  {
  }

  lemma SwapEndAround(x: uint16, y: uint16)
    ensures Swap16(EndAround(x, y)) == EndAround(Swap16(x), Swap16(y))
  {
    SwapIsShift(x);
    SwapIsShift(EndAround(x, y));
    var z: int := EndAround(x, y);
    // Multiplying by 256 commutes with reduction modulo 65535.
    if x + y > 65535 {
      assert 256 * z == 256 * x + 256 * y - 65535 * 256;
      ResidueShift(256 * z, 256);
    }
    assert Residue(256 * z) == Residue(256 * x + 256 * y);
    assert 256 * y == 65535 * (y / 256) + Swap16(y);
    if x > 0 || y % 256 > 0 || y / 256 > 0 {
      if 256 * x + Swap16(y) > 0 {
        ResidueShift(256 * x + Swap16(y), y / 256);
      }
    }
    ResidueStep(256 * x, Swap16(y));
  }

  lemma ResidueShift(n: nat, k: nat)
    requires n > 0
    ensures Residue(n + 65535 * k) == Residue(n)
  {
    var q, r := (n - 1) / 65535, (n - 1) % 65535;
    DivModUnique(n - 1 + 65535 * k, q + k, r);
  }

  lemma SwapWordsStep(h: seq<byte>, n: nat)
    requires |h| % 2 == 0 && n + 2 == |h|
    ensures SwapWords(h)[..n] == SwapWords(h[..n])
    ensures GetLe16(SwapWords(h), n) == Swap16(GetLe16(h, n))
  {
    assert SwapWords(h)[n] == h[n + 1] && SwapWords(h)[n + 1] == h[n];
  }

  /** Swapping the bytes of every word swaps the bytes of the sum. */
  lemma {:induction false} SwapOnesSum(h: seq<byte>)
    requires |h| % 2 == 0
    ensures OnesSum(SwapWords(h)) == Swap16(OnesSum(h))
  {
    if |h| > 0 {
      var n := |h| - 2;
      SwapWordsStep(h, n);
      SwapOnesSum(h[..n]);
      SwapEndAround(OnesSum(h[..n]), GetLe16(h, n));
    }
  }

  /** Swapping the bytes of every word swaps the bytes of the checksum. */
  lemma ByteOrderIndependence(h: seq<byte>)
    requires |h| % 2 == 0
    ensures Rfc1071(SwapWords(h)) == Swap16(Rfc1071(h))
  {
    hide OnesSum, SwapWords, Swap16;
    SwapOnesSum(h);
    SwapComplement(OnesSum(h));
  }

  lemma SwapComplement(x: uint16)
    ensures Swap16(65535 - x) == 65535 - Swap16(x)
  {
    var y: int := x;
    assert (65535 - y) % 256 == 255 - y % 256;
  }

  /** Native loads and a native store leave the bytes a big-endian computation would put on the wire. */
  lemma NativeStoreIsWireOrder(h: seq<byte>)
    requires |h| % 2 == 0
    ensures Le16(Rfc1071(h)) == Be16(Rfc1071(SwapWords(h)))
  {
    ByteOrderIndependence(h);
  }

  // ---- check_sum_ip: a single fold ----

  function Folded(h: seq<byte>): nat
    requires |h| % 2 == 0
  {
    WordSum(h) / 65536 + WordSum(h) % 65536
  }

  /** What check_sum_ip returns: quotient plus remainder, cut to 16 bits, complemented. */
  function IpCheck(h: seq<byte>): uint16
    requires |h| % 2 == 0
  {
    65535 - Folded(h) % 65536
  }

  /** The single fold absorbs every carry. */
  predicate SingleCarry(h: seq<byte>)
    requires |h| % 2 == 0
  {
    Folded(h) < 65536
  }

  /** check_sum_ip on `hl` 32-bit words at `off`; `hl` is a 4-bit field. */
  method CheckSumIp(a: array<byte>, off: nat, hl: nat) returns (c: uint16)
    requires hl < 16 && off + 4 * hl <= a.Length
    ensures c == IpCheck(a[off..off + 4 * hl])
  {
    var sum: uint32 := 0;
    var length := hl * 2;
    var i := 0;
    assert a[off..off] == [];
    while i < length
      invariant 0 <= i <= length
      invariant sum == WordSum(a[off..off + 2 * i]) && sum <= 65535 * i
    {
      assert a[off..off + 2 * (i + 1)][..2 * i] == a[off..off + 2 * i];
      sum := sum + Word(a[off + 2 * i], a[off + 2 * i + 1]);
      i := i + 1;
    }
    var reminder: uint16 := sum % 65536;
    var q: uint16 := sum / 65536;
    c := 65535 - (q + reminder) % 65536;
  }

  /** One fold gives the RFC checksum exactly when it absorbs every carry; otherwise it is one too large. */
  lemma SingleFoldError(h: seq<byte>)
    requires |h| % 2 == 0 && |h| <= 60
    ensures SingleCarry(h) <==> IpCheck(h) == Rfc1071(h)
    ensures !SingleCarry(h) ==> IpCheck(h) == Rfc1071(h) + 1
  {
    OnesSumIsResidue(h);
    WordSumBound(h);
    var n := WordSum(h);
    var q, r := n / 65536, n % 65536;
    if n > 0 {
      assert n - 1 == 65535 * q + (q + r - 1);
      if q + r > 65535 {
        DivModUnique(n - 1, q + 1, q + r - 1 - 65535);
      } else {
        DivModUnique(n - 1, q, q + r - 1);
      }
    }
  }

  lemma {:induction false} WordSumZero(h: seq<byte>)
    requires |h| % 2 == 0 && forall i :: 0 <= i < |h| ==> h[i] == 0
    ensures WordSum(h) == 0
  {
    if |h| > 0 {
      WordSumZero(h[..|h| - 2]);
    }
  }

  lemma {:induction false} WordSumPrefix(u: seq<byte>, v: seq<byte>)
    requires |u| % 2 == 0 && |v| % 2 == 0
    ensures WordSum(u + v) == WordSum(u) + WordSum(v)
  {
    if |v| == 0 {
      assert u + v == u;
    } else {
      WordSumPrefix(u, v[..|v| - 2]);
      assert (u + v)[..|u + v| - 2] == u + v[..|v| - 2];
    }
  }

  lemma WordSumParts(h: seq<byte>, t: seq<byte>, u: seq<byte>, v: seq<byte>, w: seq<byte>)
    requires |u| % 2 == 0 && |v| % 2 == 0 && |w| % 2 == 0 && |t| % 2 == 0 && |h| % 2 == 0
    requires t == u + v && h == t + w
    ensures WordSum(h) == WordSum(u) + WordSum(v) + WordSum(w)
  {
    WordSumPrefix(u, v);
    WordSumPrefix(t, w);
  }

  lemma WordSumFour(h: seq<byte>)
    requires |h| == 4
    ensures WordSum(h) == GetLe16(h, 0) + GetLe16(h, 2)
  {
    var u := h[..2];
    assert u[..|u| - 2] == [] && h[..|h| - 2] == u;
    assert GetLe16(u, 0) == GetLe16(h, 0) && WordSum(u) == GetLe16(u, 0);
  }

  /** Overwriting whole words changes the sum by the difference of the words. */
  lemma WordSumSplice(h: seq<byte>, off: nat, v: seq<byte>)
    requires |h| % 2 == 0 && off % 2 == 0 && |v| % 2 == 0 && off + |v| <= |h|
    ensures WordSum(Splice(h, off, v)) == WordSum(h) - WordSum(h[off..off + |v|]) + WordSum(v)
  {
    WordSumSlices(h, off, |v|);
    var r := Splice(h, off, v);
    WordSumSlices(r, off, |v|);
    assert r[..off] == h[..off] && r[off..off + |v|] == v && r[off + |v|..] == h[off + |v|..];
  }

  lemma WordSumSlices(h: seq<byte>, off: nat, n: nat)
    requires |h| % 2 == 0 && off % 2 == 0 && n % 2 == 0 && off + n <= |h|
    ensures WordSum(h) == WordSum(h[..off]) + WordSum(h[off..off + n]) + WordSum(h[off + n..])
  {
    hide WordSum;
    assert h[..off + n] == h[..off] + h[off..off + n];
    assert h == h[..off + n] + h[off + n..];
    WordSumParts(h, h[..off + n], h[..off], h[off..off + n], h[off + n..]);
  }

  // ---- What the check detects ----

  lemma WordSumPoint(h: seq<byte>, k: nat, x: byte)
    requires |h| % 2 == 0 && k < |h|
    ensures WordSum(h[k := x]) == WordSum(h) + (if k % 2 == 0 then 1 else 256) * (x as int - h[k] as int)
  {
    hide WordSum;
    var at := k - k % 2;
    var old2, new2 := h[at..at + 2], h[k := x][at..at + 2];
    assert h[k := x] == Splice(h, at, new2);
    WordSumSplice(h, at, new2);
    WordSumTwo(old2);
    WordSumTwo(new2);
  }

  lemma WordSumTwo(h: seq<byte>)
    requires |h| == 2
    ensures WordSum(h) == Word(h[0], h[1])
  {
    assert h[..|h| - 2] == [];
  }

  lemma CheckedSum(n: nat)
    requires n <= 30 * 65535 && (n / 65536 + n % 65536) % 65536 == 65535
    ensures n == 65535 * (n / 65536 + 1)
  {
    assert n / 65536 + n % 65536 == 65535;
  }

  lemma CloseMultiples(p: int, q: int)
    requires -65535 < 65535 * p - 65535 * q < 65535
    ensures p == q
  {
  }

  /** The check detects every change of a single byte: of two headers that differ in one byte at most one
      passes. */
  lemma SingleByteDetected(h: seq<byte>, k: nat, x: byte)
    requires |h| % 2 == 0 && |h| <= 60 && k < |h| && x != h[k] && IpCheck(h) == 0
    ensures IpCheck(h[k := x]) != 0
  {
    var g := h[k := x];
    var n, m := WordSum(h), WordSum(g);
    WordSumPoint(h, k, x);
    WordSumBound(h);
    WordSumBound(g);
    hide WordSum;
    if IpCheck(g) == 0 {
      CheckedSum(n);
      CheckedSum(m);
      CloseMultiples(n / 65536 + 1, m / 65536 + 1);
    }
  }

  // ---- Stamping a header and checking it ----

  const SUM_AT := 10

  function ZeroSum(h: seq<byte>): (r: seq<byte>)
    requires |h| >= 12
    ensures |r| == |h|
  {
    Splice(h, SUM_AT, [0, 0])
  }

  /** ip_sum = 0; ip_sum = check_sum_ip(header). */
  function Stamp(h: seq<byte>): (r: seq<byte>)
    requires |h| % 2 == 0 && |h| >= 12
    ensures |r| == |h|
  {
    Splice(ZeroSum(h), SUM_AT, Le16(IpCheck(ZeroSum(h))))
  }

  lemma StampArithmetic(n: nat, c: uint16)
    requires n <= 30 * 65535 && c == 65535 - (n / 65536 + n % 65536) % 65536
    ensures (n + c) / 65536 + (n + c) % 65536 == (if n / 65536 + n % 65536 < 65536 then 65535 else 65536)
  {
  }

  /** A stamped header passes its own check exactly when the single fold absorbed every carry. */
  lemma StampVerifies(h: seq<byte>)
    requires |h| % 2 == 0 && 12 <= |h| <= 60
    ensures IpCheck(Stamp(h)) == 0 <==> SingleCarry(ZeroSum(h))
  {
    var z := ZeroSum(h);
    var c := IpCheck(z);
    WordSumBound(z);
    StampSum(h);
    StampArithmetic(WordSum(z), c);
  }

  lemma StampSum(h: seq<byte>)
    requires |h| % 2 == 0 && 12 <= |h|
    ensures WordSum(Stamp(h)) == WordSum(ZeroSum(h)) + IpCheck(ZeroSum(h))
  {
    var z := ZeroSum(h);
    var c := IpCheck(z);
    WordSumSplice(z, SUM_AT, Le16(c));
    assert z[SUM_AT..SUM_AT + 2] == [0, 0];
    WordSumZero([0, 0]);
    assert WordSum(Le16(c)) == c by { assert Le16(c)[..0] == []; }
  }

  /** A string whose zeroed checksum field is filled with the checksum sums to all ones. */
  lemma StampedSumIsOnes(h: seq<byte>, at: nat)
    requires |h| % 2 == 0 && at % 2 == 0 && at + 2 <= |h| && h[at..at + 2] == [0, 0]
    ensures OnesSum(Splice(h, at, Le16(Rfc1071(h)))) == 65535
  {
    var c := Rfc1071(h);
    WordSumSplice(h, at, Le16(c));
    WordSumZero([0, 0]);
    assert WordSum(Le16(c)) == c by { assert Le16(c)[..0] == []; }
    OnesSumIsResidue(h);
    OnesSumIsResidue(Splice(h, at, Le16(c)));
    ResidueComplement(WordSum(h));
  }

  lemma ResidueComplement(n: nat)
    ensures Residue(n + (65535 - Residue(n))) == 65535
  {
  }
}
