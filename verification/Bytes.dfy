/** Machine integers and byte strings: the wire is big-endian, the host little-endian. */
module Bytes {

  type byte = x: int | 0 <= x < 0x100
  type uint16 = x: int | 0 <= x < 0x1_0000
  type uint32 = x: int | 0 <= x < 0x1_0000_0000

  const MAX16: uint16 := 0xFFFF

  /** htons followed by a native store. */
  function Be16(x: uint16): (b: seq<byte>)
    ensures |b| == 2
  {
    [x / 256, x % 256]
  }

  /** htonl followed by a native store. */
  function Be32(x: uint32): (b: seq<byte>)
    ensures |b| == 4
  {
    Be16(x / 0x1_0000) + Be16(x % 0x1_0000)
  }

  /** A native store of a 16-bit value. */
  function Le16(x: uint16): (b: seq<byte>)
    ensures |b| == 2
  {
    [x % 256, x / 256]
  }

  /** The 16-bit value of a low and a high byte. */
  function Word(lo: byte, hi: byte): int
    ensures 0 <= Word(lo, hi) < 0x1_0000
  {
    var l: int, h: int := lo, hi;
    l + 256 * h
  }

  /** ntohs of a native load. */
  function Get16(s: seq<byte>, off: nat): uint16
    requires off + 2 <= |s|
  {
    Word(s[off + 1], s[off])
  }

  /** ntohl of a native load. */
  function Get32(s: seq<byte>, off: nat): uint32
    requires off + 4 <= |s|
  {
    0x1_0000 * Word(s[off + 1], s[off]) + Get16(s, off + 2)
  }

  /** A native load with no byte swap. */
  function GetLe16(s: seq<byte>, off: nat): uint16
    requires off + 2 <= |s|
  {
    Word(s[off], s[off + 1])
  }

  /** The byte string after `v` is copied over `s` at `off`. */
  function Splice(s: seq<byte>, off: nat, v: seq<byte>): (r: seq<byte>)
    requires off + |v| <= |s|
    ensures |r| == |s|
    ensures forall k :: 0 <= k < |s| ==> r[k] == if off <= k < off + |v| then v[k - off] else s[k]
  {
    s[..off] + v + s[off + |v|..]
  }

  lemma Get16Inverse(x: uint16, s: seq<byte>, off: nat)
    requires off + 2 <= |s| && s[off..off + 2] == Be16(x)
    ensures Get16(s, off) == x
  {
  }

  lemma Get32Inverse(x: uint32, s: seq<byte>, off: nat)
    requires off + 4 <= |s| && s[off..off + 4] == Be32(x)
    ensures Get32(s, off) == x
  {
  }

  lemma SubSlice(s: seq<byte>, a: nat, b: nat, c: nat, d: nat)
    requires a + c <= a + d <= b <= |s|
    ensures s[a..b][c..d] == s[a + c..a + d]
  {
    var l, r := s[a..b][c..d], s[a + c..a + d];
    assert |l| == |r| && forall k :: 0 <= k < |l| ==> l[k] == r[k];
  }

  /** memcpy of `v` into a buffer at an offset. */
  method Put(a: array<byte>, off: nat, v: seq<byte>)
    requires off + |v| <= a.Length
    modifies a
    ensures a[..] == Splice(old(a[..]), off, v)
  {
    var i := 0;
    while i < |v|
      invariant 0 <= i <= |v|
      invariant forall k :: 0 <= k < a.Length ==> a[k] == if off <= k < off + i then v[k - off] else old(a[k])
    {
      a[off + i] := v[i];
      i := i + 1;
    }
  }
}
