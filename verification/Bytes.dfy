/** Bytes, 16-bit handles and their little-endian form on the wire. */
module Bytes {

  type byte = x: int | 0 <= x < 0x100

  type u16 = x: int | 0 <= x < 0x1_0000

  datatype Option<+T> = None | Some(value: T)

  function Min(a: int, b: int): int {
    if a <= b then a else b
  }

  function Put16(v: u16): (s: seq<byte>)
    ensures |s| == 2
  {
    [v % 0x100, v / 0x100]
  }

  function Get16(s: seq<byte>, at: nat): u16
    requires at + 2 <= |s|
  {
    s[at] as int + 0x100 * s[at + 1] as int
  }

  /** A 16-bit field written anywhere in a packet is read back, and re-writing what was read restores the bytes. */
  lemma Field16RoundTrip(pre: seq<byte>, v: u16, post: seq<byte>, s: seq<byte>, at: nat)
    requires at + 2 <= |s|
    ensures Get16(pre + Put16(v) + post, |pre|) == v
    ensures Put16(Get16(s, at)) == s[at..at + 2]
  {
    var p := pre + Put16(v) + post;
    assert p[|pre|] == Put16(v)[0] && p[|pre| + 1] == Put16(v)[1];
  }

  /** The elements of s that satisfy keep, in order. */
  function Filter<T>(keep: T -> bool, s: seq<T>): (r: seq<T>)
    ensures forall x :: x in r ==> x in s && keep(x)
    ensures forall x :: x in s && keep(x) ==> x in r
  {
    if s == [] then [] else (if keep(s[0]) then [s[0]] else []) + Filter(keep, s[1..])
  }

  lemma {:induction false} FilterConcat<T>(keep: T -> bool, a: seq<T>, b: seq<T>)
    ensures Filter(keep, a + b) == Filter(keep, a) + Filter(keep, b)
  {
    if a == [] {
      assert a + b == b;
    } else {
      assert (a + b)[1..] == a[1..] + b;
      FilterConcat(keep, a[1..], b);
    }
  }

  lemma {:induction false} FilterNone<T>(keep: T -> bool, s: seq<T>)
    requires forall x :: x in s ==> !keep(x)
    ensures Filter(keep, s) == []
  {
    if s != [] {
      FilterNone(keep, s[1..]);
    }
  }

  /** buf with bytes written at offset at. */
  function Overlay(buf: seq<byte>, at: nat, bytes: seq<byte>): (r: seq<byte>)
    requires at + |bytes| <= |buf|
    ensures |r| == |buf|
  {
    buf[..at] + bytes + buf[at + |bytes|..]
  }

  lemma OverlayJoins(b: seq<byte>, at: nat, x: seq<byte>, y: seq<byte>)
    requires at + |x| + |y| <= |b|
    ensures Overlay(Overlay(b, at, x), at + |x|, y) == Overlay(b, at, x + y)
  {
  }

  /** What lies below the end of a write is what lay below its start, then the bytes. */
  lemma OverlayPrefix(b: seq<byte>, at: nat, x: seq<byte>)
    requires at + |x| <= |b|
    ensures Overlay(b, at, x)[..at + |x|] == b[..at] + x
  {
  }

  /** memcpy, Buffer.copy and writeUInt16LE into a buffer. */
  method Copy(buffer: array<byte>, at: nat, bytes: seq<byte>)
    requires at + |bytes| <= buffer.Length
    modifies buffer
    ensures buffer[..] == Overlay(old(buffer[..]), at, bytes)
  {
    forall i | 0 <= i < |bytes| {
      buffer[at + i] := bytes[i];
    }
  }
}
