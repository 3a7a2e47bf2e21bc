/** Bytes and fixed-width unsigned integers as the client copies them with
    `memcpy`: the host is taken to be little-endian, so copying an integer of
    `width` bytes into a buffer lays down its little-endian representation. */
module Bytes {

  newtype byte = x: int | 0 <= x < 256

  /** 256 to the power n: one more than the largest value of an n-byte integer. */
  function Pow256(n: nat): (p: nat)
    ensures p >= 1
  {
    if n == 0 then 1 else 256 * Pow256(n - 1)
  }

  const TwoTo32: int := 0x1_0000_0000
  const TwoTo64: int := 0x1_0000_0000_0000_0000

  type uint32 = x: int | 0 <= x < TwoTo32
  type uint64 = x: int | 0 <= x < TwoTo64

  lemma Pow256Widths()
    ensures Pow256(4) == TwoTo32
    ensures Pow256(8) == TwoTo64
  {
    assert Pow256(1) == 256;
    assert Pow256(2) == 65536;
    assert Pow256(3) == 16777216;
    assert Pow256(4) == 4294967296;
    assert Pow256(5) == 1099511627776;
    assert Pow256(6) == 281474976710656;
    assert Pow256(7) == 72057594037927936;
  }

  /** The `width` bytes of x, least significant first. */
  function LE(x: nat, width: nat): (s: seq<byte>)
    requires x < Pow256(width)
    ensures |s| == width
  {
    if width == 0 then [] else [(x % 256) as byte] + LE(x / 256, width - 1)
  }

  /** The unsigned value of bytes read least significant first. */
  function FromLE(s: seq<byte>): (x: nat)
    ensures x < Pow256(|s|)
  {
    if s == [] then 0 else s[0] as nat + 256 * FromLE(s[1..])
  }

  /** Reading back what was written gives the integer. */
  lemma {:induction false} FromLEOfLE(x: nat, width: nat)
    requires x < Pow256(width)
    ensures FromLE(LE(x, width)) == x
  {
    if width > 0 {
      FromLEOfLE(x / 256, width - 1);
      assert LE(x, width)[1..] == LE(x / 256, width - 1);
    }
  }

  /** Writing back what was read gives the bytes: the encoding is a bijection
      between n-byte sequences and integers below 256^n. */
  lemma {:induction false} LEOfFromLE(s: seq<byte>)
    ensures LE(FromLE(s), |s|) == s
  {
    if s != [] {
      LEOfFromLE(s[1..]);
      var x := FromLE(s);
      assert x % 256 == s[0] as int && x / 256 == FromLE(s[1..]);
    }
  }

  /** The byte sequence of `buf` after `width` bytes at `off` are replaced by `bytes`. */
  function Splice(buf: seq<byte>, off: nat, bytes: seq<byte>): (r: seq<byte>)
    requires off + |bytes| <= |buf|
    ensures |r| == |buf|
    ensures r[off..off + |bytes|] == bytes
    ensures forall i :: 0 <= i < |buf| && !(off <= i < off + |bytes|) ==> r[i] == buf[i]
  {
    buf[..off] + bytes + buf[off + |bytes|..]
  }

  /** `memcpy(&buf[off], &x, width)` on a little-endian host. */
  method WriteLE(buf: array<byte>, off: nat, x: nat, width: nat)
    requires off + width <= buf.Length
    requires x < Pow256(width)
    modifies buf
    ensures buf[..] == Splice(old(buf[..]), off, LE(x, width))
  {
    ghost var enc := LE(x, width);
    var v: nat := x;
    var i := 0;
    while i < width
      invariant 0 <= i <= width
      invariant v < Pow256(width - i)
      invariant enc[i..] == LE(v, width - i)
      invariant forall k :: 0 <= k < i ==> buf[off + k] == enc[k]
      invariant forall j :: 0 <= j < buf.Length && !(off <= j < off + i) ==> buf[j] == old(buf[j])
    {
      assert enc[i] == (v % 256) as byte && enc[i + 1..] == LE(v / 256, width - i - 1) by {
        assert enc[i..][1..] == enc[i + 1..];
      }
      buf[off + i] := (v % 256) as byte;
      v := v / 256;
      i := i + 1;
    }
    ghost var want := Splice(old(buf[..]), off, enc);
    forall j | 0 <= j < buf.Length
      ensures buf[j] == want[j]
    {
      if off <= j < off + width {
        assert want[off..off + width][j - off] == want[j];
      }
    }
  }

  /** `memcpy(&x, &buf[off], width)` on a little-endian host. */
  method ReadLE(buf: array<byte>, off: nat, width: nat) returns (x: nat)
    requires off + width <= buf.Length
    ensures x == FromLE(buf[off..off + width])
  {
    x := 0;
    var i := width;
    while i > 0
      invariant 0 <= i <= width
      invariant x == FromLE(buf[off + i..off + width])
    {
      i := i - 1;
      assert buf[off + i..off + width][1..] == buf[off + i + 1..off + width];
      x := buf[off + i] as nat + 256 * x;
    }
  }
}
