/** Byte strings: concatenation of buffers, big-endian integers, and writes into the middle. */
module Bytes {

  type Byte = x: int | 0 <= x < 256

  /** The bytes of a list of buffers, in order. */
  function Concat(bufs: seq<seq<Byte>>): seq<Byte> {
    if bufs == [] then [] else bufs[0] + Concat(bufs[1..])
  }

  lemma Associate<T>(a: seq<T>, b: seq<T>, c: seq<T>)
    ensures a + (b + c) == a + b + c
  {
  }

  /** 256 to the power `n`. */
  function Span(n: nat): (p: nat)
    ensures p >= 1
  {
    if n == 0 then 1 else 256 * Span(n - 1)
  }

  /** The `n` bytes of `v` in network order. */
  function ToBytes(v: nat, n: nat): (b: seq<Byte>)
    ensures |b| == n
  {
    if n == 0 then [] else ToBytes(v / 256, n - 1) + [v % 256]
  }

  /** The integer whose network-order bytes are `b`. */
  function FromBytes(b: seq<Byte>): (v: nat)
  {
    if b == [] then 0 else 256 * FromBytes(b[..|b| - 1]) + b[|b| - 1]
  }

  lemma {:induction false} RoundTrip(v: nat, n: nat)
    requires v < Span(n)
    ensures FromBytes(ToBytes(v, n)) == v
  {
    if n > 0 {
      RoundTrip(v / 256, n - 1);
      var b := ToBytes(v, n);
      assert b[..|b| - 1] == ToBytes(v / 256, n - 1);
    }
  }

  lemma {:induction false} Inverse(b: seq<Byte>)
    ensures FromBytes(b) < Span(|b|) && ToBytes(FromBytes(b), |b|) == b
  {
    if b != [] {
      var front := b[..|b| - 1];
      Inverse(front);
      assert b == front + [b[|b| - 1]];
    }
  }

  /** The sizes of the integers on the wire. */
  lemma Spans()
    ensures Span(1) == 0x100 && Span(2) == 0x1_0000 && Span(4) == 0x1_0000_0000
    ensures Span(8) == 0x1_0000_0000_0000_0000
  {
    assert Span(4) == 256 * (256 * Span(2));
    assert Span(6) == 256 * (256 * Span(4));
    assert Span(8) == 256 * (256 * Span(6));
  }

  /** `f` with `b` written at position `at`. */
  function Write(f: seq<Byte>, at: nat, b: seq<Byte>): (g: seq<Byte>)
    requires at + |b| <= |f|
    ensures |g| == |f|
  {
    f[..at] + b + f[at + |b|..]
  }

  /** A write is read back where it went and changes nothing elsewhere. */
  lemma ReadWrite(f: seq<Byte>, at: nat, b: seq<Byte>)
    requires at + |b| <= |f|
    ensures Write(f, at, b)[at..at + |b|] == b
    ensures forall i, j :: 0 <= i <= j <= |f| && (j <= at || at + |b| <= i) ==> Write(f, at, b)[i..j] == f[i..j]
  {
  }

  /** `memcpy` into the middle of an array. */
  method CopyBytes(dest: array<Byte>, at: nat, src: seq<Byte>, from: nat, n: nat)
    requires at + n <= dest.Length && from + n <= |src|
    modifies dest
    ensures dest[..at] == old(dest[..at]) && dest[at..at + n] == src[from..from + n]
    ensures dest[at + n..] == old(dest[at + n..])
  {
    for k := 0 to n
      invariant dest[..at] == old(dest[..at]) && dest[at..at + k] == src[from..from + k]
      invariant dest[at + k..] == old(dest[at + k..])
    {
      dest[at + k] := src[from + k];
      assert dest[at..at + k + 1] == dest[at..at + k] + [src[from + k]];
      assert old(dest[at + k + 1..]) == old(dest[at + k..])[1..];
    }
  }

  /** `memcpy` of a whole value: one field assignment. */
  method Assign(dest: array<Byte>, at: nat, b: seq<Byte>)
    requires at + |b| <= dest.Length
    modifies dest
    ensures dest[..] == Write(old(dest[..]), at, b)
  {
    CopyBytes(dest, at, b, 0, |b|);
    assert b[0..|b|] == b;
    assert dest[..] == dest[..at] + dest[at..at + |b|] + dest[at + |b|..];
  }
}
