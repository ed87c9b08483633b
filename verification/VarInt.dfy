/**
 QUIC variable-length integers (vpn/dep/inc/quic_var_int.h; section 16 of RFC 9000).
 The two top bits of the first byte give the length: 1, 2, 4 or 8 bytes.
 */
module VarInt {
  import opened Common
  import opened Bytes

  const LIMIT: nat := 0x4000_0000_0000_0000

  /** `QuicVarIntSize` */
  function Size(v: nat): nat {
    if v < 0x40 then 1 else if v < 0x4000 then 2 else if v < 0x4000_0000 then 4 else 8
  }

  /** The bits that announce a length of `n` bytes. */
  function Tag(n: nat): nat {
    if n == 1 then 0 else if n == 2 then 0x4000 else if n == 4 then 0x8000_0000 else 0xC000_0000_0000_0000
  }

  /** The bytes that carry `v` in `n` bytes: the tag is disjoint from the value's bits, so or is sum. */
  function Tagged(v: nat, n: nat): (b: seq<Byte>)
    ensures |b| == n
  {
    ToBytes(Tag(n) + v, n)
  }

  /** How many values fit in `n` bytes. */
  function Room(n: nat): nat {
    if n == 1 then 0x40 else if n == 2 then 0x4000 else if n == 4 then 0x4000_0000 else LIMIT
  }

  function Encode(v: nat): (b: seq<Byte>)
    ensures |b| == Size(v)
  {
    Tagged(v, Size(v))
  }

  /** The length announced by a first byte. */
  function Announced(first: Byte): nat {
    if first < 0x40 then 1 else if first < 0x80 then 2 else if first < 0xC0 then 4 else 8
  }

  datatype Decoded = Decoded(value: nat, offset: nat)

  /** `QuicVarIntDecode`: nothing if the announced bytes do not all lie before the end of the buffer. */
  function Decode(buf: seq<Byte>, offset: nat): (r: Option<Decoded>)
    ensures r.Some? ==> offset < r.value.offset <= |buf| && r.value.value < LIMIT
  {
    if |buf| < 1 + offset then None
    else
      var n := Announced(buf[offset]);
      if |buf| < n + offset then None
      else
        var all := buf[offset..offset + n];
        Some(Decoded(FromBytes(all) % Room(n), offset + n))
  }

  // ------------------------------------------------------------- the first byte

  lemma Scale(h: nat, p: nat)
    ensures h * (256 * p) == 256 * (h * p) && (h + 1) * (256 * p) == 256 * (h * p) + 256 * p
  {
  }

  /** The first byte of a network-order integer bounds it. */
  lemma {:induction false} FirstByteBounds(b: seq<Byte>)
    requires b != []
    ensures var h: nat := b[0];
            h * Span(|b| - 1) <= FromBytes(b) < h * Span(|b| - 1) + Span(|b| - 1)
  {
    var front, h: nat, n := b[..|b| - 1], b[0], |b|;
    if n == 1 {
      assert front == [];
    } else {
      FirstByteBounds(front);
      Scale(h, Span(n - 2));
    }
  }

  /** A tagged integer's first byte announces its length. */
  lemma TagAnnounces(first: Byte, w: nat, n: nat)
    requires (n == 1 || n == 2 || n == 4 || n == 8) && Tag(n) <= w < Tag(n) + Room(n)
    requires first * Span(n - 1) <= w < first * Span(n - 1) + Span(n - 1)
    ensures Announced(first) == n
  {
    LeadingSpans();
  }

  lemma TagDropsOff(v: nat, n: nat)
    requires (n == 1 || n == 2 || n == 4 || n == 8) && v < Room(n)
    ensures (Tag(n) + v) % Room(n) == v
  {
  }

  /** A tagged value announces its own length, and its low bits are the value. */
  lemma TaggedReads(v: nat, n: nat)
    requires (n == 1 || n == 2 || n == 4 || n == 8) && v < Room(n)
    ensures Announced(Tagged(v, n)[0]) == n && FromBytes(Tagged(v, n)) % Room(n) == v
  {
    Spans();
    RoundTrip(Tag(n) + v, n);
    FirstByteBounds(Tagged(v, n));
    TagAnnounces(Tagged(v, n)[0], Tag(n) + v, n);
    TagDropsOff(v, n);
  }

  lemma LeadingSpans()
    ensures Span(0) == 1 && Span(1) == 0x100 && Span(3) == 0x100_0000 && Span(7) == 0x100_0000_0000_0000
  {
    Spans();
    assert Span(3) == 256 * Span(2);
    assert Span(8) == 256 * Span(7);
  }

  // ------------------------------------------------------------- round trips

  /** A tagged value placed anywhere decodes to itself, and the offset moves past exactly its bytes. */
  lemma TaggedRoundTrip(before: seq<Byte>, v: nat, n: nat, after: seq<Byte>)
    requires (n == 1 || n == 2 || n == 4 || n == 8) && v < Room(n)
    ensures Decode(before + Tagged(v, n) + after, |before|) == Some(Decoded(v, |before| + n))
  {
    var b, buf := Tagged(v, n), before + Tagged(v, n) + after;
    TaggedReads(v, n);
    assert buf[|before|] == b[0];
    assert buf[|before|..|before| + n] == b;
  }

  /** For every value below 2^62: decoding undoes encoding, at any offset. */
  lemma EncodeRoundTrip(before: seq<Byte>, v: nat, after: seq<Byte>)
    requires v < LIMIT
    ensures Decode(before + Encode(v) + after, |before|) == Some(Decoded(v, |before| + Size(v)))
  {
    TaggedRoundTrip(before, v, Size(v), after);
  }

  /** The forced two-byte form decodes too. */
  lemma TwoByteRoundTrip(before: seq<Byte>, v: nat, after: seq<Byte>)
    requires v < 0x4000
    ensures Decode(before + Tagged(v, 2) + after, |before|) == Some(Decoded(v, |before| + 2))
  {
    TaggedRoundTrip(before, v, 2, after);
  }

  /** The encoder is minimal: whatever bytes decode to `v`, they are at least `Size(v)` many. */
  lemma ShortestForm(buf: seq<Byte>, offset: nat)
    requires Decode(buf, offset).Some?
    ensures var d := Decode(buf, offset).value;
            Size(d.value) <= d.offset - offset
  {
  }

  /** A truncated encoding is refused, however much of it is there. */
  lemma TruncatedIsRefused(before: seq<Byte>, v: nat, k: nat)
    requires v < LIMIT && k < Size(v)
    ensures Decode(before + Encode(v)[..k], |before|) == None
  {
    TaggedReads(v, Size(v));
    if k > 0 {
      assert (before + Encode(v)[..k])[|before|] == Encode(v)[0];
    }
  }

  function EncodeAll(vs: seq<nat>): seq<Byte> {
    if vs == [] then [] else Encode(vs[0]) + EncodeAll(vs[1..])
  }

  /** Decoding one integer after the other until the buffer ends. */
  function DecodeAll(buf: seq<Byte>, offset: nat): Option<seq<nat>>
    requires offset <= |buf|
    decreases |buf| - offset
  {
    if offset == |buf| then Some([])
    else match Decode(buf, offset)
      case None => None
      case Some(d) =>
        match DecodeAll(buf, d.offset)
        case None => None
        case Some(vs) => Some([d.value] + vs)
  }

  /** A concatenation of encodings decodes to the same sequence. */
  lemma {:induction false} SequenceRoundTrip(before: seq<Byte>, vs: seq<nat>)
    requires forall i :: 0 <= i < |vs| ==> vs[i] < LIMIT
    ensures DecodeAll(before + EncodeAll(vs), |before|) == Some(vs)
    decreases |vs|
  {
    if vs != [] {
      var v, rest, next := vs[0], EncodeAll(vs[1..]), before + Encode(vs[0]);
      var buf := before + EncodeAll(vs);
      Associate(before, Encode(v), rest);
      EncodeRoundTrip(before, v, rest);
      SequenceRoundTrip(next, vs[1..]);
      assert DecodeAll(buf, |next|) == Some(vs[1..]);
      assert Decode(buf, |before|) == Some(Decoded(v, |next|));
      assert vs == [v] + vs[1..];
    }
  }

  // ------------------------------------------------------------- the bodies

  /** `QuicVarIntEncode`: writes the encoding and returns the position behind it. */
  method VarIntEncode(v: nat, buf: array<Byte>, at: nat) returns (end: nat)
    requires v < LIMIT && at + Size(v) <= buf.Length
    modifies buf
    ensures end == at + Size(v) && buf[..] == Write(old(buf[..]), at, Encode(v))
  {
    if v < 0x40 {
      Assign(buf, at, ToBytes(v, 1));
      return at + 1;
    } else if v < 0x4000 {
      Assign(buf, at, ToBytes(0x4000 + v, 2));
      return at + 2;
    } else if v < 0x4000_0000 {
      Assign(buf, at, ToBytes(0x8000_0000 + v, 4));
      return at + 4;
    } else {
      Assign(buf, at, ToBytes(0xC000_0000_0000_0000 + v, 8));
      return at + 8;
    }
  }

  /** `QuicVarIntEncode2Bytes` */
  method VarIntEncode2Bytes(v: nat, buf: array<Byte>, at: nat) returns (end: nat)
    requires v < 0x4000 && at + 2 <= buf.Length
    modifies buf
    ensures end == at + 2 && buf[..] == Write(old(buf[..]), at, Tagged(v, 2))
  {
    Assign(buf, at, ToBytes(0x4000 + v, 2));
    return at + 2;
  }

  /** The arithmetic of the one- and two-byte forms. */
  lemma ShortReads(first: Byte, second: Byte)
    ensures FromBytes([first]) == first
    ensures FromBytes([first, second]) % 0x4000 == first as int % 0x40 * 256 + second
  {
    assert [first][..0] == [] && [first, second][..1] == [first];
  }

  /** `QuicVarIntDecode`: on failure the offset stays, and no byte at or past `len` is read. */
  method VarIntDecode(len: nat, buf: array<Byte>, offset: nat) returns (ok: bool, value: nat, offset': nat)
    requires len <= buf.Length
    ensures ok <==> Decode(buf[..len], offset).Some?
    ensures ok ==> Decode(buf[..len], offset) == Some(Decoded(value, offset'))
    ensures !ok ==> offset' == offset
  {
    if len < 1 + offset {
      return false, 0, offset;
    }
    var first := buf[offset];
    if first < 0x40 {
      assert buf[..len][offset..offset + 1] == [first];
      ShortReads(first, 0);
      return true, first, offset + 1;
    } else if first < 0x80 {
      if len < 2 + offset {
        return false, 0, offset;
      }
      assert buf[..len][offset..offset + 2] == [first, buf[offset + 1]];
      ShortReads(first, buf[offset + 1]);
      return true, first as int % 0x40 * 256 + buf[offset + 1], offset + 2;
    } else if first < 0xC0 {
      if len < 4 + offset {
        return false, 0, offset;
      }
      assert buf[..len][offset..offset + 4] == buf[offset..offset + 4];
      return true, FromBytes(buf[offset..offset + 4]) % 0x4000_0000, offset + 4;
    } else {
      if len < 8 + offset {
        return false, 0, offset;
      }
      assert buf[..len][offset..offset + 8] == buf[offset..offset + 8];
      return true, FromBytes(buf[offset..offset + 8]) % 0x4000_0000_0000_0000, offset + 8;
    }
  }
}
