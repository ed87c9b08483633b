/**
 Control-stream framing (vpn/server/src/engine/quic.c): gathering bytes out of a list
 of receive buffers, and the loop that handles every complete 1024-byte frame.
 */
module Framing {
  import opened Bytes

  const FRAME: nat := 1024

  /** At most `n` bytes of `bytes` from position `at` on. */
  function Window(bytes: seq<Byte>, at: nat, n: nat): (w: seq<Byte>)
    ensures |w| == if at >= |bytes| then 0 else if |bytes| - at < n then |bytes| - at else n
    ensures at < |bytes| ==> w == bytes[at..at + |w|]
  {
    if at >= |bytes| then [] else if at + n <= |bytes| then bytes[at..at + n] else bytes[at..]
  }

  /** A window that starts behind a buffer does not see it. */
  lemma WindowSkips(a: seq<Byte>, b: seq<Byte>, at: nat, n: nat)
    requires at >= |a|
    ensures Window(a + b, at, n) == [] + Window(b, at - |a|, n)
  {
    assert Window(a + b, at, n) == Window(b, at - |a|, n);
  }

  /** A window that starts inside a buffer takes `c` bytes of it, all it wants or all there are. */
  lemma WindowTakes(a: seq<Byte>, b: seq<Byte>, at: nat, n: nat, c: nat)
    requires at < |a| && c == if |a| - at > n then n else |a| - at
    ensures Window(a + b, at, n) == a[at..at + c] + Window(b, 0, n - c)
  {
    var s := a + b;
    if |a| - at >= n {
      assert s[at..at + n] == a[at..at + n];
      assert Window(b, 0, 0) == [];
    } else {
      assert Window(s, at, n) == a[at..] + Window(b, 0, n - (|a| - at));
    }
  }

  /** No buffer, or nothing wanted: nothing is seen. */
  lemma WindowEnds(bufs: seq<seq<Byte>>, at: nat, n: nat)
    requires bufs == [] || n == 0
    ensures Window(Concat(bufs), at, n) == []
  {
  }

  lemma ConcatFrom(bufs: seq<seq<Byte>>, i: nat)
    requires i < |bufs|
    ensures Concat(bufs[i..]) == bufs[i] + Concat(bufs[i + 1..])
  {
    assert bufs[i..][1..] == bufs[i + 1..];
  }

  lemma WriteNothing(f: seq<Byte>, at: nat)
    requires at <= |f|
    ensures Write(f, at, []) == f
  {
  }

  /** The `memcpy` of one buffer: from `offset` on, all that is wanted or all there is. */
  method TakeFrom(buf: seq<Byte>, offset: nat, dest: array<Byte>, copied: nat, wanted: nat) returns (chunk: nat)
    requires offset < |buf| && copied + wanted <= dest.Length
    modifies dest
    ensures chunk == if |buf| - offset > wanted then wanted else |buf| - offset
    ensures dest[..] == Write(old(dest[..]), copied, buf[offset..offset + chunk])
  {
    chunk := |buf| - offset;
    if chunk > wanted {
      chunk := wanted;
    }
    Assign(dest, copied, buf[offset..offset + chunk]);
  }

  /** One turn of the copy loop: skip the buffer, or take from it what is still wanted. */
  method CopyFrom(buf: seq<Byte>, ghost rest: seq<Byte>, offset: nat, dest: array<Byte>, copied: nat, toCopy: nat)
    returns (offset': nat, copied': nat, ghost piece: seq<Byte>)
    requires copied < toCopy <= dest.Length
    modifies dest
    ensures copied' == copied + |piece| <= toCopy && dest[..] == Write(old(dest[..]), copied, piece)
    ensures Window(buf + rest, offset, toCopy - copied) == piece + Window(rest, offset', toCopy - copied')
  {
    if offset >= |buf| {
      offset', copied', piece := offset - |buf|, copied, [];
      WindowSkips(buf, rest, offset, toCopy - copied);
      WriteNothing(dest[..], copied);
    } else {
      var chunk := TakeFrom(buf, offset, dest, copied, toCopy - copied);
      offset', copied', piece := 0, copied + chunk, buf[offset..offset + chunk];
      WindowTakes(buf, rest, offset, toCopy - copied, chunk);
    }
  }

  /** Writing behind what was gathered so far gathers more. */
  lemma WriteAppends(got: seq<Byte>, before: seq<Byte>, piece: seq<Byte>)
    requires |got| + |piece| <= |before|
    ensures Write(got + before[|got|..], |got|, piece) == got + piece + before[|got + piece|..]
  {
  }

  /**
   `copy_quic_buffers`: exactly the requested window of the concatenated buffers,
   whatever the split, empty buffers included; nothing beyond it is touched.
   */
  method CopyBuffers(bufs: seq<seq<Byte>>, start: nat, dest: array<Byte>, toCopy: nat)
    requires toCopy <= dest.Length
    modifies dest
    ensures var w := Window(Concat(bufs), start, toCopy);
            dest[..] == w + old(dest[..])[|w|..]
  {
    ghost var w, before, got := Window(Concat(bufs), start, toCopy), dest[..], [];
    var copied: nat, offset: nat, i: nat := 0, start, 0;
    assert bufs[0..] == bufs && before[0..] == before && got + w == w && got + before == before;
    while i < |bufs| && copied < toCopy
      invariant i <= |bufs| && copied == |got| <= toCopy
      invariant w == got + Window(Concat(bufs[i..]), offset, toCopy - copied)
      invariant dest[..] == got + before[copied..]
    {
      ghost var rest, piece := Concat(bufs[i + 1..]), [];
      ConcatFrom(bufs, i);
      offset, copied, piece := CopyFrom(bufs[i], rest, offset, dest, copied, toCopy);
      Associate(got, piece, Window(rest, offset, toCopy - copied));
      WriteAppends(got, before, piece);
      got := got + piece;
      i := i + 1;
    }
    WindowEnds(bufs[i..], offset, toCopy - copied);
    assert w == got;
  }

  /** The complete frames of a byte stream. */
  function Frames(bytes: seq<Byte>): seq<seq<Byte>> {
    if |bytes| < FRAME then [] else [bytes[..FRAME]] + Frames(bytes[FRAME..])
  }

  /** The bytes after the last complete frame. */
  function Rest(bytes: seq<Byte>): (r: seq<Byte>)
    ensures |r| < FRAME
  {
    if |bytes| < FRAME then bytes else Rest(bytes[FRAME..])
  }

  /** Frames and rest are all of the stream. */
  lemma {:induction false} NothingIsLost(bytes: seq<Byte>)
    ensures Concat(Frames(bytes)) + Rest(bytes) == bytes
    ensures forall i :: 0 <= i < |Frames(bytes)| ==> |Frames(bytes)[i]| == FRAME
  {
    if |bytes| >= FRAME {
      var first, later := bytes[..FRAME], bytes[FRAME..];
      NothingIsLost(later);
      assert Frames(bytes) == [first] + Frames(later);
      assert ([first] + Frames(later))[1..] == Frames(later);
      assert bytes == first + later;
    }
  }

  /** One frame, copied out of the buffers into a zeroed packet. */
  method NextFrame(bufs: seq<seq<Byte>>, at: nat) returns (frame: seq<Byte>)
    requires at + FRAME <= |Concat(bufs)|
    ensures frame == Concat(bufs)[at..at + FRAME]
  {
    var pkt := new Byte[FRAME](_ => 0);
    CopyBuffers(bufs, at, pkt, FRAME);
    frame := pkt[..];
  }

  lemma FrameAt(all: seq<Byte>, at: nat)
    requires at + FRAME <= |all|
    ensures Frames(all[at..]) == [all[at..at + FRAME]] + Frames(all[at + FRAME..])
    ensures Rest(all[at..]) == Rest(all[at + FRAME..])
  {
    assert all[at..][..FRAME] == all[at..at + FRAME];
    assert all[at..][FRAME..] == all[at + FRAME..];
  }

  /** A received event's handling: the frames passed on and the byte count reported as consumed. */
  method Receive(bufs: seq<seq<Byte>>, total: nat) returns (frames: seq<seq<Byte>>, consumed: nat)
    requires total == |Concat(bufs)|
    ensures frames == Frames(Concat(bufs))
    ensures consumed <= total && Concat(bufs)[consumed..] == Rest(Concat(bufs))
  {
    ghost var all := Concat(bufs);
    frames, consumed := [], 0;
    while total - consumed >= FRAME
      invariant consumed <= total
      invariant frames + Frames(all[consumed..]) == Frames(all) && Rest(all[consumed..]) == Rest(all)
    {
      var pkt := NextFrame(bufs, consumed);
      FrameAt(all, consumed);
      frames := frames + [pkt];
      consumed := consumed + FRAME;
    }
  }

  /** One receive event: what arrived since the last one, and the buffers it was presented in. */
  datatype Delivery = Delivery(arrived: seq<Byte>, bufs: seq<seq<Byte>>)

  function Stream(ds: seq<Delivery>): seq<Byte> {
    if ds == [] then [] else ds[0].arrived + Stream(ds[1..])
  }

  /** The transport's part: unconsumed bytes are presented again, before the new ones. */
  predicate Faithful(rest: seq<Byte>, ds: seq<Delivery>)
    decreases |ds|
  {
    ds == [] || (Concat(ds[0].bufs) == rest + ds[0].arrived && Faithful(Rest(rest + ds[0].arrived), ds[1..]))
  }

  /** All frames handled over a run of events. */
  function Handled(ds: seq<Delivery>): seq<seq<Byte>> {
    if ds == [] then [] else Frames(Concat(ds[0].bufs)) + Handled(ds[1..])
  }

  /** What is left unconsumed after a run of events. */
  function Leftover(rest: seq<Byte>, ds: seq<Delivery>): seq<Byte>
    decreases |ds|
  {
    if ds == [] then rest else Leftover(Rest(Concat(ds[0].bufs)), ds[1..])
  }

  /** Framing in two parts, keeping the rest of the first, is framing at once. */
  lemma {:induction false} FramesResume(a: seq<Byte>, b: seq<Byte>)
    ensures Frames(a + b) == Frames(a) + Frames(Rest(a) + b)
    ensures Rest(a + b) == Rest(Rest(a) + b)
  {
    if |a| >= FRAME {
      FramesResume(a[FRAME..], b);
      assert (a + b)[..FRAME] == a[..FRAME];
      assert (a + b)[FRAME..] == a[FRAME..] + b;
    }
  }

  lemma {:induction false} RunFrames(rest: seq<Byte>, ds: seq<Delivery>)
    requires |rest| < FRAME && Faithful(rest, ds)
    ensures Handled(ds) == Frames(rest + Stream(ds))
    ensures Leftover(rest, ds) == Rest(rest + Stream(ds))
    decreases |ds|
  {
    if ds == [] {
      assert rest + Stream(ds) == rest;
    } else {
      var seen, tail := rest + ds[0].arrived, Stream(ds[1..]);
      RunFrames(Rest(seen), ds[1..]);
      FramesResume(seen, tail);
      assert rest + Stream(ds) == seen + tail;
    }
  }

  /** However the same stream is cut into buffers and events, the same frames are handled. */
  lemma FragmentationDoesNotMatter(ds: seq<Delivery>, es: seq<Delivery>)
    requires Faithful([], ds) && Faithful([], es) && Stream(ds) == Stream(es)
    ensures Handled(ds) == Handled(es) == Frames(Stream(ds))
    ensures Leftover([], ds) == Leftover([], es)
  {
    RunFrames([], ds);
    RunFrames([], es);
    assert [] + Stream(ds) == Stream(ds);
  }

  /** Frames sent back to back are the frames handled, however the transport cuts the stream. */
  lemma SentIsHandled(fs: seq<seq<Byte>>, ds: seq<Delivery>)
    requires forall i :: 0 <= i < |fs| ==> |fs[i]| == FRAME
    requires Faithful([], ds) && Stream(ds) == Concat(fs)
    ensures Handled(ds) == fs && Leftover([], ds) == []
  {
    RunFrames([], ds);
    FramesOfConcat(fs);
    assert [] + Stream(ds) == Stream(ds);
  }

  /** The callback over a whole run of events. */
  method ReceiveAll(ds: seq<Delivery>) returns (frames: seq<seq<Byte>>)
    requires Faithful([], ds)
    ensures frames == Frames(Stream(ds))
  {
    frames := [];
    for i := 0 to |ds|
      invariant frames + Handled(ds[i..]) == Handled(ds)
    {
      var more, _ := Receive(ds[i].bufs, |Concat(ds[i].bufs)|);
      assert ds[i..][1..] == ds[i + 1..];
      Associate(frames, more, Handled(ds[i + 1..]));
      frames := frames + more;
    }
    RunFrames([], ds);
    assert [] + Stream(ds) == Stream(ds);
  }

  /** A stream made of frames comes apart into those frames. */
  lemma {:induction false} FramesOfConcat(fs: seq<seq<Byte>>)
    requires forall i :: 0 <= i < |fs| ==> |fs[i]| == FRAME
    ensures Frames(Concat(fs)) == fs && Rest(Concat(fs)) == []
  {
    if fs != [] {
      FramesOfConcat(fs[1..]);
      assert Concat(fs)[..FRAME] == fs[0];
      assert Concat(fs)[FRAME..] == Concat(fs[1..]);
    }
  }
}
