/**
 The client's side of control-stream framing (vpn/client/src/engine/quic.c): the same
 copy and the same frames, but the client refuses an event without bytes and gives up at
 the first frame it cannot act on.
 */
module ClientFraming {
  import opened Bytes
  import opened Framing

  datatype Status = Success | Aborted | ProtocolError

  /** Acting on none of the frames `base` to `base + n` of a run fails. */
  predicate Clean(fails: nat -> bool, base: nat, n: nat) {
    forall i :: base <= i < base + n ==> !fails(i)
  }

  /** The frames up to and including the first that cannot be acted on; `fs` starts with frame `base` of the run. */
  function Kept(fs: seq<seq<Byte>>, fails: nat -> bool, base: nat): seq<seq<Byte>> {
    if fs == [] then [] else [fs[0]] + (if fails(base) then [] else Kept(fs[1..], fails, base + 1))
  }

  /**
   The client's handling of one event, before which it has handled `base` frames: an event
   without bytes is refused, and the loop gives up at the first frame that fails.
   */
  method ReceiveClient(bufs: seq<seq<Byte>>, total: nat, fails: nat -> bool, base: nat)
    returns (status: Status, frames: seq<seq<Byte>>, consumed: nat)
    requires total == |Concat(bufs)|
    ensures status == ProtocolError <==> total == 0
    ensures status == Success <==> total > 0 && Clean(fails, base, |Frames(Concat(bufs))|)
    ensures frames == Kept(Frames(Concat(bufs)), fails, base)
    ensures status == Success ==> frames == Frames(Concat(bufs)) && consumed <= total
                                  && Concat(bufs)[consumed..] == Rest(Concat(bufs))
  {
    ghost var all := Concat(bufs);
    frames, consumed := [], 0;
    if total == 0 {
      return ProtocolError, frames, consumed;
    }
    while total - consumed >= FRAME
      invariant consumed <= total
      invariant frames + Frames(all[consumed..]) == Frames(all) && Rest(all[consumed..]) == Rest(all)
      invariant Clean(fails, base, |frames|)
    {
      var pkt := NextFrame(bufs, consumed);
      FrameAt(all, consumed);
      ghost var later := Frames(all[consumed + FRAME..]);
      Associate(frames, [pkt], later);
      frames := frames + [pkt];
      if fails(base + |frames| - 1) {
        GivesUp(frames, later, fails, base);
        return Aborted, frames, consumed;
      }
      consumed := consumed + FRAME;
    }
    assert frames + [] == frames;
    KeptPrefix(frames, fails, base, |frames|);
    return Success, frames, consumed;
  }

  /** The frames up to the first that fails are the frames kept. */
  lemma GivesUp(frames: seq<seq<Byte>>, later: seq<seq<Byte>>, fails: nat -> bool, base: nat)
    requires frames != [] && Clean(fails, base, |frames| - 1) && fails(base + |frames| - 1)
    ensures Kept(frames + later, fails, base) == frames && !Clean(fails, base, |frames + later|)
  {
    KeptPrefix(frames + later, fails, base, |frames| - 1);
    assert (frames + later)[..|frames|] == frames;
  }

  /** The client's run: it ends at an event without bytes and at the first frame it cannot act on. */
  function ClientHandled(ds: seq<Delivery>, fails: nat -> bool, base: nat): seq<seq<Byte>>
    decreases |ds|
  {
    if ds == [] || Concat(ds[0].bufs) == [] then []
    else
      var fs := Frames(Concat(ds[0].bufs));
      if Clean(fails, base, |fs|) then fs + ClientHandled(ds[1..], fails, base + |fs|) else Kept(fs, fails, base)
  }

  /** The events before the first without bytes. */
  function Heard(ds: seq<Delivery>): seq<Delivery> {
    if ds == [] || Concat(ds[0].bufs) == [] then [] else [ds[0]] + Heard(ds[1..])
  }

  lemma CleanSteps(fails: nat -> bool, base: nat, n: nat)
    requires n > 0
    ensures Clean(fails, base, n) <==> !fails(base) && Clean(fails, base + 1, n - 1)
  {
  }

  lemma ConsAppend<T>(a: seq<T>, b: seq<T>)
    requires a != []
    ensures [a[0]] + (a[1..] + b) == a + b
  {
  }

  /** Keeping frames in two parts. */
  lemma {:induction false} KeptResumes(a: seq<seq<Byte>>, b: seq<seq<Byte>>, fails: nat -> bool, base: nat)
    ensures Kept(a + b, fails, base) ==
            if Clean(fails, base, |a|) then a + Kept(b, fails, base + |a|) else Kept(a, fails, base)
    decreases |a|
  {
    if a == [] {
      assert a + b == b;
    } else {
      assert (a + b)[1..] == a[1..] + b;
      CleanSteps(fails, base, |a|);
      if !fails(base) {
        KeptResumes(a[1..], b, fails, base + 1);
        ConsAppend(a, Kept(b, fails, base + |a|));
      }
    }
  }

  /** How much is kept. */
  lemma {:induction false} KeptPrefix(fs: seq<seq<Byte>>, fails: nat -> bool, base: nat, n: nat)
    requires n <= |fs| && Clean(fails, base, n)
    requires n < |fs| ==> fails(base + n)
    ensures Kept(fs, fails, base) == if n < |fs| then fs[..n + 1] else fs
    decreases |fs|
  {
    if n > 0 {
      KeptPrefix(fs[1..], fails, base + 1, n - 1);
    }
  }

  /** Frames that everything before them allows are kept. */
  lemma {:induction false} KeptReaches(fs: seq<seq<Byte>>, fails: nat -> bool, base: nat, i: nat)
    requires i < |fs| && Clean(fails, base, i)
    ensures i < |Kept(fs, fails, base)| && Kept(fs, fails, base)[i] == fs[i]
    decreases i
  {
    if i > 0 {
      KeptReaches(fs[1..], fails, base + 1, i - 1);
    }
  }

  lemma HeardStream(rest: seq<Byte>, ds: seq<Delivery>)
    requires Heard(ds) != []
    ensures rest + Stream(Heard(ds)) == rest + ds[0].arrived + Stream(Heard(ds[1..]))
  {
    assert Heard(ds)[1..] == Heard(ds[1..]);
    Associate(rest, ds[0].arrived, Stream(Heard(ds[1..])));
  }

  lemma {:induction false} ClientRunFrames(rest: seq<Byte>, ds: seq<Delivery>, fails: nat -> bool, base: nat)
    requires |rest| < FRAME && Faithful(rest, ds)
    ensures ClientHandled(ds, fails, base) == Kept(Frames(rest + Stream(Heard(ds))), fails, base)
    decreases |ds|
  {
    if Heard(ds) == [] {
      assert rest + Stream(Heard(ds)) == rest;
    } else {
      var seen, tail := rest + ds[0].arrived, Stream(Heard(ds[1..]));
      var fs := Frames(seen);
      HeardStream(rest, ds);
      FramesResume(seen, tail);
      KeptResumes(fs, Frames(Rest(seen) + tail), fails, base);
      ClientRunFrames(Rest(seen), ds[1..], fails, base + |fs|);
    }
  }

  /**
   However the stream is cut, the client handles exactly its frames, as far as it was heard
   before an event without bytes, up to and including the first it cannot act on.
   */
  lemma ClientFragmentation(ds: seq<Delivery>, fails: nat -> bool)
    requires Faithful([], ds)
    ensures ClientHandled(ds, fails, 0) == Kept(Frames(Stream(Heard(ds))), fails, 0)
    ensures Clean(fails, 0, |Frames(Stream(Heard(ds)))|) ==> ClientHandled(ds, fails, 0) == Frames(Stream(Heard(ds)))
  {
    var fs := Frames(Stream(Heard(ds)));
    ClientRunFrames([], ds, fails, 0);
    assert [] + Stream(Heard(ds)) == Stream(Heard(ds));
    if Clean(fails, 0, |fs|) {
      KeptPrefix(fs, fails, 0, |fs|);
    }
  }

  /** The client's callback over a whole run of events. */
  method ReceiveAllClient(ds: seq<Delivery>, fails: nat -> bool) returns (status: Status, frames: seq<seq<Byte>>)
    requires Faithful([], ds)
    ensures frames == Kept(Frames(Stream(Heard(ds))), fails, 0)
    ensures status == Success ==> frames == Frames(Stream(ds))
  {
    ClientFragmentation(ds, fails);
    frames := [];
    for i := 0 to |ds|
      invariant ClientHandled(ds, fails, 0) == frames + ClientHandled(ds[i..], fails, |frames|)
      invariant frames == Handled(ds[..i])
    {
      var event, more, _ := ReceiveClient(ds[i].bufs, |Concat(ds[i].bufs)|, fails, |frames|);
      ClientStep(ds, i, fails, frames);
      frames := frames + more;
      if event != Success {
        return event, frames;
      }
    }
    FragmentationDoesNotMatter(ds, ds);
    assert ds[..|ds|] == ds;
    return Success, frames;
  }

  /** What event `i` adds to the frames handled before it. */
  lemma ClientStep(ds: seq<Delivery>, i: nat, fails: nat -> bool, frames: seq<seq<Byte>>)
    requires i < |ds| && frames == Handled(ds[..i])
    ensures var fs, base := Frames(Concat(ds[i].bufs)), |frames|;
            frames + ClientHandled(ds[i..], fails, base) ==
            if Concat(ds[i].bufs) != [] && Clean(fails, base, |fs|)
            then frames + fs + ClientHandled(ds[i + 1..], fails, |frames + fs|)
            else frames + Kept(fs, fails, base)
    ensures Handled(ds[..i + 1]) == frames + Frames(Concat(ds[i].bufs))
  {
    var fs := Frames(Concat(ds[i].bufs));
    HandledAppend(ds, i);
    assert ds[i..][1..] == ds[i + 1..];
    Associate(frames, fs, ClientHandled(ds[i + 1..], fails, |frames + fs|));
  }

  lemma {:induction false} HandledAppend(ds: seq<Delivery>, i: nat)
    requires i < |ds|
    ensures Handled(ds[..i + 1]) == Handled(ds[..i]) + Frames(Concat(ds[i].bufs))
    decreases i
  {
    if i == 0 {
      assert ds[..1] == [ds[0]] && ds[..1][1..] == [];
    } else {
      HandledAppend(ds[1..], i - 1);
      assert ds[..i + 1][1..] == ds[1..][..i] && ds[..i][1..] == ds[1..][..i - 1];
    }
  }
}
