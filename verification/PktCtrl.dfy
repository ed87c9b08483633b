/**
 The fixed control frames (vpn/common/inc/pkt_ctrl.h, vpn/common/src/pkt_ctrl.c) and
 what the two receivers make of them (process_ctrl_pkt in both quic.c files).

 Layout of the 1024 bytes: length 0..2, head magic 2..6, type 6..8, uid 8..16, body
 from 16, tail magic 1020..1024, all integers in network order. A `struct in_addr` is
 four bytes that are never reordered.
 */
module PktCtrl {
  import opened Bytes
  import opened Framing
  import opened ClientFraming

  const HEAD_MAGIC: nat := 0xAABBCCDD
  const TAIL_MAGIC: nat := 0xDDBBCCAA
  const CONFIG_REQ: nat := 1
  const CONFIG_RESP: nat := 2
  const HOSTNAME: nat := 64

  type Addr = a: seq<Byte> | |a| == 4 witness [0, 0, 0, 0]

  /** The part of a C string before its terminator. */
  function CString(b: seq<Byte>): (s: seq<Byte>)
    ensures |s| <= |b| && s == b[..|s|] && 0 !in s
    ensures |s| < |b| ==> b[|s|] == 0
  {
    if b == [] || b[0] == 0 then [] else [b[0]] + CString(b[1..])
  }

  /** What `snprintf` leaves of a hostname in its field. */
  function Shortened(host: seq<Byte>): (s: seq<Byte>)
    ensures |s| < HOSTNAME && 0 !in s
    ensures s <= CString(host) && (s == CString(host) || |s| == HOSTNAME - 1)
  {
    var c := CString(host);
    if |c| < HOSTNAME then c else c[..HOSTNAME - 1]
  }

  function Zeros(n: nat): (z: seq<Byte>)
    ensures |z| == n
  {
    seq(n, _ => 0)
  }

  /** Header and trailer common to both builders, in a zeroed frame. */
  function Envelope(kind: nat, uid: nat): (f: seq<Byte>)
    ensures |f| == FRAME
  {
    var f0 := Write(Zeros(FRAME), 0, ToBytes(FRAME, 2));
    var f1 := Write(f0, 2, ToBytes(HEAD_MAGIC, 4));
    var f2 := Write(f1, 6, ToBytes(kind, 2));
    var f3 := Write(f2, 8, ToBytes(uid, 8));
    Write(f3, 1020, ToBytes(TAIL_MAGIC, 4))
  }

  function ConfigReq(uid: nat, family: Byte, host: seq<Byte>): (f: seq<Byte>)
    ensures |f| == FRAME
  {
    Write(Write(Envelope(CONFIG_REQ, uid), 16, [family]), 17, Shortened(host))
  }

  /** The body's own uid field (16..24) is left zero, as the builder does. */
  function ConfigResp(uid: nat, status: nat, mtu: nat, ip: Addr, mask: Addr, dns1: Addr, dns2: Addr): (f: seq<Byte>)
    ensures |f| == FRAME
  {
    var f0 := Write(Envelope(CONFIG_RESP, uid), 24, ToBytes(status, 4));
    var f1 := Write(f0, 44, ToBytes(mtu, 2));
    var f2 := Write(f1, 28, ip);
    var f3 := Write(f2, 32, mask);
    var f4 := Write(f3, 36, dns1);
    Write(f4, 40, dns2)
  }

  // ------------------------------------------------------------- the receivers

  predicate Genuine(f: seq<Byte>)
    requires |f| == FRAME
  {
    FromBytes(f[0..2]) == FRAME && FromBytes(f[2..6]) == HEAD_MAGIC && FromBytes(f[1020..1024]) == TAIL_MAGIC
  }

  datatype Verdict =
    | Dropped
    | Unsupported(kind: nat)
    | Request(uid: nat, family: Byte, host: seq<Byte>)
    | Response(uid: nat, mtu: nat, ip: seq<Byte>, mask: seq<Byte>, dns1: seq<Byte>, dns2: seq<Byte>)

  /** The server handles requests only. */
  function ServerVerdict(f: seq<Byte>): Verdict
    requires |f| == FRAME
  {
    if !Genuine(f) then Dropped
    else if FromBytes(f[6..8]) == CONFIG_REQ
    then Request(FromBytes(f[8..16]), f[16], CString(f[17..17 + HOSTNAME]))
    else Unsupported(FromBytes(f[6..8]))
  }

  /** The client handles responses only. */
  function ClientVerdict(f: seq<Byte>): Verdict
    requires |f| == FRAME
  {
    if !Genuine(f) then Dropped
    else if FromBytes(f[6..8]) == CONFIG_RESP
    then Response(FromBytes(f[8..16]), FromBytes(f[44..46]), f[28..32], f[32..36], f[36..40], f[40..44])
    else Unsupported(FromBytes(f[6..8]))
  }

  // ------------------------------------------------------------- round trips

  /** The frame outside its body. */
  predicate HasEnvelope(f: seq<Byte>, kind: nat, uid: nat)
    requires |f| == FRAME
  {
    && f[0..2] == ToBytes(FRAME, 2) && f[2..6] == ToBytes(HEAD_MAGIC, 4) && f[6..8] == ToBytes(kind, 2)
    && f[8..16] == ToBytes(uid, 8) && f[1020..1024] == ToBytes(TAIL_MAGIC, 4)
  }

  lemma EnvelopeHas(kind: nat, uid: nat)
    ensures HasEnvelope(Envelope(kind, uid), kind, uid)
    ensures Envelope(kind, uid)[16..1020] == Zeros(1004)
  {
    var f0 := Write(Zeros(FRAME), 0, ToBytes(FRAME, 2));
    var f1 := Write(f0, 2, ToBytes(HEAD_MAGIC, 4));
    var f2 := Write(f1, 6, ToBytes(kind, 2));
    var f3 := Write(f2, 8, ToBytes(uid, 8));
    ReadWrite(Zeros(FRAME), 0, ToBytes(FRAME, 2));
    ReadWrite(f0, 2, ToBytes(HEAD_MAGIC, 4));
    ReadWrite(f1, 6, ToBytes(kind, 2));
    ReadWrite(f2, 8, ToBytes(uid, 8));
    ReadWrite(f3, 1020, ToBytes(TAIL_MAGIC, 4));
    assert Zeros(FRAME)[16..1020] == Zeros(1004);
  }

  /** Writing inside the body leaves the envelope alone. */
  lemma BodyWrite(f: seq<Byte>, at: nat, b: seq<Byte>, kind: nat, uid: nat)
    requires |f| == FRAME && HasEnvelope(f, kind, uid) && 16 <= at && at + |b| <= 1020
    ensures HasEnvelope(Write(f, at, b), kind, uid)
  {
    ReadWrite(f, at, b);
  }

  lemma EnvelopeReads(f: seq<Byte>, kind: nat, uid: nat)
    requires |f| == FRAME && HasEnvelope(f, kind, uid) && kind < 0x1_0000 && uid < 0x1_0000_0000_0000_0000
    ensures Genuine(f) && FromBytes(f[6..8]) == kind && FromBytes(f[8..16]) == uid
  {
    Spans();
    RoundTrip(FRAME, 2);
    RoundTrip(HEAD_MAGIC, 4);
    RoundTrip(kind, 2);
    RoundTrip(uid, 8);
    RoundTrip(TAIL_MAGIC, 4);
  }

  /** A terminated string followed by zeros reads back as itself. */
  lemma {:induction false} CStringPadded(s: seq<Byte>, n: nat)
    requires 0 !in s && n > 0
    ensures CString(s + Zeros(n)) == s
  {
    if s != [] {
      CStringPadded(s[1..], n);
      assert (s + Zeros(n))[1..] == s[1..] + Zeros(n);
    }
  }

  /** What arrives of a hostname: all of the string, or its first 63 bytes. */
  predicate Received(host: seq<Byte>, s: seq<Byte>) {
    var c := CString(host);
    if |c| < 64 then s == c else s == c[..63]
  }

  /** Every request decodes, at the server, to its uid, family and at most 63 bytes of hostname. */
  lemma RequestRoundTrip(uid: nat, family: Byte, host: seq<Byte>)
    requires uid < 0x1_0000_0000_0000_0000
    ensures ServerVerdict(ConfigReq(uid, family, host)) == Request(uid, family, Shortened(host))
    ensures Received(host, Shortened(host))
    ensures ClientVerdict(ConfigReq(uid, family, host)) == Unsupported(CONFIG_REQ)
  {
    var f0, s := Envelope(CONFIG_REQ, uid), Shortened(host);
    var f1 := Write(f0, 16, [family]);
    var f2 := Write(f1, 17, s);
    EnvelopeHas(CONFIG_REQ, uid);
    BodyWrite(f0, 16, [family], CONFIG_REQ, uid);
    BodyWrite(f1, 17, s, CONFIG_REQ, uid);
    EnvelopeReads(f2, CONFIG_REQ, uid);
    HostnameField(f0, family, s);
    CStringPadded(s, HOSTNAME - |s|);
  }

  lemma HostnameField(f0: seq<Byte>, family: Byte, s: seq<Byte>)
    requires |f0| == FRAME && f0[16..1020] == Zeros(1004) && |s| < HOSTNAME
    ensures var f2 := Write(Write(f0, 16, [family]), 17, s);
            f2[16] == family && f2[17..17 + HOSTNAME] == s + Zeros(HOSTNAME - |s|)
  {
    var f1 := Write(f0, 16, [family]);
    var f2 := Write(f1, 17, s);
    forall i | 17 + |s| <= i < 17 + HOSTNAME ensures f2[i] == 0 {
      assert f2[i] == f0[i] == f0[16..1020][i - 16];
    }
    assert f2[17..17 + HOSTNAME] == s + Zeros(HOSTNAME - |s|);
  }

  /** Every response decodes, at the client, to the values it was built from. */
  lemma ResponseRoundTrip(uid: nat, status: nat, mtu: nat, ip: Addr, mask: Addr, dns1: Addr, dns2: Addr)
    requires uid < 0x1_0000_0000_0000_0000 && mtu < 0x1_0000
    ensures var f := ConfigResp(uid, status, mtu, ip, mask, dns1, dns2);
            && ClientVerdict(f) == Response(uid, mtu, ip, mask, dns1, dns2)
            && ServerVerdict(f) == Unsupported(CONFIG_RESP)
  {
    var f := ConfigResp(uid, status, mtu, ip, mask, dns1, dns2);
    ResponseEnvelope(uid, status, mtu, ip, mask, dns1, dns2);
    EnvelopeReads(f, CONFIG_RESP, uid);
    ResponseBody(Envelope(CONFIG_RESP, uid), status, mtu, ip, mask, dns1, dns2);
    Spans();
    RoundTrip(mtu, 2);
  }

  lemma ResponseEnvelope(uid: nat, status: nat, mtu: nat, ip: Addr, mask: Addr, dns1: Addr, dns2: Addr)
    ensures HasEnvelope(ConfigResp(uid, status, mtu, ip, mask, dns1, dns2), CONFIG_RESP, uid)
  {
    var e := Envelope(CONFIG_RESP, uid);
    var f0 := Write(e, 24, ToBytes(status, 4));
    var f1 := Write(f0, 44, ToBytes(mtu, 2));
    var f2 := Write(f1, 28, ip);
    var f3 := Write(f2, 32, mask);
    var f4 := Write(f3, 36, dns1);
    EnvelopeHas(CONFIG_RESP, uid);
    BodyWrite(e, 24, ToBytes(status, 4), CONFIG_RESP, uid);
    BodyWrite(f0, 44, ToBytes(mtu, 2), CONFIG_RESP, uid);
    BodyWrite(f1, 28, ip, CONFIG_RESP, uid);
    BodyWrite(f2, 32, mask, CONFIG_RESP, uid);
    BodyWrite(f3, 36, dns1, CONFIG_RESP, uid);
    BodyWrite(f4, 40, dns2, CONFIG_RESP, uid);
  }

  /** The fields of the response body, in the order the builder assigns them. */
  lemma ResponseBody(e: seq<Byte>, status: nat, mtu: nat, ip: Addr, mask: Addr, dns1: Addr, dns2: Addr)
    requires |e| == FRAME
    ensures var f1 := Write(Write(e, 24, ToBytes(status, 4)), 44, ToBytes(mtu, 2));
            var f := Write(Write(Write(Write(f1, 28, ip), 32, mask), 36, dns1), 40, dns2);
            && f[44..46] == ToBytes(mtu, 2)
            && f[28..32] == ip && f[32..36] == mask && f[36..40] == dns1 && f[40..44] == dns2
  {
    var f0 := Write(e, 24, ToBytes(status, 4));
    var f1 := Write(f0, 44, ToBytes(mtu, 2));
    var f2 := Write(f1, 28, ip);
    var f3 := Write(f2, 32, mask);
    var f4 := Write(f3, 36, dns1);
    ReadWrite(f0, 44, ToBytes(mtu, 2));
    ReadWrite(f1, 28, ip);
    ReadWrite(f2, 32, mask);
    ReadWrite(f3, 36, dns1);
    ReadWrite(f4, 40, dns2);
  }

  /** The bytes of a response that the client does not read: the body's uid, the status and the padding. */
  lemma ResponseLayout(uid: nat, status: nat, mtu: nat, ip: Addr, mask: Addr, dns1: Addr, dns2: Addr)
    requires status < 0x1_0000_0000
    ensures var f := ConfigResp(uid, status, mtu, ip, mask, dns1, dns2);
            f[16..24] == Zeros(8) && FromBytes(f[24..28]) == status && f[46..1020] == Zeros(974)
  {
    var e := Envelope(CONFIG_RESP, uid);
    EnvelopeHas(CONFIG_RESP, uid);
    assert e[16..24] == e[16..1020][0..8] == Zeros(8);
    assert e[46..1020] == e[16..1020][30..1004] == Zeros(974);
    ResponseKeeps(e, status, mtu, ip, mask, dns1, dns2);
    Spans();
    RoundTrip(status, 4);
  }

  lemma ResponseKeeps(e: seq<Byte>, status: nat, mtu: nat, ip: Addr, mask: Addr, dns1: Addr, dns2: Addr)
    requires |e| == FRAME
    ensures var f1 := Write(Write(e, 24, ToBytes(status, 4)), 44, ToBytes(mtu, 2));
            var f := Write(Write(Write(Write(f1, 28, ip), 32, mask), 36, dns1), 40, dns2);
            f[16..24] == e[16..24] && f[24..28] == ToBytes(status, 4) && f[46..1020] == e[46..1020]
  {
    var f0 := Write(e, 24, ToBytes(status, 4));
    var f1 := Write(f0, 44, ToBytes(mtu, 2));
    var f2 := Write(f1, 28, ip);
    var f3 := Write(f2, 32, mask);
    var f4 := Write(f3, 36, dns1);
    ReadWrite(e, 24, ToBytes(status, 4));
    ReadWrite(f0, 44, ToBytes(mtu, 2));
    ReadWrite(f1, 28, ip);
    ReadWrite(f2, 32, mask);
    ReadWrite(f3, 36, dns1);
    ReadWrite(f4, 40, dns2);
  }

  /** Ten framing bytes decide acceptance at both ends, and the two type bytes which end acts on the frame. */
  lemma AcceptedExactly(f: seq<Byte>)
    requires |f| == FRAME
    ensures ServerVerdict(f) != Dropped <==>
            f[0..2] == [4, 0] && f[2..6] == [0xAA, 0xBB, 0xCC, 0xDD] && f[1020..1024] == [0xDD, 0xBB, 0xCC, 0xAA]
    ensures ServerVerdict(f) == Dropped <==> ClientVerdict(f) == Dropped
    ensures ServerVerdict(f).Request? <==> ServerVerdict(f) != Dropped && f[6..8] == [0, 1]
    ensures ClientVerdict(f).Response? <==> ClientVerdict(f) != Dropped && f[6..8] == [0, 2]
  {
    WireConstants();
    Inverse(f[6..8]);
    KindBytes();
    Inverse(f[0..2]);
    Inverse(f[2..6]);
    Inverse(f[1020..1024]);
    Spans();
    RoundTrip(FRAME, 2);
    RoundTrip(HEAD_MAGIC, 4);
    RoundTrip(TAIL_MAGIC, 4);
  }

  lemma KindBytes()
    ensures ToBytes(CONFIG_REQ, 2) == [0, 1] && ToBytes(CONFIG_RESP, 2) == [0, 2]
    ensures FromBytes([0, 1]) == CONFIG_REQ && FromBytes([0, 2]) == CONFIG_RESP
  {
    Spans();
    assert ToBytes(0, 1) == [0];
    RoundTrip(CONFIG_REQ, 2);
    RoundTrip(CONFIG_RESP, 2);
  }

  lemma WireConstants()
    ensures ToBytes(FRAME, 2) == [4, 0]
    ensures ToBytes(HEAD_MAGIC, 4) == [0xAA, 0xBB, 0xCC, 0xDD] && ToBytes(TAIL_MAGIC, 4) == [0xDD, 0xBB, 0xCC, 0xAA]
  {
    assert ToBytes(0xAABB, 2) == [0xAA, 0xBB];
    assert ToBytes(0xDDBB, 2) == [0xDD, 0xBB];
    assert ToBytes(HEAD_MAGIC, 4) == (ToBytes(0xAABB, 2) + [0xCC]) + [0xDD];
    assert ToBytes(TAIL_MAGIC, 4) == (ToBytes(0xDDBB, 2) + [0xCC]) + [0xAA];
  }

  // ------------------------------------------------------------- over the stream

  datatype Req = Req(uid: nat, family: Byte, host: seq<Byte>)

  function Encoded(rs: seq<Req>): seq<seq<Byte>> {
    seq(|rs|, i requires 0 <= i < |rs| => ConfigReq(rs[i].uid, rs[i].family, rs[i].host))
  }

  /**
   Requests sent back to back reach the server, one verdict each and in order, however
   the transport cuts the stream into buffers and events.
   */
  lemma RequestsSurviveFragmentation(rs: seq<Req>, ds: seq<Delivery>, i: nat)
    requires forall k :: 0 <= k < |rs| ==> rs[k].uid < 0x1_0000_0000_0000_0000
    requires Faithful([], ds) && Stream(ds) == Concat(Encoded(rs)) && i < |rs|
    ensures |Handled(ds)| == |rs| && |Handled(ds)[i]| == FRAME
    ensures ServerVerdict(Handled(ds)[i]) == Request(rs[i].uid, rs[i].family, Shortened(rs[i].host))
    ensures Received(rs[i].host, Shortened(rs[i].host))
  {
    SentIsHandled(Encoded(rs), ds);
    RequestRoundTrip(rs[i].uid, rs[i].family, rs[i].host);
  }

  datatype Resp = Resp(uid: nat, status: nat, mtu: nat, ip: Addr, mask: Addr, dns1: Addr, dns2: Addr)

  function Answer(r: Resp): (f: seq<Byte>)
    ensures |f| == FRAME
  {
    ConfigResp(r.uid, r.status, r.mtu, r.ip, r.mask, r.dns1, r.dns2)
  }

  function Answers(rs: seq<Resp>): seq<seq<Byte>> {
    seq(|rs|, i requires 0 <= i < |rs| => Answer(rs[i]))
  }

  /**
   Responses sent back to back reach the client in order, up to and including the first it
   cannot act on, however the transport cuts the stream.
   */
  lemma ResponsesSurviveFragmentation(rs: seq<Resp>, ds: seq<Delivery>, fails: nat -> bool, i: nat)
    requires forall k :: 0 <= k < |rs| ==> rs[k].uid < 0x1_0000_0000_0000_0000 && rs[k].mtu < 0x1_0000
    requires Faithful([], ds) && Stream(Heard(ds)) == Concat(Answers(rs)) && i < |rs|
    ensures ClientHandled(ds, fails, 0) == Kept(Answers(rs), fails, 0)
    ensures Clean(fails, 0, i) ==>
              && i < |ClientHandled(ds, fails, 0)| && |ClientHandled(ds, fails, 0)[i]| == FRAME
              && ClientVerdict(ClientHandled(ds, fails, 0)[i])
                 == Response(rs[i].uid, rs[i].mtu, rs[i].ip, rs[i].mask, rs[i].dns1, rs[i].dns2)
  {
    ClientFragmentation(ds, fails);
    FramesOfConcat(Answers(rs));
    if Clean(fails, 0, i) {
      KeptReaches(Answers(rs), fails, 0, i);
    }
    ResponseRoundTrip(rs[i].uid, rs[i].status, rs[i].mtu, rs[i].ip, rs[i].mask, rs[i].dns1, rs[i].dns2);
  }

  // ------------------------------------------------------------- the builders

  method Header(pkt: array<Byte>, kind: nat, uid: nat)
    requires pkt.Length == FRAME && pkt[..] == Zeros(FRAME)
    modifies pkt
    ensures pkt[..] == Envelope(kind, uid)
  {
    Assign(pkt, 0, ToBytes(FRAME, 2));
    Assign(pkt, 2, ToBytes(HEAD_MAGIC, 4));
    Assign(pkt, 6, ToBytes(kind, 2));
    Assign(pkt, 8, ToBytes(uid, 8));
    Assign(pkt, 1020, ToBytes(TAIL_MAGIC, 4));
  }

  /** `pkt_ctrl_create_config_req`; no hostname leaves the field zero. */
  method CreateConfigReq(uid: nat, family: Byte, host: seq<Byte>) returns (pkt: array<Byte>)
    ensures fresh(pkt) && pkt[..] == ConfigReq(uid, family, host)
  {
    pkt := new Byte[FRAME](_ => 0);
    assert pkt[..] == Zeros(FRAME);
    Header(pkt, CONFIG_REQ, uid);
    Assign(pkt, 16, [family]);
    Assign(pkt, 17, Shortened(host));
  }

  /** `pkt_ctrl_create_config_resp` */
  method CreateConfigResp(uid: nat, status: nat, mtu: nat, ip: Addr, mask: Addr, dns1: Addr, dns2: Addr)
    returns (pkt: array<Byte>)
    ensures fresh(pkt) && pkt[..] == ConfigResp(uid, status, mtu, ip, mask, dns1, dns2)
  {
    pkt := new Byte[FRAME](_ => 0);
    assert pkt[..] == Zeros(FRAME);
    Header(pkt, CONFIG_RESP, uid);
    Assign(pkt, 24, ToBytes(status, 4));
    Assign(pkt, 44, ToBytes(mtu, 2));
    Assign(pkt, 28, ip);
    Assign(pkt, 32, mask);
    Assign(pkt, 36, dns1);
    Assign(pkt, 40, dns2);
  }
}
