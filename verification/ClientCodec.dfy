/**
 Framing between the gate and its clients (gateserver/ClientCodec.h):

   int32 packetLen | int16 headerLen = 16 | int16 version = 1 | int32 op | int32 seq | body

 where `packetLen` counts the whole packet.
 */
module ClientCodec {
  import opened Endian
  import opened Incremental
  import opened Buffers

  const HEADER_LEN: nat := 4
  const PACKET_HEADER: nat := 16
  const MAX_PACKET: nat := 65536

  /** Callbacks and exits of onMessage; `Undersized` is a length too short for the fixed header. */
  datatype Event =
    | Packet(op: int, id: int, body: Bytes)
    | InvalidLength
    | Undersized

  type Events = seq<Event>

  predicate IsInt32(x: int) { -TWO31 <= x < TWO31 }

  function Tail(op: int, id: int, body: Bytes): (t: Bytes)
    ensures |t| == 12 + |body|
  {
    Field16(16) + Field16(1) + Field32(op) + Field32(id) + body
  }

  /** What fillEmptyBuffer puts into the buffer. */
  function Frame(op: int, id: int, body: Bytes): (f: Bytes)
    ensures |f| == PACKET_HEADER + |body|
  {
    Field32(|Tail(op, id, body)| + 4) + Tail(op, id, body)
  }

  /** Any bytes already there end up behind the length; `send` passes a new buffer. */
  method FillEmptyBuffer(buf: Buffer, op: int, id: int, body: Bytes)
    requires buf.Valid() && buf.PrependableBytes() >= 4
    modifies buf, buf.data
    ensures buf.Valid() && (buf.data == old(buf.data) || fresh(buf.data))
    ensures var all := old(buf.Contents()) + Tail(op, id, body); buf.Contents() == Field32(|all| + 4) + all
    ensures old(buf.Contents()) == [] ==> buf.Contents() == Frame(op, id, body)
  {
    ghost var before := buf.Contents();
    AppendFields(buf, op, id, body);
    assert before == [] ==> before + Tail(op, id, body) == Tail(op, id, body);
    var len := buf.ReadableBytes();
    buf.Prepend(Field32(len + 4));
  }

  method AppendFields(buf: Buffer, op: int, id: int, body: Bytes)
    requires buf.Valid()
    modifies buf, buf.data
    ensures buf.Valid() && (buf.data == old(buf.data) || fresh(buf.data))
    ensures buf.Contents() == old(buf.Contents()) + Tail(op, id, body)
    ensures buf.PrependableBytes() == old(buf.PrependableBytes()) || buf.PrependableBytes() == CHEAP_PREPEND
  {
    ghost var before := buf.Contents();
    buf.Append(Field16(16));
    buf.Append(Field16(1));
    buf.Append(Field32(op));
    buf.Append(Field32(id));
    buf.Append(body);
    Regroup(before, Field16(16), Field16(1), Field32(op), Field32(id), body);
  }

  lemma Regroup(z: Bytes, a: Bytes, b: Bytes, c: Bytes, d: Bytes, e: Bytes)
    ensures z + a + b + c + d + e == z + (a + b + c + d + e)
  {
  }

  /** One turn of the onMessage loop. The length is compared as an unsigned number. */
  function Decode(got: Events, b: Bytes): Step<Events> {
    if |b| < HEADER_LEN then Wait
    else
      var len := Int32Of(b[..4]);
      if len > MAX_PACKET || len < 0 then Stop(got + [InvalidLength], 0)
      else if |b| < len then Wait
      else if len < PACKET_HEADER then Stop(got + [Undersized], 0)
      else Go(got + [Packet(Int32Of(b[8..12]), Int32Of(b[12..16]), b[16..len])], len)
  }

  lemma DecodeLaws()
    ensures Productive(Decode) && PrefixStable(Decode) && Patient(Decode)
  {
    forall got: Events, a: Bytes, b: Bytes | !Decode(got, a).Wait?
      ensures Decode(got, a + b) == Decode(got, a)
    {
      assert (a + b)[..4] == a[..4];
      var len := Int32Of(a[..4]);
      if PACKET_HEADER <= len <= MAX_PACKET {
        assert (a + b)[8..12] == a[8..12] && (a + b)[12..16] == a[12..16] && (a + b)[16..len] == a[16..len];
      }
    }
  }

  lemma FieldsOf(b: Bytes, len: nat)
    requires PACKET_HEADER <= len <= |b|
    ensures b[8..][..4] == b[8..12] && b[8..][4..] == b[12..]
    ensures b[12..][..4] == b[12..16] && b[12..][4..] == b[16..]
    ensures b[16..][0..len - 16] == b[16..len] && b[16..][len - 16..] == b[len..]
  {
  }

  /** Takes a complete packet off the buffer piece by piece. */
  method TakePacket(buf: Buffer, len: nat) returns (e: Event)
    requires buf.Valid() && PACKET_HEADER <= len <= |buf.Contents()|
    modifies buf
    ensures buf.Valid() && buf.data == old(buf.data)
    ensures var b := old(buf.Contents());
            e == Packet(Int32Of(b[8..12]), Int32Of(b[12..16]), b[16..len]) && buf.Contents() == b[len..]
  {
    FieldsOf(buf.Contents(), len);
    buf.Retrieve(HEADER_LEN + 4);
    var op := buf.PeekInt32();
    buf.Retrieve(4);
    var id := buf.PeekInt32();
    buf.Retrieve(4);
    var body := buf.Peek(0, len - PACKET_HEADER);
    e := Packet(op, id, body);
    buf.Retrieve(len - PACKET_HEADER);
  }

  method OnMessage(buf: Buffer, delivered: Events) returns (events: Events, stopped: bool)
    requires buf.Valid()
    modifies buf
    ensures buf.Valid() && buf.data == old(buf.data)
    ensures Outcome(events, buf.Contents(), stopped) == Drain(Decode, delivered, old(buf.Contents()))
  {
    DecodeLaws();
    events, stopped := delivered, false;
    while buf.ReadableBytes() >= HEADER_LEN
      invariant buf.Valid() && buf.data == old(buf.data)
      invariant Drain(Decode, events, buf.Contents()) == Drain(Decode, delivered, old(buf.Contents()))
      decreases buf.ReadableBytes()
    {
      ghost var b := buf.Contents();
      assert b[0..] == b;
      var len := buf.PeekInt32();
      if len > MAX_PACKET || len < 0 {
        events, stopped := events + [InvalidLength], true;
        return;
      } else if buf.ReadableBytes() >= len {
        if len < PACKET_HEADER {
          events, stopped := events + [Undersized], true;
          return;
        }
        var e := TakePacket(buf, len);
        assert Decode(events, b) == Go(events + [e], len);
        events := events + [e];
      } else {
        return;
      }
    }
  }

  lemma TailFields(op: int, id: int, body: Bytes)
    ensures var t := Tail(op, id, body);
            t[..2] == Field16(16) && t[2..4] == Field16(1) && t[4..8] == Field32(op) && t[8..12] == Field32(id) && t[12..] == body
  {
  }

  lemma FrameFields(op: int, id: int, body: Bytes)
    ensures var f := Frame(op, id, body);
            && f[..4] == Field32(|f|) && f[4..6] == Field16(16) && f[6..8] == Field16(1)
            && f[8..12] == Field32(op) && f[12..16] == Field32(id) && f[16..] == body
  {
    var f, t := Frame(op, id, body), Tail(op, id, body);
    TailFields(op, id, body);
    assert f[4..] == t;
    assert f[4..6] == t[..2] && f[6..8] == t[2..4] && f[8..12] == t[4..8] && f[12..16] == t[8..12] && f[16..] == t[12..];
  }

  lemma DecodeWhole(f: Bytes, got: Events, tail: Bytes)
    requires PACKET_HEADER <= |f| <= MAX_PACKET && Int32Of(f[..4]) == |f|
    ensures Decode(got, f + tail) == Go(got + [Packet(Int32Of(f[8..12]), Int32Of(f[12..16]), f[16..])], |f|)
  {
    var b := f + tail;
    assert b[..4] == f[..4];
    assert b[8..12] == f[8..12];
    assert b[12..16] == f[12..16];
    assert b[16..|f|] == f[16..];
  }

  lemma DecodePartial(f: Bytes, got: Events, p: Bytes)
    requires PACKET_HEADER <= |f| <= MAX_PACKET && Int32Of(f[..4]) == |f| && p < f
    ensures Decode(got, p) == Wait
  {
    if |p| >= 4 {
      assert p[..4] == f[..4];
    }
  }

  lemma SentIsFrame(op: int, id: int, body: Bytes)
    requires IsInt32(op) && IsInt32(id) && |body| <= MAX_PACKET - PACKET_HEADER
    ensures Frames(Decode, Frame(op, id, body), Packet(op, id, body))
  {
    var f := Frame(op, id, body);
    FrameFields(op, id, body);
    Field32RoundTrip(|f|);
    Field32RoundTrip(op);
    Field32RoundTrip(id);
    forall got: Events, tail: Bytes ensures Decode(got, f + tail) == Go(got + [Packet(op, id, body)], |f|) {
      DecodeWhole(f, got, tail);
    }
    forall got: Events, p: Bytes | p < f ensures Decode(got, p) == Wait {
      DecodePartial(f, got, p);
    }
  }

  /** A packet comes back from the decoder exactly when its body is at most 65520 bytes long. */
  lemma ComesBackIffShort(op: int, id: int, body: Bytes)
    requires IsInt32(op) && IsInt32(id)
    ensures Decode([], Frame(op, id, body)) == Go([Packet(op, id, body)], |Frame(op, id, body)|)
            <==> |body| <= MAX_PACKET - PACKET_HEADER
  {
    var f := Frame(op, id, body);
    if |body| <= MAX_PACKET - PACKET_HEADER {
      SentIsFrame(op, id, body);
      assert f + [] == f;
      assert Decode([], f + []) == Go([] + [Packet(op, id, body)], |f|);
      assert [] + [Packet(op, id, body)] == [Packet(op, id, body)];
    }
  }

  predicate Sendable(e: Event) {
    e.Packet? && IsInt32(e.op) && IsInt32(e.id) && |e.body| <= MAX_PACKET - PACKET_HEADER
  }

  predicate AllSendable(ps: Events) {
    forall i :: 0 <= i < |ps| ==> Sendable(ps[i])
  }

  function WireAll(ps: Events): (fs: seq<Bytes>)
    requires AllSendable(ps)
    ensures |fs| == |ps| && forall i :: 0 <= i < |ps| ==> fs[i] == Frame(ps[i].op, ps[i].id, ps[i].body)
  {
    if ps == [] then [] else [Frame(ps[0].op, ps[0].id, ps[0].body)] + WireAll(ps[1..])
  }

  /** What ends a connection: a length out of range, or a complete packet too short for its header. */
  predicate Malformed(b: Bytes, e: Event) {
    && |b| >= 4
    && var len := Int32Of(b[..4]);
       || ((len < 0 || len > 65536) && e == InvalidLength)
       || (0 <= len < 16 && len <= |b| && e == Undersized)
  }

  /** Whatever follows the packets, a malformed length ends the decoding there, with nothing used of it. */
  lemma MalformedStops(ps: Events, bad: Bytes, e: Event, chunks: seq<Bytes>)
    requires AllSendable(ps) && Malformed(bad, e) && Flatten(chunks) == Flatten(WireAll(ps)) + bad
    ensures Feed(Decode, [], [], chunks) == Outcome(ps + [e], bad, true)
  {
    DecodeLaws();
    SentAreFrames(ps);
    forall got: Events ensures Decode(got, bad) == Stop(got + [e], 0) { }
    StopsAfterFrames(Decode, WireAll(ps), ps, bad, e, 0, chunks);
    assert bad[0..] == bad;
  }

  lemma SentAreFrames(ps: Events)
    requires AllSendable(ps)
    ensures AllFrames(Decode, WireAll(ps), ps)
  {
    forall i | 0 <= i < |ps| ensures Frames(Decode, WireAll(ps)[i], ps[i]) {
      assert Sendable(ps[i]);
      SentIsFrame(ps[i].op, ps[i].id, ps[i].body);
    }
  }

  /**
   Every chunking of the concatenated packets delivers them in order and once each, never
   takes the invalid-length exit, and leaves only the unfinished tail in the buffer.
   */
  lemma StreamDelivered(ps: Events, chunks: seq<Bytes>) returns (k: nat)
    requires AllSendable(ps)
    requires Flatten(chunks) <= Flatten(WireAll(ps))
    ensures k <= |ps|
    ensures var o := Feed(Decode, [], [], chunks);
            && !o.stopped && o.state == ps[..k]
            && Flatten(WireAll(ps)[..k]) + o.rest == Flatten(chunks)
            && (if k < |ps| then o.rest < WireAll(ps)[k] else o.rest == [])
    ensures Flatten(chunks) == Flatten(WireAll(ps)) ==> k == |ps|
  {
    DecodeLaws();
    SentAreFrames(ps);
    k := DeliveredInOrder(Decode, WireAll(ps), ps, chunks);
  }
}
