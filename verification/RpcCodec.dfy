/**
 Framing of RPC messages (rpc/RpcCodec.h, rpc/RpcCodec.cc):

   int32 len | uint64 id | int32 nameLen | service:method NUL | payload

 where the top bit of the id marks a response and `len` counts all that follows it.
 */
module RpcCodec {
  import opened Endian
  import opened Text
  import opened Incremental
  import opened Buffers

  const HEADER_LEN: nat := 4
  const ID_LEN: nat := 8
  const MIN_MESSAGE_LEN: nat := ID_LEN + HEADER_LEN + 3
  const MAX_MESSAGE_LEN: nat := 64 * 1024 * 1024

  datatype ErrorCode = InvalidLength | InvalidNameLen

  /** The callbacks onMessage makes, plus the one malformed frame it reads past the end of. */
  datatype Event =
    | Message(isResponse: bool, id: nat, service: Bytes, method_: Bytes, data: Bytes)
    | Error(code: ErrorCode)
    | Overread

  type Events = seq<Event>

  /** name.size() + 1, kept in an `int32_t`. */
  function NameLen(name: Bytes): int {
    AsInt32((|name| + 1) % TWO32)
  }

  /** The bytes appended for the name: so many of its characters and its terminating NUL. */
  function NameBytes(name: Bytes): (b: Bytes)
    requires NameLen(name) >= 0
    ensures |b| == NameLen(name) <= |name| + 1
  {
    ModAtMost(|name| + 1);
    (name + ['\0'])[..NameLen(name)]
  }

  lemma ModAtMost(n: nat)
    ensures n % TWO32 <= n
    ensures n < TWO31 ==> AsInt32(n % TWO32) == n
  {
  }

  /** Short enough names are appended whole. */
  lemma WholeName(name: Bytes)
    requires |name| + 1 < TWO31
    ensures NameLen(name) == |name| + 1 && NameBytes(name) == name + ['\0']
  {
    ModAtMost(|name| + 1);
  }

  /** What fillEmptyBuffer puts into the buffer. */
  function Frame(id: nat, name: Bytes, payload: Bytes): (f: Bytes)
    requires id < TWO64 && NameLen(name) >= 0
    ensures |f| == HEADER_LEN + ID_LEN + HEADER_LEN + NameLen(name) + |payload|
  {
    var body := Body(id, name, payload);
    Field32(|body|) + body
  }

  function Body(id: nat, name: Bytes, payload: Bytes): (b: Bytes)
    requires id < TWO64 && NameLen(name) >= 0
    ensures |b| == ID_LEN + HEADER_LEN + NameLen(name) + |payload|
  {
    Field64(id) + Field32(|name| + 1) + NameBytes(name) + payload
  }

  method FillEmptyBuffer(buf: Buffer, id: nat, name: Bytes, payload: Bytes)
    requires buf.Valid() && buf.Contents() == [] && buf.PrependableBytes() >= HEADER_LEN
    requires id < TWO64 && NameLen(name) >= 0
    modifies buf, buf.data
    ensures buf.Valid() && (buf.data == old(buf.data) || fresh(buf.data))
    ensures buf.Contents() == Frame(id, name, payload)
  {
    buf.Append(Field64(id));
    assert buf.Contents() == Field64(id);
    buf.Append(Field32(|name| + 1));
    buf.Append(NameBytes(name));
    buf.EnsureWritableBytes(|payload|);
    buf.Fill(payload);
    assert buf.Contents() == Body(id, name, payload);
    var len := buf.ReadableBytes();
    buf.Prepend(Field32(len));
  }

  /** The fields of one complete frame, in the order the source checks them. */
  function ParseFrame(f: Bytes): Event
    requires |f| >= MIN_MESSAGE_LEN + HEADER_LEN
  {
    var len := |f| - HEADER_LEN;
    var id := UInt64Of(f[4..12]);
    var nameLen := Int32Of(f[12..16]);
    if nameLen < 3 || nameLen > len - 2 * HEADER_LEN then Error(InvalidNameLen)
    else if nameLen > len - HEADER_LEN - ID_LEN then Overread
    else
      var typeName := f[16..16 + nameLen];
      var pos := IndexOf(typeName, ':');
      if pos == |typeName| then Error(InvalidNameLen)
      else Message(id >= TWO63, id % TWO63, typeName[..pos], typeName[pos + 1..], f[16 + nameLen..])
  }

  /** One turn of the onMessage loop. */
  function Decode(got: Events, b: Bytes): Step<Events> {
    if |b| < MIN_MESSAGE_LEN + HEADER_LEN then Wait
    else
      var len := Int32Of(b[..4]);
      if len > MAX_MESSAGE_LEN || len < MIN_MESSAGE_LEN then Stop(got + [Error(InvalidLength)], 0)
      else if |b| < len + HEADER_LEN then Wait
      else
        var e := ParseFrame(b[..len + HEADER_LEN]);
        if e.Message? then Go(got + [e], len + HEADER_LEN) else Stop(got + [e], len + HEADER_LEN)
  }

  lemma DecodeLaws()
    ensures Productive(Decode) && PrefixStable(Decode) && Patient(Decode)
  {
    forall got: Events, a: Bytes, b: Bytes | !Decode(got, a).Wait?
      ensures Decode(got, a + b) == Decode(got, a)
    {
      assert (a + b)[..4] == a[..4];
      var len := Int32Of(a[..4]);
      if MIN_MESSAGE_LEN <= len <= MAX_MESSAGE_LEN {
        assert (a + b)[..len + HEADER_LEN] == a[..len + HEADER_LEN];
      }
    }
  }

  /** The body of the onMessage loop, up to but without consuming the frame. */
  method Turn(buf: Buffer, events: Events) returns (s: Step<Events>)
    requires buf.Valid() && buf.ReadableBytes() >= MIN_MESSAGE_LEN + HEADER_LEN
    ensures s == Decode(events, buf.Contents())
  {
    var len := buf.PeekInt32();
    if len > MAX_MESSAGE_LEN || len < MIN_MESSAGE_LEN {
      s := Stop(events + [Error(InvalidLength)], 0);
    } else if buf.ReadableBytes() >= len + HEADER_LEN {
      var f := buf.Peek(0, len + HEADER_LEN);
      assert f == buf.Contents()[..len + HEADER_LEN];
      var e := ParseFrame(f);
      s := if e.Message? then Go(events + [e], len + HEADER_LEN) else Stop(events + [e], len + HEADER_LEN);
    } else {
      s := Wait;
    }
  }

  method OnMessage(buf: Buffer, delivered: Events) returns (events: Events, stopped: bool)
    requires buf.Valid()
    modifies buf
    ensures buf.Valid() && buf.data == old(buf.data)
    ensures Outcome(events, buf.Contents(), stopped) == Drain(Decode, delivered, old(buf.Contents()))
  {
    DecodeLaws();
    events, stopped := delivered, false;
    while buf.ReadableBytes() >= MIN_MESSAGE_LEN + HEADER_LEN
      invariant buf.Valid() && buf.data == old(buf.data)
      invariant Drain(Decode, events, buf.Contents()) == Drain(Decode, delivered, old(buf.Contents()))
      decreases buf.ReadableBytes()
    {
      var s := Turn(buf, events);
      match s {
        case Wait =>
          return;
        case Go(next, used) =>
          events := next;
          buf.Retrieve(used);
        case Stop(final, used) =>
          events, stopped := final, true;
          buf.Retrieve(used);
          return;
      }
    }
  }

  // ----- frames whose name is up to four bytes too long

  /** What onMessage reads off a frame: the data starts at `at`, and its length may come out negative. */
  datatype RawRead =
    | Rejected
    | Read(isResponse: bool, id: nat, service: Bytes, method_: Bytes, at: nat, dataLen: int)

  /** The code's own reads, with the memory behind the frame: the bound on the name leaves out four bytes of the header. */
  function RawParse(f: Bytes, behind: Bytes): RawRead
    requires |f| >= MIN_MESSAGE_LEN + HEADER_LEN && |behind| >= 4
  {
    var len := |f| - HEADER_LEN;
    var id := UInt64Of(f[4..12]);
    var nameLen := Int32Of(f[12..16]);
    if nameLen < 3 || nameLen > len - 2 * HEADER_LEN then Rejected
    else
      var typeName := (f + behind)[16..16 + nameLen];
      var pos := IndexOf(typeName, ':');
      if pos == |typeName| then Rejected
      else Read(id >= TWO63, id % TWO63, typeName[..pos], typeName[pos + 1..], 16 + nameLen, len - nameLen - HEADER_LEN - ID_LEN)
  }

  /** The name passes the code's bound and does not fit into the frame. */
  predicate TooLong(f: Bytes)
    requires |f| >= MIN_MESSAGE_LEN + HEADER_LEN
  {
    var len, nameLen := |f| - HEADER_LEN, Int32Of(f[12..16]);
    3 <= nameLen && len - HEADER_LEN - ID_LEN < nameLen <= len - 2 * HEADER_LEN
  }

  /** The callback for a read that stays within the frame. */
  function EventOf(f: Bytes, r: RawRead): Event
    requires r.Read? ==> r.at <= |f|
  {
    match r
    case Rejected => Error(InvalidNameLen)
    case Read(isResponse, id, service, method_, at, _) => Message(isResponse, id, service, method_, f[at..])
  }

  /** Otherwise the code reads what `ParseFrame` says, whatever lies behind the frame. */
  lemma RawParseIsParse(f: Bytes, behind: Bytes)
    requires |f| >= MIN_MESSAGE_LEN + HEADER_LEN && |behind| >= 4
    ensures var r := RawParse(f, behind);
            if TooLong(f) then ParseFrame(f) == Overread && (r.Read? ==> r.dataLen < 0)
            else (r.Read? ==> r.at + r.dataLen == |f| && r.dataLen >= 0) && ParseFrame(f) == EventOf(f, r)
  {
    var nameLen := Int32Of(f[12..16]);
    if 3 <= nameLen <= |f| - 16 {
      assert (f + behind)[16..16 + nameLen] == f[16..16 + nameLen];
    }
  }

  /** The code's verdict on a frame does not depend on the bytes behind it. */
  ghost predicate ReadsWithin(f: Bytes)
    requires |f| >= MIN_MESSAGE_LEN + HEADER_LEN
  {
    forall a: Bytes, b: Bytes :: |a| >= 4 && |b| >= 4 ==> RawParse(f, a) == RawParse(f, b)
  }

  lemma NameIntoTail(f: Bytes, tail: Bytes, nameLen: nat)
    requires |f| >= 16 && |tail| == 4 && |f| - 16 < nameLen <= |f| - 12
    ensures var name, k := (f + tail)[16..16 + nameLen], |f| - 16;
            name[..k] == f[16..] && name[k] == tail[0] && forall j :: k < j < nameLen ==> name[j] == tail[j - k]
  {
  }

  /** Names that agree up to `k`, where one has a colon and the other none from there on, are not split alike. */
  lemma SplitsDiffer(a: Bytes, b: Bytes, k: nat)
    requires k < |a| == |b| && a[..k] == b[..k] && a[k] == ':' && forall j :: k <= j < |b| ==> b[j] != ':'
    ensures IndexOf(a, ':') < |a|
    ensures var p := IndexOf(b, ':'); p < |b| ==> IndexOf(a, ':') == p && a[p + 1..] != b[p + 1..]
  {
    var p := IndexOf(b, ':');
    if p < |b| {
      assert a[..p] == a[..k][..p] && b[..p] == b[..k][..p] && a[p] == a[..k][p];
      IndexOfUnique(a, ':', p);
      assert a[p + 1..][k - p - 1] != b[p + 1..][k - p - 1];
    } else {
      assert a[..|a|] == a;
    }
  }

  /** A colon or another letter behind the frame makes the difference. */
  lemma TailsDiffer(f: Bytes)
    requires |f| >= MIN_MESSAGE_LEN + HEADER_LEN && TooLong(f)
    ensures RawParse(f, ":aaa") != RawParse(f, "baaa")
  {
    var nameLen := Int32Of(f[12..16]);
    NameIntoTail(f, ":aaa", nameLen);
    NameIntoTail(f, "baaa", nameLen);
    SplitsDiffer((f + ":aaa")[16..16 + nameLen], (f + "baaa")[16..16 + nameLen], |f| - 16);
  }

  /** Exactly the frames with an over-long name are decided by bytes that are not theirs. */
  lemma ReadsWithinIffNotTooLong(f: Bytes)
    requires |f| >= MIN_MESSAGE_LEN + HEADER_LEN
    ensures ReadsWithin(f) <==> !TooLong(f)
  {
    if TooLong(f) {
      TailsDiffer(f);
    } else {
      forall a: Bytes, b: Bytes | |a| >= 4 && |b| >= 4 ensures RawParse(f, a) == RawParse(f, b) {
        var nameLen := Int32Of(f[12..16]);
        if 3 <= nameLen <= |f| - 16 {
          assert (f + a)[16..16 + nameLen] == f[16..16 + nameLen] == (f + b)[16..16 + nameLen];
        }
      }
    }
  }

  lemma FourParts(a: Bytes, b: Bytes, c: Bytes, d: Bytes)
    requires |a| == 4 && |b| == 8 && |c| == 4
    ensures var f := a + b + c + d; f[..4] == a && f[4..12] == b && f[12..16] == c && f[16..] == d
  {
  }

  /** Seven bytes of name announced, three sent. */
  const ShortOfName: Bytes := Field32(15) + Field64(0) + Field32(7) + "abc"

  lemma ShortFields()
    ensures var f := ShortOfName;
            && |f| == MIN_MESSAGE_LEN + HEADER_LEN && f[16..] == "abc"
            && Int32Of(f[..4]) == 15 && UInt64Of(f[4..12]) == 0 && Int32Of(f[12..16]) == 7
  {
    FourParts(Field32(15), Field64(0), Field32(7), "abc");
    Field32RoundTrip(15);
    Field64RoundTrip(0);
    Field32RoundTrip(7);
  }

  lemma ShortRead(f: Bytes, behind: Bytes)
    requires |f| == 19 && |behind| == 4 && UInt64Of(f[4..12]) == 0 && Int32Of(f[12..16]) == 7
    ensures var name := f[16..] + behind; var pos := IndexOf(name, ':');
            RawParse(f, behind) == if pos == 7 then Rejected else Read(false, 0, name[..pos], name[pos + 1..], 23, -4)
  {
    assert (f + behind)[16..23] == f[16..] + behind;
  }

  lemma ColonSplits()
    ensures var a := "abc" + ":xyz"; IndexOf(a, ':') == 3 && a[..3] == "abc" && a[4..] == "xyz"
    ensures IndexOf("abc" + "wxyz", ':') == 7
  {
    IndexOfUnique("abc" + ":xyz", ':', 3);
    IndexOfUnique("abc" + "wxyz", ':', 7);
  }

  /** The first byte behind this frame makes it a message with -4 bytes of data, or an error. */
  lemma FourBytesBehind()
    ensures |ShortOfName| == MIN_MESSAGE_LEN + HEADER_LEN && Int32Of(ShortOfName[..4]) == MIN_MESSAGE_LEN
    ensures RawParse(ShortOfName, ":xyz") == Read(false, 0, "abc", "xyz", 23, -4)
    ensures RawParse(ShortOfName, "wxyz") == Rejected
  {
    ShortFields();
    ShortRead(ShortOfName, ":xyz");
    ShortRead(ShortOfName, "wxyz");
    ColonSplits();
  }

  /** A message to send: its wire id (top bit included), its name and its serialised payload. */
  datatype Outgoing = Outgoing(id: nat, name: Bytes, payload: Bytes)

  predicate Sendable(m: Outgoing) {
    && m.id < TWO64
    && ':' in m.name && |m.name| >= 2
    && ID_LEN + HEADER_LEN + |m.name| + 1 + |m.payload| <= MAX_MESSAGE_LEN
  }

  /** The encoder can put it into a buffer at all. */
  predicate Encodable(m: Outgoing) {
    m.id < TWO64 && NameLen(m.name) >= 0
  }

  lemma SendableIsEncodable(m: Outgoing)
    requires Sendable(m)
    ensures Encodable(m) && NameLen(m.name) == |m.name| + 1 && NameBytes(m.name) == m.name + ['\0']
  {
    WholeName(m.name);
  }

  function Wire(m: Outgoing): (f: Bytes)
    requires Encodable(m)
    ensures |f| == 16 + NameLen(m.name) + |m.payload|
  {
    Frame(m.id, m.name, m.payload)
  }

  /** The callback a sendable message should cause: the method keeps the terminating NUL. */
  function Received(m: Outgoing): Event
    requires Sendable(m)
  {
    var pos := IndexOf(m.name, ':');
    Message(m.id >= TWO63, m.id % TWO63, m.name[..pos], m.name[pos + 1..] + ['\0'], m.payload)
  }

  lemma BodyFields(id: nat, name: Bytes, payload: Bytes)
    requires id < TWO64 && NameLen(name) >= 0
    ensures var b := Body(id, name, payload); var n := 12 + NameLen(name);
            && b[..8] == Field64(id) && b[8..12] == Field32(|name| + 1)
            && b[12..n] == NameBytes(name) && b[n..] == payload
  {
  }

  lemma FrameFields(m: Outgoing)
    requires Encodable(m)
    ensures var f := Wire(m); f[..4] == Field32(|f| - HEADER_LEN) && f[4..] == Body(m.id, m.name, m.payload)
  {
  }

  lemma NameHasColon(name: Bytes)
    requires ':' in name
    ensures IndexOf(name, ':') < |name|
  {
    assert name[..|name|] == name;
  }

  lemma NameSplit(name: Bytes)
    requires ':' in name
    ensures IndexOf(name + ['\0'], ':') == IndexOf(name, ':')
  {
    NameHasColon(name);
    var pos := IndexOf(name, ':');
    assert (name + ['\0'])[..pos] == name[..pos];
    IndexOfUnique(name + ['\0'], ':', pos);
  }

  /** Parsing depends on the fields only. */
  lemma ParseFields(f: Bytes, m: Outgoing)
    requires Sendable(m) && |f| == 17 + |m.name| + |m.payload|
    requires UInt64Of(f[4..12]) == m.id && Int32Of(f[12..16]) == |m.name| + 1
    requires f[16..17 + |m.name|] == m.name + ['\0'] && f[17 + |m.name|..] == m.payload
    ensures ParseFrame(f) == Received(m)
  {
    NameHasColon(m.name);
    NameSplit(m.name);
    var pos, full := IndexOf(m.name, ':'), m.name + ['\0'];
    var n := |m.name| + 1;
    assert f[16..16 + n] == full && f[16 + n..] == m.payload;
    assert full[..pos] == m.name[..pos];
    assert full[pos + 1..] == m.name[pos + 1..] + ['\0'];
  }

  /** Where the parts of the body lie in the frame. */
  lemma PartsOf(f: Bytes, b: Bytes, n: nat)
    requires |f| == |b| + 4 && f[4..] == b && 12 <= n <= |b|
    ensures f[4..12] == b[..8] && f[12..16] == b[8..12] && f[16..n + 4] == b[12..n] && f[n + 4..] == b[n..]
  {
  }

  lemma ParseSent(m: Outgoing)
    requires Sendable(m) && Encodable(m)
    ensures ParseFrame(Wire(m)) == Received(m)
  {
    SendableIsEncodable(m);
    var f := Wire(m);
    FrameFields(m);
    BodyFields(m.id, m.name, m.payload);
    PartsOf(f, Body(m.id, m.name, m.payload), 12 + |m.name| + 1);
    Field64RoundTrip(m.id);
    Field32RoundTrip(|m.name| + 1);
    ParseFields(f, m);
  }

  lemma DecodeWhole(f: Bytes, got: Events, tail: Bytes)
    requires MIN_MESSAGE_LEN <= |f| - HEADER_LEN <= MAX_MESSAGE_LEN && Int32Of(f[..4]) == |f| - HEADER_LEN
    requires ParseFrame(f).Message?
    ensures Decode(got, f + tail) == Go(got + [ParseFrame(f)], |f|)
  {
    assert (f + tail)[..4] == f[..4];
    assert (f + tail)[..|f|] == f;
  }

  lemma DecodePartial(f: Bytes, got: Events, p: Bytes)
    requires MIN_MESSAGE_LEN <= |f| - HEADER_LEN <= MAX_MESSAGE_LEN && Int32Of(f[..4]) == |f| - HEADER_LEN
    requires p < f
    ensures Decode(got, p) == Wait
  {
    if |p| >= 4 {
      assert p[..4] == f[..4];
    }
  }

  lemma LengthField(m: Outgoing)
    requires Sendable(m) && Encodable(m)
    ensures Int32Of(Wire(m)[..4]) == |Wire(m)| - HEADER_LEN <= MAX_MESSAGE_LEN && |Wire(m)| - HEADER_LEN >= MIN_MESSAGE_LEN
  {
    SendableIsEncodable(m);
    FrameFields(m);
    Field32RoundTrip(|Wire(m)| - HEADER_LEN);
  }

  /** A sendable message is decoded whole, and nothing is decoded before its last byte. */
  lemma SentIsFrame(m: Outgoing)
    requires Sendable(m)
    ensures Encodable(m) && Frames(Decode, Wire(m), Received(m))
  {
    SendableIsEncodable(m);
    var f := Wire(m);
    LengthField(m);
    ParseSent(m);
    forall got: Events, tail: Bytes ensures Decode(got, f + tail) == Go(got + [Received(m)], |f|) {
      DecodeWhole(f, got, tail);
    }
    forall got: Events, p: Bytes | p < f ensures Decode(got, p) == Wait {
      DecodePartial(f, got, p);
    }
  }

  /** The callback carries this id, name and payload. */
  predicate Carries(e: Event, m: Outgoing) {
    && e.Message?
    && e.isResponse == (m.id >= TWO63) && e.id == m.id % TWO63
    && ':' !in e.service && e.service + [':'] + e.method_ == m.name + ['\0']
    && e.data == m.payload
  }

  /** The decoder's single callback carries back the id, name and payload that were encoded. */
  ghost predicate ComesBack(m: Outgoing)
    requires Encodable(m)
  {
    var s := Decode([], Wire(m));
    s.Go? && s.used == |Wire(m)| && |s.next| == 1 && Carries(s.next[0], m)
  }

  lemma CarriesName(e: Event, m: Outgoing)
    requires Carries(e, m)
    ensures ':' in m.name && |m.name| + 1 == |e.service| + 1 + |e.method_|
  {
    var full := e.service + [':'] + e.method_;
    assert full[|e.service|] == ':';
    assert (m.name + ['\0'])[|e.service|] == ':';
  }

  /** A decoded name has at least three bytes, and at most as many as the frame may have. */
  lemma DecodedName(b: Bytes)
    requires Decode([], b).Go? && |Decode([], b).next| == 1 && Decode([], b).next[0].Message?
    ensures var e := Decode([], b).next[0];
            && 3 <= |e.service| + 1 + |e.method_| <= MAX_MESSAGE_LEN
            && Decode([], b).used <= HEADER_LEN + MAX_MESSAGE_LEN
  {
  }

  /** Exactly the names with a colon and at least two bytes, in frames of at most 64 MB, survive. */
  lemma ComesBackIffSendable(m: Outgoing)
    requires Encodable(m)
    ensures ComesBack(m) <==> Sendable(m)
  {
    if Sendable(m) {
      SendableComesBack(m);
    }
    if ComesBack(m) {
      CarriesName(Decode([], Wire(m)).next[0], m);
      DecodedName(Wire(m));
      WholeName(m.name);
    }
  }

  lemma ReceivedCarries(m: Outgoing)
    requires Sendable(m)
    ensures Carries(Received(m), m)
  {
    NameHasColon(m.name);
    var e := Received(m);
    assert e.service + [':'] + e.method_ == m.name + ['\0'];
  }

  lemma SendableComesBack(m: Outgoing)
    requires Sendable(m) && Encodable(m)
    ensures ComesBack(m)
  {
    var f, e := Wire(m), Received(m);
    SentIsFrame(m);
    ReceivedCarries(m);
    assert f + [] == f;
    assert Decode([], f + []) == Go([] + [e], |f|);
  }

  predicate AllSendable(ms: seq<Outgoing>) {
    forall i :: 0 <= i < |ms| ==> Sendable(ms[i])
  }

  function WireAll(ms: seq<Outgoing>): (fs: seq<Bytes>)
    requires AllSendable(ms)
    ensures |fs| == |ms| && forall i :: 0 <= i < |ms| ==> fs[i] == Wire(ms[i])
  {
    if ms == [] then [] else [Wire(ms[0])] + WireAll(ms[1..])
  }

  function ReceivedAll(ms: seq<Outgoing>): (es: Events)
    requires AllSendable(ms)
    ensures |es| == |ms| && forall i :: 0 <= i < |ms| ==> es[i] == Received(ms[i])
  {
    if ms == [] then [] else [Received(ms[0])] + ReceivedAll(ms[1..])
  }

  lemma SentAreFrames(ms: seq<Outgoing>)
    requires AllSendable(ms)
    ensures AllFrames(Decode, WireAll(ms), ReceivedAll(ms))
  {
    forall i | 0 <= i < |ms| ensures Frames(Decode, WireAll(ms)[i], ReceivedAll(ms)[i]) {
      SentIsFrame(ms[i]);
    }
  }

  /**
   For every list of messages and every way of cutting their concatenation: what has been
   delivered is a prefix of what was sent, the buffer holds the received part of the next
   frame only, no error is reported, and a complete stream is delivered completely.
   */
  lemma StreamDelivered(ms: seq<Outgoing>, chunks: seq<Bytes>) returns (k: nat)
    requires AllSendable(ms)
    requires Flatten(chunks) <= Flatten(WireAll(ms))
    ensures k <= |ms|
    ensures var o := Feed(Decode, [], [], chunks);
            && !o.stopped && o.state == ReceivedAll(ms)[..k]
            && Flatten(WireAll(ms)[..k]) + o.rest == Flatten(chunks)
            && (if k < |ms| then o.rest < Wire(ms[k]) else o.rest == [])
    ensures Flatten(chunks) == Flatten(WireAll(ms)) ==> k == |ms|
  {
    DecodeLaws();
    SentAreFrames(ms);
    k := DeliveredInOrder(Decode, WireAll(ms), ReceivedAll(ms), chunks);
  }

  /** What ends a connection: a length out of range, or a complete frame without a proper name. */
  predicate Malformed(b: Bytes, e: ErrorCode, used: nat) {
    && |b| >= 19
    && var len := Int32Of(b[..4]);
       || ((len < 15 || len > 67108864) && e == InvalidLength && used == 0)
       || (15 <= len <= 67108864 && len + 4 <= |b| && NoName(b[..len + 4]) && e == InvalidNameLen && used == len + 4)
  }

  /** Too short or far too long a name, or one without a colon. */
  predicate NoName(f: Bytes)
    requires |f| >= 19
  {
    var n := Int32Of(f[12..16]);
    n < 3 || n > |f| - 12 || (n <= |f| - 16 && ':' !in f[16..16 + n])
  }

  lemma NoNameIsError(f: Bytes)
    requires |f| >= 19 && NoName(f)
    ensures ParseFrame(f) == Error(InvalidNameLen)
  {
    var n := Int32Of(f[12..16]);
    if 3 <= n <= |f| - 16 {
      IndexOfUnique(f[16..16 + n], ':', n);
    }
  }

  lemma MalformedDecodes(got: Events, bad: Bytes, e: ErrorCode, used: nat)
    requires Malformed(bad, e, used)
    ensures used <= |bad| && Decode(got, bad) == Stop(got + [Error(e)], used)
  {
    if e.InvalidNameLen? {
      NoNameIsError(bad[..used]);
    }
  }

  /** Whatever messages come before, a malformed frame is reported once, after them, and ends the decoding. */
  lemma MalformedStops(ms: seq<Outgoing>, bad: Bytes, e: ErrorCode, used: nat, chunks: seq<Bytes>)
    requires AllSendable(ms) && Malformed(bad, e, used) && Flatten(chunks) == Flatten(WireAll(ms)) + bad
    ensures used <= |bad| && Feed(Decode, [], [], chunks) == Outcome(ReceivedAll(ms) + [Error(e)], bad[used..], true)
  {
    DecodeLaws();
    SentAreFrames(ms);
    MalformedDecodes([], bad, e, used);
    forall got: Events ensures Decode(got, bad) == Stop(got + [Error(e)], used) {
      MalformedDecodes(got, bad, e, used);
    }
    StopsAfterFrames(Decode, WireAll(ms), ReceivedAll(ms), bad, Error(e), used, chunks);
  }

  /** The same on the real buffer: append a chunk, run onMessage, up to the first error. */
  method Receive(buf: Buffer, chunks: seq<Bytes>) returns (events: Events, stopped: bool)
    requires buf.Valid() && buf.Contents() == []
    modifies buf, buf.data
    ensures buf.Valid() && (buf.data == old(buf.data) || fresh(buf.data))
    ensures var o := Feed(Decode, [], [], chunks);
            stopped == o.stopped && events == o.state && (!stopped ==> buf.Contents() == o.rest)
  {
    events, stopped := [], false;
    var i := 0;
    while i < |chunks| && !stopped
      invariant i <= |chunks|
      invariant buf.Valid() && (buf.data == old(buf.data) || fresh(buf.data))
      invariant if stopped then Feed(Decode, [], [], chunks).stopped && Feed(Decode, [], [], chunks).state == events
                else Feed(Decode, events, buf.Contents(), chunks[i..]) == Feed(Decode, [], [], chunks)
    {
      assert chunks[i..][1..] == chunks[i + 1..];
      buf.Append(chunks[i]);
      events, stopped := OnMessage(buf, events);
      i := i + 1;
    }
  }
}
