/**
 A client channel and a server channel joined by two byte streams, run step by step:
 any number of callers interleave their allocate, register and send steps, either side
 reads as few or as many bytes as it likes and handles the decoded messages one callback
 at a time, and the server finishes calls in any order.

 The runs are over a `Protocol` record so that the proofs below see only the laws they
 need; `Real` fills the record with the codec and the channel, and `RealIsLawful` proves
 those laws of it.
 */
module RpcSystem {
  import opened Endian
  import opened Decimal
  import opened Incremental
  import opened Text
  import opened RpcCodec
  import opened RpcChannels

  /** How messages are framed, accepted, bound to closures and answered. */
  datatype Protocol = Protocol(
    fits: Outgoing -> bool,
    wire: Outgoing -> Bytes,
    received: Outgoing -> Event,
    decode: (Events, Bytes) -> Step<Events>,
    accepts: Event -> bool,
    bind: Event -> Closure,
    reply: (Closure, Bytes) -> Outgoing,
    parsesResponse: Bytes -> bool)

  /** Framing: a message that fits is decoded whole, and not before its last byte. */
  ghost predicate Framing(p: Protocol) {
    && Productive(p.decode) && Patient(p.decode)
    && forall m: Outgoing :: p.fits(m) ==> Frames(p.decode, p.wire(m), p.received(m))
  }

  /** A received message has the flag, the id and the payload of the one sent. */
  predicate Faithful(m: Outgoing, e: Event) {
    && m.id < TWO64 && e.Message?
    && e.isResponse == (m.id >= TWO63) && e.id == m.id % TWO63 && e.data == m.payload
  }

  ghost predicate Transparent(p: Protocol) {
    forall m: Outgoing {:trigger p.received(m)} :: p.fits(m) ==> Faithful(m, p.received(m))
  }

  /** A closure answers with the id of the request it was bound to. */
  ghost predicate Answering(p: Protocol) {
    forall e: Event, response: Bytes :: e.Message? && !e.isResponse && e.id < TWO63 ==>
      var m := p.reply(p.bind(e), response); m.id == TWO63 + e.id && m.payload == response
  }

  ghost predicate Lawful(p: Protocol) {
    Framing(p) && Transparent(p) && Answering(p)
  }

  function Real(r: Registry, parsesResponse: Bytes -> bool): Protocol {
    Protocol(
      m => Sendable(m),
      m => if Sendable(m) then Wire(m) else [],
      m => if Sendable(m) then Received(m) else Overread,
      Decode,
      e => Accepts(r, e),
      (e: Event) => if e.Message? then Closure(ClosureName(e.service, e.method_, e.id), e.data) else Closure([], []),
      (k: Closure, response: Bytes) => ReplyTo(k.name, response),
      parsesResponse)
  }

  lemma RealIsLawful(r: Registry, parsesResponse: Bytes -> bool)
    ensures Lawful(Real(r, parsesResponse))
  {
    var p := Real(r, parsesResponse);
    DecodeLaws();
    forall m: Outgoing | p.fits(m) ensures Frames(p.decode, p.wire(m), p.received(m)) {
      SentIsFrame(m);
    }
    forall e: Event, response: Bytes | e.Message? && !e.isResponse && e.id < TWO63
      ensures var m := p.reply(p.bind(e), response); m.id == TWO63 + e.id && m.payload == response
    {
      ReplyFindsId(e.service, e.method_, e.id, response);
    }
  }

  /**
   One direction of the connection: bytes under way, bytes read but unused, messages decoded
   but not handled; and its history, all messages sent and how many have been handled.
   */
  datatype Link = Link(wire: Bytes, held: Bytes, inbox: Events, sent: seq<Outgoing>, got: nat)

  datatype Phase = Allocated | Registered | Sent

  datatype Call = Call(name: Bytes, request: Bytes, phase: Phase)

  datatype Reply = Reply(id: nat, response: Bytes)

  /** A closure the server has run, with the response it was run for. */
  datatype Ran = Ran(closure: Closure, response: Bytes)

  datatype Client = Client(outstanding: set<nat>, completed: seq<Reply>)

  /**
   `calls` is indexed by id. `ran` lists the closures the server has run; `served` lists the
   replies it has sent for them, under the ids those replies carry.
   */
  datatype System = System(
    calls: seq<Call>, client: Client, up: Link, pending: seq<Closure>,
    ran: seq<Ran>, served: seq<Reply>, down: Link)

  datatype Action =
    | Allocate(service: Bytes, method_: Bytes, request: Bytes)
    | Register(id: nat)
    | Transmit(id: nat)
    | ServerReads(n: nat)
    | ServerHandles
    | Finish(i: nat, response: Bytes)
    | ClientReads(n: nat)
    | ClientHandles

  const Init := System([], Client({}, []), Link([], [], [], [], 0), [], [], [], Link([], [], [], [], 0))

  function Request(calls: seq<Call>, id: nat): Outgoing
    requires id < |calls|
  {
    Outgoing(id, calls[id].name, calls[id].request)
  }

  ghost predicate Enabled(p: Protocol, s: System, a: Action) {
    match a
    case Allocate(service, method_, request) =>
      |s.calls| < TWO63 && p.fits(Outgoing(|s.calls|, service + ":" + method_, request))
    case Register(id) => id < |s.calls| && s.calls[id].phase.Allocated?
    case Transmit(id) => id < |s.calls| && s.calls[id].phase.Registered?
    case ServerReads(n) => n <= |s.up.wire|
    case ServerHandles => s.up.inbox != []
    case Finish(i, response) => i < |s.pending| && p.fits(p.reply(s.pending[i], response))
    case ClientReads(n) => n <= |s.down.wire|
    case ClientHandles => s.down.inbox != []
  }

  ghost function Send(p: Protocol, l: Link, m: Outgoing): Link {
    l.(wire := l.wire + p.wire(m), sent := l.sent + [m])
  }

  /** Reads `n` bytes and decodes what is complete. */
  ghost function Read(p: Protocol, l: Link, n: nat): Link
    requires n <= |l.wire|
  {
    var o := Drain(p.decode, [], l.held + l.wire[..n]);
    l.(wire := l.wire[n..], held := o.rest, inbox := l.inbox + o.state)
  }

  function Pop(l: Link): Link
    requires l.inbox != []
  {
    l.(inbox := l.inbox[1..], got := l.got + 1)
  }

  /** The request branch of onRpcMessage. */
  ghost function Admit(p: Protocol, pending: seq<Closure>, e: Event): seq<Closure> {
    if p.accepts(e) then pending + [p.bind(e)] else pending
  }

  /** The response branch of onRpcMessage. */
  ghost function Complete(p: Protocol, c: Client, e: Event): Client {
    if !e.Message? || !e.isResponse || e.id !in c.outstanding then c
    else Client(c.outstanding - {e.id},
                if p.parsesResponse(e.data) then c.completed + [Reply(e.id, e.data)] else c.completed)
  }

  function SetPhase(calls: seq<Call>, id: nat, phase: Phase): seq<Call>
    requires id < |calls|
  {
    calls[id := calls[id].(phase := phase)]
  }

  ghost function Next(p: Protocol, s: System, a: Action): System
    requires Enabled(p, s, a)
  {
    match a
    case Allocate(service, method_, request) =>
      s.(calls := s.calls + [Call(service + ":" + method_, request, Allocated)])
    case Register(id) =>
      s.(calls := SetPhase(s.calls, id, Registered), client := s.client.(outstanding := s.client.outstanding + {id}))
    case Transmit(id) =>
      s.(calls := SetPhase(s.calls, id, Sent), up := Send(p, s.up, Request(s.calls, id)))
    case ServerReads(n) =>
      s.(up := Read(p, s.up, n))
    case ServerHandles =>
      s.(up := Pop(s.up), pending := Admit(p, s.pending, s.up.inbox[0]))
    case Finish(i, response) =>
      var m := p.reply(s.pending[i], response);
      s.(pending := s.pending[..i] + s.pending[i + 1..], down := Send(p, s.down, m),
         ran := s.ran + [Ran(s.pending[i], response)], served := s.served + [Reply(m.id % TWO63, response)])
    case ClientReads(n) =>
      s.(down := Read(p, s.down, n))
    case ClientHandles =>
      s.(down := Pop(s.down), client := Complete(p, s.client, s.down.inbox[0]))
  }

  ghost predicate IsStep(p: Protocol, s: System, a: Action, t: System) {
    Enabled(p, s, a) && t == Next(p, s, a)
  }

  /** A run: its states and the actions between them. */
  ghost predicate IsRun(p: Protocol, states: seq<System>, acts: seq<Action>) {
    && |states| == |acts| + 1 && states[0] == Init
    && forall i :: 0 <= i < |acts| ==> IsStep(p, states[i], acts[i], states[i + 1])
  }

  // ----- links

  ghost function Wires(p: Protocol, sent: seq<Outgoing>): (fs: seq<Bytes>)
    ensures |fs| == |sent|
  {
    seq(|sent|, i requires 0 <= i < |sent| => p.wire(sent[i]))
  }

  ghost function Arrivals(p: Protocol, sent: seq<Outgoing>): (es: Events)
    ensures |es| == |sent|
  {
    seq(|sent|, i requires 0 <= i < |sent| => p.received(sent[i]))
  }

  ghost predicate AllFit(p: Protocol, sent: seq<Outgoing>) {
    forall i :: 0 <= i < |sent| ==> p.fits(sent[i])
  }

  /** The messages not yet handled: first those decoded, then those still in bytes. */
  ghost predicate LinkOk(p: Protocol, l: Link) {
    var decoded := l.got + |l.inbox|;
    && decoded <= |l.sent| && AllFit(p, l.sent)
    && l.inbox == Arrivals(p, l.sent)[l.got..decoded]
    && l.held + l.wire == Flatten(Wires(p, l.sent)[decoded..])
  }

  lemma SendOk(p: Protocol, l: Link, m: Outgoing)
    requires LinkOk(p, l) && p.fits(m)
    ensures LinkOk(p, Send(p, l, m))
  {
    var decoded := l.got + |l.inbox|;
    var before, after := Wires(p, l.sent), Wires(p, l.sent + [m]);
    assert after[decoded..] == before[decoded..] + [p.wire(m)];
    FlattenConcat(before[decoded..], [p.wire(m)]);
    assert Flatten([p.wire(m)]) == p.wire(m);
    assert l.held + (l.wire + p.wire(m)) == (l.held + l.wire) + p.wire(m);
    assert Arrivals(p, l.sent + [m])[l.got..decoded] == Arrivals(p, l.sent)[l.got..decoded];
  }

  lemma DueFrames(p: Protocol, sent: seq<Outgoing>, n: nat)
    requires Framing(p) && AllFit(p, sent) && n <= |sent|
    ensures AllFrames(p.decode, Wires(p, sent)[n..], Arrivals(p, sent)[n..])
  {
    var fs, es := Wires(p, sent)[n..], Arrivals(p, sent)[n..];
    forall i | 0 <= i < |fs| ensures Frames(p.decode, fs[i], es[i]) {
      assert p.fits(sent[n + i]);
    }
  }

  lemma AfterRead(p: Protocol, l: Link, t: Link, k: nat)
    requires LinkOk(p, l) && l.got + |l.inbox| + k <= |l.sent|
    requires t.got == l.got && t.sent == l.sent
    requires t.inbox == l.inbox + Arrivals(p, l.sent)[l.got + |l.inbox|..][..k]
    requires t.held + t.wire == Flatten(Wires(p, l.sent)[l.got + |l.inbox|..][k..])
    ensures LinkOk(p, t)
  {
    var d := l.got + |l.inbox|;
    assert t.inbox == Arrivals(p, l.sent)[l.got..d + k];
    assert Wires(p, l.sent)[d..][k..] == Wires(p, l.sent)[d + k..];
  }

  /** Reading any number of bytes decodes the next whole messages, in order. */
  lemma ReadOk(p: Protocol, l: Link, n: nat)
    requires Framing(p) && LinkOk(p, l) && n <= |l.wire|
    ensures LinkOk(p, Read(p, l, n))
  {
    var d := l.got + |l.inbox|;
    DueFrames(p, l.sent, d);
    var k := ReadFrames(p.decode, l.held, l.wire, Wires(p, l.sent)[d..], Arrivals(p, l.sent)[d..], n);
    AfterRead(p, l, Read(p, l, n), k);
  }

  lemma PopOk(p: Protocol, l: Link)
    requires LinkOk(p, l) && l.inbox != []
    ensures LinkOk(p, Pop(l)) && l.inbox[0] == p.received(l.sent[l.got])
  {
    assert Pop(l).inbox == Arrivals(p, l.sent)[l.got + 1..l.got + |l.inbox|];
  }

  // ----- requests

  ghost predicate CallsOk(p: Protocol, calls: seq<Call>) {
    && |calls| <= TWO63
    && forall id :: 0 <= id < |calls| ==> p.fits(Request(calls, id))
  }

  /** Requests are sent once per call, after its registration, and carry the call's own data. */
  predicate RequestsOk(calls: seq<Call>, sent: seq<Outgoing>) {
    && (forall i :: 0 <= i < |sent| ==>
          sent[i].id < |calls| && calls[sent[i].id].phase.Sent? && sent[i] == Request(calls, sent[i].id))
    && (forall i, j :: 0 <= i < j < |sent| ==> sent[i].id != sent[j].id)
  }

  // ----- the server

  /** The id the server will answer to when the closure runs. */
  ghost function IdOf(p: Protocol, k: Closure): nat {
    p.reply(k, []).id % TWO63
  }

  ghost function PendingIds(p: Protocol, ks: seq<Closure>): (ids: seq<nat>)
    ensures |ids| == |ks|
  {
    seq(|ks|, i requires 0 <= i < |ks| => IdOf(p, ks[i]))
  }

  ghost function ServedIds(rs: seq<Reply>): (ids: seq<nat>)
    ensures |ids| == |rs|
  {
    seq(|rs|, i requires 0 <= i < |rs| => rs[i].id)
  }

  /** Ids of those requests, among the first `n` sent, that the server accepts. */
  ghost function AcceptedIds(p: Protocol, sent: seq<Outgoing>, n: nat): multiset<nat>
    requires n <= |sent|
  {
    if n == 0 then multiset{}
    else if p.accepts(p.received(sent[n - 1])) then AcceptedIds(p, sent, n - 1) + multiset{sent[n - 1].id}
    else AcceptedIds(p, sent, n - 1)
  }

  /** Conservation on the server: accepted requests are pending or served, each exactly once. */
  ghost predicate ServerOk(p: Protocol, sent: seq<Outgoing>, got: nat, pending: seq<Closure>, served: seq<Reply>) {
    && got <= |sent|
    && multiset(PendingIds(p, pending)) + multiset(ServedIds(served)) == AcceptedIds(p, sent, got)
  }

  /** Every pending closure is the one bound to the call whose id it will answer. */
  ghost predicate PendingOk(p: Protocol, calls: seq<Call>, pending: seq<Closure>) {
    forall i :: 0 <= i < |pending| ==> BoundTo(p, calls, pending[i])
  }

  ghost predicate BoundTo(p: Protocol, calls: seq<Call>, k: Closure) {
    var id := IdOf(p, k);
    id < |calls| && k == p.bind(p.received(Request(calls, id)))
  }

  lemma {:induction false} AcceptedWasSent(p: Protocol, sent: seq<Outgoing>, n: nat, x: nat)
    requires n <= |sent| && x in AcceptedIds(p, sent, n)
    ensures exists i :: 0 <= i < n && sent[i].id == x
  {
    if sent[n - 1].id != x {
      AcceptedWasSent(p, sent, n - 1, x);
    }
  }

  lemma {:induction false} AcceptedOnce(p: Protocol, sent: seq<Outgoing>, n: nat, x: nat)
    requires n <= |sent|
    requires forall i, j :: 0 <= i < j < |sent| ==> sent[i].id != sent[j].id
    ensures AcceptedIds(p, sent, n)[x] <= 1
  {
    if n > 0 {
      AcceptedOnce(p, sent, n - 1, x);
      if sent[n - 1].id == x && x in AcceptedIds(p, sent, n - 1) {
        AcceptedWasSent(p, sent, n - 1, x);
        assert false;
      }
    }
  }

  lemma {:induction false} AcceptedOfPrefix(p: Protocol, sent: seq<Outgoing>, m: Outgoing, n: nat)
    requires n <= |sent|
    ensures AcceptedIds(p, sent + [m], n) == AcceptedIds(p, sent, n)
  {
    if n > 0 {
      AcceptedOfPrefix(p, sent, m, n - 1);
    }
  }

  lemma OnceEachIsDistinct(ids: seq<nat>, i: nat, j: nat)
    requires i < j < |ids| && multiset(ids)[ids[i]] <= 1
    ensures ids[i] != ids[j]
  {
    assert ids == ids[..j] + [ids[j]] + ids[j + 1..];
    assert ids[i] in ids[..j];
  }

  /** Served calls were sent, hence registered; and no call is served twice. */
  predicate ServedOnce(calls: seq<Call>, served: seq<Reply>) {
    && (forall i :: 0 <= i < |served| ==> served[i].id < |calls| && calls[served[i].id].phase.Sent?)
    && (forall i, j :: 0 <= i < j < |served| ==> served[i].id != served[j].id)
  }

  lemma ServedFacts(p: Protocol, calls: seq<Call>, sent: seq<Outgoing>, got: nat, pending: seq<Closure>, served: seq<Reply>)
    requires RequestsOk(calls, sent) && ServerOk(p, sent, got, pending, served)
    ensures ServedOnce(calls, served)
  {
    var ids := ServedIds(served);
    forall i | 0 <= i < |served| ensures served[i].id < |calls| && calls[served[i].id].phase.Sent? {
      assert ids[i] in multiset(ids);
      AcceptedWasSent(p, sent, got, ids[i]);
    }
    forall i, j | 0 <= i < j < |served| ensures served[i].id != served[j].id {
      AcceptedOnce(p, sent, got, ids[i]);
      OnceEachIsDistinct(ids, i, j);
    }
  }

  lemma RequestReceived(p: Protocol, calls: seq<Call>, id: nat, response: Bytes)
    requires Transparent(p) && Answering(p) && CallsOk(p, calls) && id < |calls|
    ensures var e := p.received(Request(calls, id));
            var m := p.reply(p.bind(e), response);
            e.Message? && !e.isResponse && e.id == id && m.id == TWO63 + id && m.payload == response
  {
    var m := Request(calls, id);
    assert p.fits(m) && Faithful(m, p.received(m));
  }

  lemma AdmitConserves(p: Protocol, sent: seq<Outgoing>, got: nat, pending: seq<Closure>, k: Closure, served: seq<Reply>)
    requires got < |sent| && ServerOk(p, sent, got, pending, served)
    requires p.accepts(p.received(sent[got])) && IdOf(p, k) == sent[got].id
    ensures ServerOk(p, sent, got + 1, pending + [k], served)
  {
    assert PendingIds(p, pending + [k]) == PendingIds(p, pending) + [sent[got].id];
  }

  lemma AdmitOne(p: Protocol, calls: seq<Call>, sent: seq<Outgoing>, got: nat, pending: seq<Closure>, served: seq<Reply>)
    requires Transparent(p) && Answering(p) && CallsOk(p, calls) && RequestsOk(calls, sent) && got < |sent|
    requires PendingOk(p, calls, pending) && ServerOk(p, sent, got, pending, served)
    ensures var after := Admit(p, pending, p.received(sent[got]));
            PendingOk(p, calls, after) && ServerOk(p, sent, got + 1, after, served)
  {
    var id := sent[got].id;
    assert sent[got] == Request(calls, id);
    var k := p.bind(p.received(sent[got]));
    RequestReceived(p, calls, id, []);
    assert BoundTo(p, calls, k);
    if p.accepts(p.received(sent[got])) {
      AdmitConserves(p, sent, got, pending, k, served);
    }
  }

  lemma FinishConserves(p: Protocol, pending: seq<Closure>, i: nat, served: seq<Reply>, r: Reply)
    requires i < |pending| && r.id == IdOf(p, pending[i])
    ensures var after := pending[..i] + pending[i + 1..];
            multiset(PendingIds(p, after)) + multiset(ServedIds(served + [r])) ==
            multiset(PendingIds(p, pending)) + multiset(ServedIds(served))
  {
    var ids := PendingIds(p, pending);
    assert ids == ids[..i] + [r.id] + ids[i + 1..];
    assert PendingIds(p, pending[..i] + pending[i + 1..]) == ids[..i] + ids[i + 1..];
    assert ServedIds(served + [r]) == ServedIds(served) + [r.id];
  }

  lemma OneLessPending(p: Protocol, calls: seq<Call>, pending: seq<Closure>, i: nat)
    requires PendingOk(p, calls, pending) && i < |pending|
    ensures PendingOk(p, calls, pending[..i] + pending[i + 1..])
  {
  }

  // ----- the client

  predicate RepliesOk(served: seq<Reply>, sent: seq<Outgoing>) {
    && |served| == |sent|
    && forall i :: 0 <= i < |served| ==>
         served[i].id < TWO63 && sent[i].id == TWO63 + served[i].id && sent[i].payload == served[i].response
  }

  ghost function RegisteredIds(calls: seq<Call>): set<nat> {
    set id | 0 <= id < |calls| && !calls[id].phase.Allocated?
  }

  /** Ids of the first `n` replies. */
  ghost function IdSet(rs: seq<Reply>, n: nat): set<nat>
    requires n <= |rs|
  {
    set i | 0 <= i < n :: rs[i].id
  }

  /** Those of the first `n` replies whose payload the client can parse; for these `done` runs. */
  ghost function Parsed(p: Protocol, rs: seq<Reply>, n: nat): seq<Reply>
    requires n <= |rs|
  {
    if n == 0 then []
    else if p.parsesResponse(rs[n - 1].response) then Parsed(p, rs, n - 1) + [rs[n - 1]]
    else Parsed(p, rs, n - 1)
  }

  ghost predicate ClientOk(p: Protocol, calls: seq<Call>, c: Client, served: seq<Reply>, got: nat) {
    && got <= |served|
    && c.outstanding == RegisteredIds(calls) - IdSet(served, got)
    && c.completed == Parsed(p, served, got)
  }

  lemma CompleteOne(p: Protocol, calls: seq<Call>, c: Client, served: seq<Reply>, sent: seq<Outgoing>, got: nat)
    requires Transparent(p) && RepliesOk(served, sent) && AllFit(p, sent) && got < |served|
    requires ServedOnce(calls, served) && ClientOk(p, calls, c, served, got)
    ensures ClientOk(p, calls, Complete(p, c, p.received(sent[got])), served, got + 1)
  {
    var r, e := served[got], p.received(sent[got]);
    assert Faithful(sent[got], e);
    assert e.isResponse && Reply(e.id, e.data) == r;
    assert r.id in RegisteredIds(calls) && r.id !in IdSet(served, got);
    assert IdSet(served, got + 1) == IdSet(served, got) + {r.id};
  }

  lemma {:induction false} MoreServed(p: Protocol, served: seq<Reply>, r: Reply, n: nat)
    requires n <= |served|
    ensures IdSet(served + [r], n) == IdSet(served, n) && Parsed(p, served + [r], n) == Parsed(p, served, n)
  {
    assert forall i :: 0 <= i < n ==> (served + [r])[i] == served[i];
    if n > 0 {
      MoreServed(p, served, r, n - 1);
    }
  }

  // ----- who answered what

  /** Every reply sent is the answer of the closure bound to that very call's request. */
  ghost predicate AnswersOk(p: Protocol, calls: seq<Call>, ran: seq<Ran>, served: seq<Reply>) {
    && |ran| == |served|
    && forall i :: 0 <= i < |served| ==> Answers(p, calls, ran[i], served[i])
  }

  ghost predicate Answers(p: Protocol, calls: seq<Call>, a: Ran, r: Reply) {
    r.id < |calls| && a == Ran(p.bind(p.received(Request(calls, r.id))), r.response)
  }

  /** Calls keep their requests, so answers given stay the right ones. */
  lemma AnswersStay(p: Protocol, calls: seq<Call>, after: seq<Call>, ran: seq<Ran>, served: seq<Reply>)
    requires AnswersOk(p, calls, ran, served) && |calls| <= |after|
    requires forall i :: 0 <= i < |calls| ==> Request(after, i) == Request(calls, i)
    ensures AnswersOk(p, after, ran, served)
  {
    forall i | 0 <= i < |served| ensures Answers(p, after, ran[i], served[i]) {
      assert Answers(p, calls, ran[i], served[i]);
    }
  }

  // ----- one step

  ghost predicate UpOk(p: Protocol, s: System) {
    && CallsOk(p, s.calls) && RequestsOk(s.calls, s.up.sent)
    && LinkOk(p, s.up)
    && PendingOk(p, s.calls, s.pending)
    && ServerOk(p, s.up.sent, s.up.got, s.pending, s.served)
  }

  ghost predicate DownOk(p: Protocol, s: System) {
    && RepliesOk(s.served, s.down.sent)
    && LinkOk(p, s.down)
    && ClientOk(p, s.calls, s.client, s.served, s.down.got)
  }

  ghost predicate Inv(p: Protocol, s: System) {
    UpOk(p, s) && DownOk(p, s) && AnswersOk(p, s.calls, s.ran, s.served)
  }

  /** A new call, not yet registered, changes nothing for the others. */
  lemma NewCallKeeps(p: Protocol, calls: seq<Call>, c: Call, pending: seq<Closure>, sent: seq<Outgoing>)
    requires CallsOk(p, calls) && PendingOk(p, calls, pending) && RequestsOk(calls, sent)
    requires |calls| < TWO63 && p.fits(Outgoing(|calls|, c.name, c.request)) && c.phase.Allocated?
    ensures var after := calls + [c];
            && CallsOk(p, after) && PendingOk(p, after, pending) && RequestsOk(after, sent)
            && RegisteredIds(after) == RegisteredIds(calls)
            && forall i :: 0 <= i < |calls| ==> Request(after, i) == Request(calls, i)
  {
    var after := calls + [c];
    assert forall i :: 0 <= i < |calls| ==> Request(after, i) == Request(calls, i);
    forall i | 0 <= i < |pending| ensures BoundTo(p, after, pending[i]) {
      assert BoundTo(p, calls, pending[i]);
    }
  }

  lemma AllocateKeeps(p: Protocol, s: System, a: Action)
    requires Inv(p, s) && a.Allocate? && Enabled(p, s, a)
    ensures Inv(p, Next(p, s, a))
  {
    NewCallKeeps(p, s.calls, Call(a.service + ":" + a.method_, a.request, Allocated), s.pending, s.up.sent);
    AnswersStay(p, s.calls, Next(p, s, a).calls, s.ran, s.served);
  }

  /** Changing the phase of a call leaves every request and closure as it was. */
  lemma PhaseKeeps(p: Protocol, calls: seq<Call>, id: nat, phase: Phase, pending: seq<Closure>)
    requires CallsOk(p, calls) && PendingOk(p, calls, pending) && id < |calls|
    ensures var after := SetPhase(calls, id, phase);
            && CallsOk(p, after) && PendingOk(p, after, pending)
            && forall i :: 0 <= i < |calls| ==> Request(after, i) == Request(calls, i)
  {
    var after := SetPhase(calls, id, phase);
    assert forall i :: 0 <= i < |calls| ==> Request(after, i) == Request(calls, i);
    forall i | 0 <= i < |pending| ensures BoundTo(p, after, pending[i]) {
      assert BoundTo(p, calls, pending[i]);
    }
  }

  lemma OneMoreOutstanding(p: Protocol, calls: seq<Call>, c: Client, served: seq<Reply>, got: nat, id: nat)
    requires ServedOnce(calls, served) && ClientOk(p, calls, c, served, got)
    requires id < |calls| && calls[id].phase.Allocated?
    ensures ClientOk(p, SetPhase(calls, id, Registered), c.(outstanding := c.outstanding + {id}), served, got)
  {
    assert id !in IdSet(served, got);
    assert RegisteredIds(SetPhase(calls, id, Registered)) == RegisteredIds(calls) + {id};
  }

  lemma RegisterKeeps(p: Protocol, s: System, a: Action)
    requires Inv(p, s) && a.Register? && Enabled(p, s, a)
    ensures Inv(p, Next(p, s, a))
  {
    var t := Next(p, s, a);
    PhaseKeeps(p, s.calls, a.id, Registered, s.pending);
    AnswersStay(p, s.calls, t.calls, s.ran, s.served);
    ServedFacts(p, s.calls, s.up.sent, s.up.got, s.pending, s.served);
    OneMoreOutstanding(p, s.calls, s.client, s.served, s.down.got, a.id);
  }

  lemma OneMoreRequest(calls: seq<Call>, sent: seq<Outgoing>, id: nat)
    requires RequestsOk(calls, sent) && id < |calls| && calls[id].phase.Registered?
    ensures RequestsOk(SetPhase(calls, id, Sent), sent + [Request(calls, id)])
    ensures RegisteredIds(SetPhase(calls, id, Sent)) == RegisteredIds(calls)
  {
  }

  lemma TransmitKeeps(p: Protocol, s: System, a: Action)
    requires Inv(p, s) && a.Transmit? && Enabled(p, s, a)
    ensures Inv(p, Next(p, s, a))
  {
    var m := Request(s.calls, a.id);
    PhaseKeeps(p, s.calls, a.id, Sent, s.pending);
    AnswersStay(p, s.calls, SetPhase(s.calls, a.id, Sent), s.ran, s.served);
    OneMoreRequest(s.calls, s.up.sent, a.id);
    SendOk(p, s.up, m);
    AcceptedOfPrefix(p, s.up.sent, m, s.up.got);
  }

  lemma ServerKeeps(p: Protocol, s: System, a: Action)
    requires Lawful(p) && Inv(p, s) && (a.ServerReads? || a.ServerHandles?) && Enabled(p, s, a)
    ensures Inv(p, Next(p, s, a))
  {
    if a.ServerReads? {
      ReadOk(p, s.up, a.n);
    } else {
      PopOk(p, s.up);
      AdmitOne(p, s.calls, s.up.sent, s.up.got, s.pending, s.served);
    }
  }

  /** The reply goes out under the id of the request its closure was bound to. */
  ghost predicate Replies(p: Protocol, calls: seq<Call>, k: Closure, response: Bytes, r: Reply) {
    var m := p.reply(k, response);
    && r == Reply(IdOf(p, k), response) && r.id < TWO63
    && m.id == TWO63 + r.id && m.id % TWO63 == r.id && m.payload == response
    && Answers(p, calls, Ran(k, response), r)
  }

  lemma FinishAnswers(p: Protocol, calls: seq<Call>, pending: seq<Closure>, i: nat, response: Bytes) returns (r: Reply)
    requires Transparent(p) && Answering(p) && CallsOk(p, calls) && PendingOk(p, calls, pending) && i < |pending|
    ensures Replies(p, calls, pending[i], response, r)
  {
    assert BoundTo(p, calls, pending[i]);
    r := Reply(IdOf(p, pending[i]), response);
    RequestReceived(p, calls, r.id, response);
  }

  lemma OneMoreReply(p: Protocol, calls: seq<Call>, ran: seq<Ran>, served: seq<Reply>, sent: seq<Outgoing>, a: Ran, r: Reply, m: Outgoing)
    requires RepliesOk(served, sent) && AnswersOk(p, calls, ran, served)
    requires r.id < TWO63 && m.id == TWO63 + r.id && m.payload == r.response && Answers(p, calls, a, r)
    ensures RepliesOk(served + [r], sent + [m]) && AnswersOk(p, calls, ran + [a], served + [r])
  {
  }

  lemma FinishKeepsUp(p: Protocol, s: System, a: Action, r: Reply)
    requires UpOk(p, s) && a.Finish? && Enabled(p, s, a) && Replies(p, s.calls, s.pending[a.i], a.response, r)
    ensures UpOk(p, Next(p, s, a))
  {
    assert Next(p, s, a).served == s.served + [r];
    OneLessPending(p, s.calls, s.pending, a.i);
    FinishConserves(p, s.pending, a.i, s.served, r);
  }

  lemma FinishKeepsDown(p: Protocol, s: System, a: Action, r: Reply)
    requires DownOk(p, s) && AnswersOk(p, s.calls, s.ran, s.served)
    requires a.Finish? && Enabled(p, s, a) && Replies(p, s.calls, s.pending[a.i], a.response, r)
    ensures var t := Next(p, s, a); DownOk(p, t) && AnswersOk(p, t.calls, t.ran, t.served)
  {
    assert Next(p, s, a).served == s.served + [r];
    var k := s.pending[a.i];
    var m := p.reply(k, a.response);
    OneMoreReply(p, s.calls, s.ran, s.served, s.down.sent, Ran(k, a.response), r, m);
    SendOk(p, s.down, m);
    MoreServed(p, s.served, r, s.down.got);
  }

  lemma FinishKeeps(p: Protocol, s: System, a: Action)
    requires Transparent(p) && Answering(p) && Inv(p, s) && a.Finish? && Enabled(p, s, a)
    ensures Inv(p, Next(p, s, a))
  {
    var r := FinishAnswers(p, s.calls, s.pending, a.i, a.response);
    FinishKeepsUp(p, s, a, r);
    FinishKeepsDown(p, s, a, r);
  }

  lemma ClientKeeps(p: Protocol, s: System, a: Action)
    requires Lawful(p) && Inv(p, s) && (a.ClientReads? || a.ClientHandles?) && Enabled(p, s, a)
    ensures Inv(p, Next(p, s, a))
  {
    if a.ClientReads? {
      ReadOk(p, s.down, a.n);
    } else {
      PopOk(p, s.down);
      ServedFacts(p, s.calls, s.up.sent, s.up.got, s.pending, s.served);
      CompleteOne(p, s.calls, s.client, s.served, s.down.sent, s.down.got);
    }
  }

  lemma StepKeeps(p: Protocol, s: System, a: Action)
    requires Lawful(p) && Inv(p, s) && Enabled(p, s, a)
    ensures Inv(p, Next(p, s, a))
  {
    match a
    case Allocate(_, _, _) => AllocateKeeps(p, s, a);
    case Register(_) => RegisterKeeps(p, s, a);
    case Transmit(_) => TransmitKeeps(p, s, a);
    case ServerReads(_) => ServerKeeps(p, s, a);
    case ServerHandles => ServerKeeps(p, s, a);
    case Finish(_, _) => FinishKeeps(p, s, a);
    case ClientReads(_) => ClientKeeps(p, s, a);
    case ClientHandles => ClientKeeps(p, s, a);
  }

  // ----- runs

  lemma {:induction false} RunKeeps(p: Protocol, states: seq<System>, acts: seq<Action>, i: nat)
    requires Lawful(p) && IsRun(p, states, acts) && i < |states|
    ensures forall j :: 0 <= j <= i ==> Inv(p, states[j])
  {
    if i > 0 {
      RunKeeps(p, states, acts, i - 1);
      assert IsStep(p, states[i - 1], acts[i - 1], states[i]);
      StepKeeps(p, states[i - 1], acts[i - 1]);
    }
  }

  /** Completed calls are replies that arrived, each at most once. */
  lemma {:induction false} ParsedArrived(p: Protocol, rs: seq<Reply>, n: nat, r: Reply)
    requires n <= |rs|
    requires forall i, j :: 0 <= i < j < |rs| ==> rs[i].id != rs[j].id
    ensures r in Parsed(p, rs, n) <==> p.parsesResponse(r.response) && r in rs[..n]
    ensures multiset(Parsed(p, rs, n))[r] <= 1
  {
    if n > 0 {
      ParsedArrived(p, rs, n - 1, r);
      assert rs[..n] == rs[..n - 1] + [rs[n - 1]];
      assert rs[n - 1] !in rs[..n - 1];
    }
  }

  lemma {:induction false} AllParsed(p: Protocol, rs: seq<Reply>, n: nat)
    requires n <= |rs| && forall r :: r in rs ==> p.parsesResponse(r.response)
    ensures Parsed(p, rs, n) == rs[..n]
  {
    if n > 0 {
      AllParsed(p, rs, n - 1);
      assert rs[n - 1] in rs;
      assert rs[..n] == rs[..n - 1] + [rs[n - 1]];
    }
  }

  /** What the server binds for call `id`: its name as sent, its own id, and its own request. */
  function OwnClosure(calls: seq<Call>, id: nat): Closure
    requires id < |calls|
  {
    Closure(calls[id].name + "\0:" + ToDecimal(id), calls[id].request)
  }

  lemma BindsOwnClosure(r: Registry, parsesResponse: Bytes -> bool, calls: seq<Call>, id: nat)
    requires id < |calls| <= TWO63 && Sendable(Request(calls, id))
    ensures var p := Real(r, parsesResponse); p.bind(p.received(Request(calls, id))) == OwnClosure(calls, id)
  {
    var name, pos := calls[id].name, IndexOf(calls[id].name, ':');
    NameHasColon(name);
    assert name == name[..pos] + ":" + name[pos + 1..];
    var service, method_ := name[..pos], name[pos + 1..] + "\0";
    assert Received(Request(calls, id)) == Message(false, id, service, method_, calls[id].request);
    assert service + ":" + method_ + ":" == name + "\0:";
  }

  /**
   The replies sent so far are, one for one, the responses of the closures run so far, each under
   the id of the call whose own request that closure was given.
   */
  predicate AnsweredByOwn(calls: seq<Call>, ran: seq<Ran>, served: seq<Reply>) {
    && |ran| == |served|
    && forall i :: 0 <= i < |served| ==>
         served[i].id < |calls| && ran[i] == Ran(OwnClosure(calls, served[i].id), served[i].response)
  }

  lemma RealAnswers(r: Registry, parsesResponse: Bytes -> bool, calls: seq<Call>, ran: seq<Ran>, served: seq<Reply>)
    requires CallsOk(Real(r, parsesResponse), calls) && AnswersOk(Real(r, parsesResponse), calls, ran, served)
    ensures AnsweredByOwn(calls, ran, served)
  {
    var p := Real(r, parsesResponse);
    forall i | 0 <= i < |served|
      ensures served[i].id < |calls| && ran[i] == Ran(OwnClosure(calls, served[i].id), served[i].response)
    {
      assert Answers(p, calls, ran[i], served[i]);
      assert p.fits(Request(calls, served[i].id));
      BindsOwnClosure(r, parsesResponse, calls, served[i].id);
    }
  }

  /**
   In every state of every run of the real channels: requests are sent once per call and carry
   its own data; no call is answered twice by the server, nor one that was not sent; every reply
   is the response of the closure bound to its call's own request; `done` has run for exactly
   those arrived replies that parse, once each; and the outstanding set is the registered calls
   minus the replies received.
   */
  lemma EveryRunIsSafe(r: Registry, parsesResponse: Bytes -> bool, states: seq<System>, acts: seq<Action>, i: nat)
    requires IsRun(Real(r, parsesResponse), states, acts) && i < |states|
    ensures var s := states[i];
            && s.down.got <= |s.served|
            && RequestsOk(s.calls, s.up.sent)
            && ServedOnce(s.calls, s.served)
            && AnsweredByOwn(s.calls, s.ran, s.served)
            && s.client.outstanding == RegisteredIds(s.calls) - IdSet(s.served, s.down.got)
            && (forall x :: x in s.client.completed <==> parsesResponse(x.response) && x in s.served[..s.down.got])
            && (forall x :: multiset(s.client.completed)[x] <= 1)
  {
    var p, s := Real(r, parsesResponse), states[i];
    RealIsLawful(r, parsesResponse);
    assert Inv(p, states[i]) by { RunKeeps(p, states, acts, i); }
    ServedFacts(p, s.calls, s.up.sent, s.up.got, s.pending, s.served);
    RealAnswers(r, parsesResponse, s.calls, s.ran, s.served);
    forall x: Reply ensures x in s.client.completed <==> parsesResponse(x.response) && x in s.served[..s.down.got] {
      ParsedArrived(p, s.served, s.down.got, x);
    }
    forall x: Reply ensures multiset(s.client.completed)[x] <= 1 {
      ParsedArrived(p, s.served, s.down.got, x);
    }
  }

  /** A link with no bytes and no decoded messages left has handed over all it was sent. */
  lemma DrainedLink(p: Protocol, l: Link)
    requires Framing(p) && LinkOk(p, l) && l.wire == [] && l.held == [] && l.inbox == []
    ensures l.got == |l.sent|
  {
    DueFrames(p, l.sent, l.got);
    if l.got < |l.sent| {
      FramesHaveBytes(p.decode, Wires(p, l.sent)[l.got..], Arrivals(p, l.sent)[l.got..]);
    }
  }

  ghost predicate Quiet(s: System) {
    && s.pending == []
    && s.up.wire == [] && s.up.held == [] && s.up.inbox == []
    && s.down.wire == [] && s.down.held == [] && s.down.inbox == []
  }

  lemma QuietFacts(p: Protocol, s: System)
    requires Framing(p) && Inv(p, s) && Quiet(s)
    requires forall x :: x in s.served ==> p.parsesResponse(x.response)
    ensures s.client.completed == s.served
    ensures multiset(ServedIds(s.served)) == AcceptedIds(p, s.up.sent, |s.up.sent|)
    ensures s.client.outstanding == RegisteredIds(s.calls) - IdSet(s.served, |s.served|)
  {
    DrainedLink(p, s.up);
    DrainedLink(p, s.down);
    AllParsed(p, s.served, s.down.got);
    assert s.served[..s.down.got] == s.served;
    assert PendingIds(p, s.pending) == [];
  }

  /** Every call in the phase after sending has its request among those sent. */
  ghost predicate AllSentOut(calls: seq<Call>, sent: seq<Outgoing>) {
    forall id :: 0 <= id < |calls| && calls[id].phase.Sent? ==> IsSent(sent, id)
  }

  predicate IsSent(sent: seq<Outgoing>, id: nat) {
    exists i :: 0 <= i < |sent| && sent[i].id == id
  }

  lemma SentStays(sent: seq<Outgoing>, m: Outgoing, id: nat)
    ensures IsSent(sent + [m], id) <==> IsSent(sent, id) || m.id == id
  {
    var more := sent + [m];
    assert more[|sent|] == m;
    if IsSent(sent, id) {
      var i :| 0 <= i < |sent| && sent[i].id == id;
      assert more[i].id == id;
    }
  }

  lemma SentOutKeeps(p: Protocol, s: System, a: Action)
    requires AllSentOut(s.calls, s.up.sent) && Enabled(p, s, a)
    ensures AllSentOut(Next(p, s, a).calls, Next(p, s, a).up.sent)
  {
    var t := Next(p, s, a);
    if a.Transmit? {
      forall id | 0 <= id < |t.calls| && t.calls[id].phase.Sent? ensures IsSent(t.up.sent, id) {
        SentStays(s.up.sent, Request(s.calls, a.id), id);
      }
    } else {
      assert t.up.sent == s.up.sent;
      forall id | 0 <= id < |t.calls| && t.calls[id].phase.Sent? ensures IsSent(t.up.sent, id) {
        assert id < |s.calls| && s.calls[id].phase.Sent?;
      }
    }
  }

  lemma {:induction false} SentOutInRun(p: Protocol, states: seq<System>, acts: seq<Action>, i: nat)
    requires IsRun(p, states, acts) && i < |states|
    ensures AllSentOut(states[i].calls, states[i].up.sent)
  {
    if i > 0 {
      SentOutInRun(p, states, acts, i - 1);
      assert IsStep(p, states[i - 1], acts[i - 1], states[i]);
      SentOutKeeps(p, states[i - 1], acts[i - 1]);
    }
  }

  /** One of the first `n` requests has this id and is accepted. */
  ghost predicate AcceptedAmong(p: Protocol, sent: seq<Outgoing>, n: nat, id: nat)
    requires n <= |sent|
  {
    exists i :: 0 <= i < n && sent[i].id == id && p.accepts(p.received(sent[i]))
  }

  lemma {:induction false} CountAccepted(p: Protocol, sent: seq<Outgoing>, n: nat, id: nat)
    requires n <= |sent| && forall i, j :: 0 <= i < j < |sent| ==> sent[i].id != sent[j].id
    ensures AcceptedIds(p, sent, n)[id] == if AcceptedAmong(p, sent, n, id) then 1 else 0
  {
    if n > 0 {
      CountAccepted(p, sent, n - 1, id);
      assert AcceptedAmong(p, sent, n, id) <==>
             AcceptedAmong(p, sent, n - 1, id) || (sent[n - 1].id == id && p.accepts(p.received(sent[n - 1])));
    }
  }

  /** The call was sent, and the registry has its service and method and parses its request. */
  predicate ToBeAnswered(r: Registry, calls: seq<Call>, id: nat) {
    id < |calls| && calls[id].phase.Sent? && Answerable(r, calls[id].name, calls[id].request)
  }

  lemma AcceptedAreAnswerable(r: Registry, parsesResponse: Bytes -> bool, s: System, id: nat)
    requires Inv(Real(r, parsesResponse), s) && AllSentOut(s.calls, s.up.sent)
    ensures AcceptedAmong(Real(r, parsesResponse), s.up.sent, |s.up.sent|, id) <==> ToBeAnswered(r, s.calls, id)
  {
    var p, sent := Real(r, parsesResponse), s.up.sent;
    forall i | 0 <= i < |sent| ensures p.accepts(p.received(sent[i])) <==> Answerable(r, s.calls[sent[i].id].name, s.calls[sent[i].id].request) {
      assert sent[i] == Request(s.calls, sent[i].id) && p.fits(sent[i]);
      AcceptsIffAnswerable(r, sent[i]);
    }
    if ToBeAnswered(r, s.calls, id) {
      assert IsSent(sent, id);
    }
  }

  /** In any quiet state of a run, how often a call has completed is decided by the registry alone. */
  lemma QuietAnswersRegistered(r: Registry, parsesResponse: Bytes -> bool, states: seq<System>, acts: seq<Action>, i: nat, id: nat)
    requires IsRun(Real(r, parsesResponse), states, acts) && i < |states| && Quiet(states[i])
    requires forall x :: x in states[i].served ==> parsesResponse(x.response)
    ensures multiset(ServedIds(states[i].client.completed))[id] == if ToBeAnswered(r, states[i].calls, id) then 1 else 0
  {
    var p, s := Real(r, parsesResponse), states[i];
    RealIsLawful(r, parsesResponse);
    assert Inv(p, s) by { RunKeeps(p, states, acts, i); }
    QuietFacts(p, s);
    SentOutInRun(p, states, acts, i);
    CountAccepted(p, s.up.sent, |s.up.sent|, id);
    AcceptedAreAnswerable(r, parsesResponse, s, id);
  }

  /**
   When nothing is under way and every reply parses, the calls completed are exactly the sent
   calls that the registry knows and whose request parses, each once and with the response its own request was given; every
   other registered call is still outstanding.
   */
  lemma QuietMeansAnswered(r: Registry, parsesResponse: Bytes -> bool, states: seq<System>, acts: seq<Action>, i: nat)
    requires IsRun(Real(r, parsesResponse), states, acts) && i < |states| && Quiet(states[i])
    requires forall x :: x in states[i].served ==> parsesResponse(x.response)
    ensures var s := states[i]; var p := Real(r, parsesResponse);
            && s.client.completed == s.served
            && AnsweredByOwn(s.calls, s.ran, s.served)
            && multiset(ServedIds(s.served)) == AcceptedIds(p, s.up.sent, |s.up.sent|)
            && (forall id: nat :: multiset(ServedIds(s.client.completed))[id] == if ToBeAnswered(r, s.calls, id) then 1 else 0)
            && s.client.outstanding == RegisteredIds(s.calls) - IdSet(s.served, |s.served|)
  {
    forall id: nat ensures multiset(ServedIds(states[i].client.completed))[id] == if ToBeAnswered(r, states[i].calls, id) then 1 else 0 {
      QuietAnswersRegistered(r, parsesResponse, states, acts, i, id);
    }
    RealIsLawful(r, parsesResponse);
    assert Inv(Real(r, parsesResponse), states[i]) by { RunKeeps(Real(r, parsesResponse), states, acts, i); }
    QuietFacts(Real(r, parsesResponse), states[i]);
    RealAnswers(r, parsesResponse, states[i].calls, states[i].ran, states[i].served);
  }

  // ----- the steps and the channel object

  /** The handling steps are what `RpcChannel.OnRpcMessage` does to a channel. */
  lemma StepsAreTheChannels(r: Registry, parsesResponse: Bytes -> bool, pending: seq<Closure>, c: Client, e: Event)
    requires e.Message?
    ensures var p := Real(r, parsesResponse);
            && Admit(p, pending, e) == (if e.isResponse then pending else Serve(r, pending, e))
            && Complete(p, c, e).outstanding == (if e.isResponse then c.outstanding - {e.id} else c.outstanding)
            && Complete(p, c, e).completed == c.completed +
               if e.isResponse && e.id in c.outstanding && parsesResponse(e.data) then [Reply(e.id, e.data)] else []
  {
    if e.isResponse && e.id !in c.outstanding {
      assert c.outstanding - {e.id} == c.outstanding;
    }
  }

  /** An undisturbed `RpcChannel.CallMethod` is the three caller steps in a row. */
  lemma CallMethodIsSteps(p: Protocol, s: System, service: Bytes, method_: Bytes, request: Bytes)
    requires Enabled(p, s, Allocate(service, method_, request))
    ensures var id := |s.calls|;
            var s1 := Next(p, s, Allocate(service, method_, request));
            && Enabled(p, s1, Register(id))
            && var s2 := Next(p, s1, Register(id));
            && Enabled(p, s2, Transmit(id))
            && var t := Next(p, s2, Transmit(id));
            && t.client == s.client.(outstanding := s.client.outstanding + {id})
            && t.up == Send(p, s.up, Outgoing(id, service + ":" + method_, request))
            && t.calls == s.calls + [Call(service + ":" + method_, request, Sent)]
            && t == s.(calls := t.calls, client := t.client, up := t.up)
  {
  }

  lemma PendingIsBound(p: Protocol, calls: seq<Call>, pending: seq<Closure>, i: nat) returns (id: nat)
    requires CallsOk(p, calls) && PendingOk(p, calls, pending) && i < |pending|
    ensures id < |calls| <= TWO63 && p.fits(Request(calls, id)) && pending[i] == p.bind(p.received(Request(calls, id)))
  {
    assert BoundTo(p, calls, pending[i]);
    id := IdOf(p, pending[i]);
  }

  lemma OwnNameHasColon(calls: seq<Call>, id: nat)
    requires id < |calls|
    ensures ':' in OwnClosure(calls, id).name
  {
    assert OwnClosure(calls, id).name[|calls[id].name| + 1] == ':';
  }

  lemma PendingHasColon(r: Registry, parsesResponse: Bytes -> bool, states: seq<System>, acts: seq<Action>, j: nat, i: nat)
    requires IsRun(Real(r, parsesResponse), states, acts) && j < |states| && i < |states[j].pending|
    ensures ':' in states[j].pending[i].name
  {
    var p, s := Real(r, parsesResponse), states[j];
    RealIsLawful(r, parsesResponse);
    assert Inv(p, states[j]) by { RunKeeps(p, states, acts, j); }
    var id := PendingIsBound(p, s.calls, s.pending, i);
    BindsOwnClosure(r, parsesResponse, s.calls, id);
    OwnNameHasColon(s.calls, id);
  }

  /** In every run, finishing a call is `RpcChannel.DoneCallback`: there is always a colon, and its reply is what is sent. */
  lemma DoneCallbackIsFinish(r: Registry, parsesResponse: Bytes -> bool, states: seq<System>, acts: seq<Action>, j: nat, i: nat, response: Bytes)
    requires IsRun(Real(r, parsesResponse), states, acts) && j < |states| && i < |states[j].pending|
    requires Enabled(Real(r, parsesResponse), states[j], Finish(i, response))
    ensures var s := states[j]; var t := Next(Real(r, parsesResponse), s, Finish(i, response));
            && ':' in s.pending[i].name
            && t.down.sent == s.down.sent + [ReplyTo(s.pending[i].name, response)]
            && t.pending == s.pending[..i] + s.pending[i + 1..]
  {
    PendingHasColon(r, parsesResponse, states, acts, j, i);
  }
}
