/**
 The two roles of rpc/RpcChannel.cc. A client numbers its calls and keeps those still
 waiting for a reply; a server binds each accepted request to a closure that carries the
 service, the method and the id as one text, from which the reply's id is read back.
 */
module RpcChannels {
  import opened Endian
  import opened Text
  import opened Decimal
  import opened RpcCodec

  /** What the server knows: its services with their methods, and which payloads parse. */
  datatype Registry = Registry(services: map<Bytes, set<Bytes>>, parses: (Bytes, Bytes, Bytes) -> bool)

  /** A request handed to a service, and the name its done closure was bound to. */
  datatype Closure = Closure(name: Bytes, request: Bytes)

  /** A std::string up to its first NUL, which is how descriptors look names up. */
  function CStr(s: Bytes): Bytes {
    s[..IndexOf(s, '\0')]
  }

  predicate Accepts(r: Registry, e: Event) {
    && e.Message? && !e.isResponse
    && e.service in r.services
    && CStr(e.method_) in r.services[e.service]
    && r.parses(e.service, CStr(e.method_), e.data)
  }

  /** The service is registered, has the method, and the method's request type parses the bytes. */
  predicate Knows(r: Registry, service: Bytes, method_: Bytes, request: Bytes) {
    service in r.services && method_ in r.services[service] && r.parses(service, method_, request)
  }

  /** A call by this name: the service up to the first colon, the method behind it up to a NUL. */
  predicate Answerable(r: Registry, name: Bytes, request: Bytes) {
    var pos := IndexOf(name, ':');
    pos < |name| && Knows(r, name[..pos], CStr(name[pos + 1..]), request)
  }

  lemma CStrEnds(a: Bytes, b: Bytes)
    requires '\0' !in a && (b == [] || b[0] == '\0')
    ensures CStr(a + b) == a
  {
    assert (a + b)[..|a|] == a;
    IndexOfUnique(a + b, '\0', |a|);
  }

  lemma CStrKeeps(s: Bytes)
    ensures CStr(s + "\0") == CStr(s)
  {
    var pos := IndexOf(s, '\0');
    assert s == s[..pos] + s[pos..];
    assert s + "\0" == s[..pos] + (s[pos..] + "\0");
    CStrEnds(s[..pos], s[pos..] + "\0");
  }

  /** The server accepts what its own client sends exactly if it can answer it. */
  lemma AcceptsIffAnswerable(r: Registry, m: Outgoing)
    requires Sendable(m) && m.id < TWO63
    ensures Accepts(r, Received(m)) <==> Answerable(r, m.name, m.payload)
  {
    NameHasColon(m.name);
    CStrKeeps(m.name[IndexOf(m.name, ':') + 1..]);
  }

  lemma RegisteredAnswers(r: Registry, service: Bytes, method_: Bytes, behind: Bytes, request: Bytes)
    requires ':' !in service && '\0' !in method_ && (behind == [] || behind[0] == '\0')
    ensures Answerable(r, service + ":" + (method_ + behind), request) <==> Knows(r, service, method_, request)
  {
    var name := service + [':'] + (method_ + behind);
    IndexOfSplit(service, ':', method_ + behind);
    assert name[..|service|] == service && name[|service| + 1..] == method_ + behind;
    CStrEnds(method_, behind);
  }

  /** For a service without a colon and a method name, with or without something behind a NUL: what the registry says. */
  lemma AcceptsRegistered(r: Registry, id: nat, service: Bytes, method_: Bytes, behind: Bytes, request: Bytes)
    requires id < TWO63 && ':' !in service && '\0' !in method_ && (behind == [] || behind[0] == '\0')
    requires Sendable(Outgoing(id, service + ":" + (method_ + behind), request))
    ensures Accepts(r, Received(Outgoing(id, service + ":" + (method_ + behind), request))) <==> Knows(r, service, method_, request)
  {
    AcceptsIffAnswerable(r, Outgoing(id, service + ":" + (method_ + behind), request));
    RegisteredAnswers(r, service, method_, behind, request);
  }

  function ClosureName(service: Bytes, method_: Bytes, id: nat): Bytes {
    service + ":" + method_ + ":" + ToDecimal(id)
  }

  /** The request branch of onRpcMessage. */
  function Serve(r: Registry, pending: seq<Closure>, e: Event): seq<Closure> {
    if Accepts(r, e) then pending + [Closure(ClosureName(e.service, e.method_, e.id), e.data)] else pending
  }

  /** x | 0x8000000000000000 */
  function MarkResponse(id: nat): (x: nat)
    requires id < TWO64
    ensures x < TWO64 && x >= TWO63 && x % TWO63 == id % TWO63
  {
    if id >= TWO63 then id else id + TWO63
  }

  /** The message doneCallback sends; it always has one, as closure names contain a colon. */
  function ReplyTo(name: Bytes, response: Bytes): Outgoing {
    var pos := LastIndexOf(name, ':');
    Outgoing(MarkResponse(StrToULL(name[pos + 1..])), if pos < 0 then [] else name[..pos], response)
  }

  /** Going through the closure's text loses neither the id nor the name. */
  lemma ReplyFindsId(service: Bytes, method_: Bytes, id: nat, response: Bytes)
    requires id < TWO63
    ensures ReplyTo(ClosureName(service, method_, id), response)
         == Outgoing(TWO63 + id, service + ":" + method_, response)
  {
    var name, pos := ClosureName(service, method_, id), |service| + 1 + |method_|;
    var digits := ToDecimal(id);
    assert name[pos + 1..] == digits;
    assert ':' !in digits;
    LastIndexOfUnique(name, ':', pos);
    DecimalRoundTrip(id);
    assert name[..pos] == service + ":" + method_;
  }

  /** A channel in both its roles; `sent`, `pending` and `completed` record its sends, bound closures and finished calls. */
  class RpcChannel {
    var nextId: nat
    var outstandings: set<nat>
    var sent: seq<Outgoing>
    var pending: seq<Closure>
    var completed: seq<(nat, Bytes)>

    constructor ()
      ensures nextId == 0 && outstandings == {} && sent == [] && pending == [] && completed == []
    {
      nextId, outstandings, sent, pending, completed := 0, {}, [], [], [];
    }

    method CallMethod(service: Bytes, method_: Bytes, request: Bytes) returns (id: nat)
      modifies this
      ensures id == old(nextId) && nextId == id + 1
      ensures outstandings == old(outstandings) + {id}
      ensures sent == old(sent) + [Outgoing(id, service + ":" + method_, request)]
      ensures pending == old(pending) && completed == old(completed)
    {
      id := nextId;
      nextId := nextId + 1;
      outstandings := outstandings + {id};
      sent := sent + [Outgoing(id, service + ":" + method_, request)];
    }

    method OnRpcMessage(r: Registry, parsesResponse: Bytes -> bool, e: Event)
      requires e.Message?
      modifies this
      ensures nextId == old(nextId) && sent == old(sent)
      ensures pending == if e.isResponse then old(pending) else Serve(r, old(pending), e)
      ensures e.isResponse ==> outstandings == old(outstandings) - {e.id}
      ensures !e.isResponse ==> outstandings == old(outstandings)
      ensures completed == old(completed) +
              if e.isResponse && e.id in old(outstandings) && parsesResponse(e.data) then [(e.id, e.data)] else []
    {
      if e.isResponse {
        var found := e.id in outstandings;
        outstandings := outstandings - {e.id};
        if found {
          if parsesResponse(e.data) {
            completed := completed + [(e.id, e.data)];
          }
        }
      } else {
        if e.service in r.services {
          var methodName := CStr(e.method_);
          if methodName in r.services[e.service] {
            if r.parses(e.service, methodName, e.data) {
              pending := pending + [Closure(ClosureName(e.service, e.method_, e.id), e.data)];
            }
          }
        }
      }
    }

    method DoneCallback(i: nat, response: Bytes)
      requires i < |pending|
      modifies this
      ensures nextId == old(nextId) && outstandings == old(outstandings) && completed == old(completed)
      ensures pending == old(pending)[..i] + old(pending)[i + 1..]
      ensures sent == old(sent) +
              if ':' in old(pending)[i].name then [ReplyTo(old(pending)[i].name, response)] else []
    {
      var name := pending[i].name;
      pending := pending[..i] + pending[i + 1..];
      var pos := LastIndexOf(name, ':');
      LastIndexOfFound(name, ':');
      if pos >= 0 {
        var id := StrToULL(name[pos + 1..]);
        sent := sent + [Outgoing(MarkResponse(id), name[..pos], response)];
      }
    }
  }
}
