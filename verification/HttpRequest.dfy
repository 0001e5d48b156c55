/**
 HTTP requests (http/HttpRequest.h): the parsed fields, the request line, one header
 line, and the printed form. `Request` is the value; the class `HttpRequest` holds it
 in fields that setters update in place.
 */
module HttpRequests {
  import opened Endian
  import opened Text
  import opened Decimal
  import opened Buffers

  datatype Method = Invalid | Get | Post | Head | Put | Delete

  datatype Version = Unknown | Http10 | Http11

  type Fields = map<Bytes, Bytes>

  datatype Request = Request(
    method_: Method, version: Version, path: Bytes, query: Bytes, body: Bytes, queries: Fields, headers: Fields)

  const Fresh := Request(Invalid, Unknown, [], [], [], map[], map[])

  function MethodString(m: Method): Bytes {
    match m
    case Get => "GET"
    case Post => "POST"
    case Head => "HEAD"
    case Put => "PUT"
    case Delete => "DELETE"
    case Invalid => "UNKNOWN"
  }

  function ParseMethod(s: Bytes): Method {
    if s == "GET" then Get
    else if s == "POST" then Post
    else if s == "HEAD" then Head
    else if s == "PUT" then Put
    else if s == "DELETE" then Delete
    else Invalid
  }

  lemma MethodRoundTrip(m: Method)
    ensures ParseMethod(MethodString(m)) == m
    ensures ' ' !in MethodString(m) && '\r' !in MethodString(m)
  {
  }

  // ----- splitting (common/util.hpp)

  function Glue(s: Bytes, ps: seq<Bytes>): (r: seq<Bytes>)
    requires ps != []
    ensures |r| == |ps|
  {
    [s + ps[0]] + ps[1..]
  }

  /** The maximal runs of characters outside `sep`; one more than there are separators. */
  function Pieces(src: Bytes, sep: Bytes): (ps: seq<Bytes>)
    ensures ps != []
  {
    if src == [] then [[]]
    else if src[0] in sep then [[]] + Pieces(src[1..], sep)
    else Glue([src[0]], Pieces(src[1..], sep))
  }

  function Split(src: Bytes, sep: Bytes): seq<Bytes> {
    if src == [] then [] else Pieces(src, sep)
  }

  lemma GlueFacts(s: Bytes, c: char, rest: seq<Bytes>)
    requires rest != []
    ensures Glue(s, [[]] + rest) == [s] + Glue([], rest)
    ensures Glue(s, Glue([c], rest)) == Glue(s + [c], rest)
    ensures Glue([], rest) == rest && Glue(s, [[]]) == [s]
  {
    assert s + [] == s && [] + rest[0] == rest[0];
    assert s + ([c] + rest[0]) == (s + [c]) + rest[0];
  }

  method SplitLoop(src: Bytes, sep: Bytes) returns (tokens: seq<Bytes>)
    ensures tokens == Split(src, sep)
  {
    tokens := [];
    var s: Bytes := [];
    var i := 0;
    assert src[0..] == src;
    GlueFacts(s, ' ', Pieces(src, sep));
    while i < |src|
      invariant i <= |src|
      invariant Pieces(src, sep) == tokens + Glue(s, Pieces(src[i..], sep))
      invariant i > 0 ==> s != [] || tokens != []
    {
      ghost var rest := Pieces(src[i + 1..], sep);
      assert src[i..][1..] == src[i + 1..];
      GlueFacts(s, src[i], rest);
      if src[i] in sep {
        tokens := tokens + [s];
        s := [];
      } else {
        s := s + [src[i]];
      }
      i := i + 1;
    }
    assert src[i..] == [];
    GlueFacts(s, ' ', [[]]);
    if |s| > 0 || |tokens| > 0 {
      tokens := tokens + [s];
    }
  }

  function Join(ps: seq<Bytes>, c: char): Bytes
    requires ps != []
  {
    if |ps| == 1 then ps[0] else ps[0] + [c] + Join(ps[1..], c)
  }

  lemma GlueJoin(s: Bytes, ps: seq<Bytes>, c: char)
    requires ps != []
    ensures Join(Glue(s, ps), c) == s + Join(ps, c)
  {
    assert Glue(s, ps)[1..] == ps[1..];
  }

  /** Splitting loses nothing, and cuts at every separator. */
  lemma {:induction false} SplitInverse(src: Bytes, c: char)
    ensures Join(Pieces(src, [c]), c) == src
    ensures forall i :: 0 <= i < |Pieces(src, [c])| ==> c !in Pieces(src, [c])[i]
  {
    if src != [] {
      var rest := Pieces(src[1..], [c]);
      SplitInverse(src[1..], c);
      if src[0] == c {
        assert ([[]] + rest)[1..] == rest;
      } else {
        GlueJoin([src[0]], rest, c);
      }
    }
  }

  lemma {:induction false} PiecesCut(a: Bytes, c: char, b: Bytes)
    requires c !in a
    ensures Pieces(a + [c] + b, [c]) == [a] + Pieces(b, [c])
  {
    if a == [] {
      assert (a + [c] + b)[1..] == b;
    } else {
      assert (a + [c] + b)[1..] == a[1..] + [c] + b;
      PiecesCut(a[1..], c, b);
      assert [a[0]] + a[1..] == a;
    }
  }

  // ----- the request line

  /** std::map::insert: an entry already there stays. */
  function Insert(m: Fields, key: Bytes, value: Bytes): Fields {
    if key in m then m else m[key := value]
  }

  function AddQuery(m: Fields, token: Bytes): Fields {
    var pos := IndexOf(token, '=');
    if pos == |token| then m else Insert(m, token[..pos], token[pos + 1..])
  }

  function AddQueries(m: Fields, tokens: seq<Bytes>): Fields
    decreases |tokens|
  {
    if tokens == [] then m else AddQueries(AddQuery(m, tokens[0]), tokens[1..])
  }

  function ParseVersion(s: Bytes): Version {
    if s == "HTTP/1.1" then Http11 else if s == "HTTP/1.0" then Http10 else Unknown
  }

  function SetTarget(r: Request, target: Bytes): Request {
    var q := IndexOf(target, '?');
    if q == |target| then r.(path := target)
    else
      var query := target[q + 1..];
      r.(path := target[..q], query := query, queries := AddQueries(r.queries, Split(query, "&")))
  }

  /** parseRequestLine behind the method: target and version. */
  function ParseTargetAndVersion(r: Request, rest: Bytes): (bool, Request) {
    var sp := IndexOf(rest, ' ');
    if sp == |rest| then (false, r)
    else
      var r1 := SetTarget(r, rest[..sp]);
      var v := ParseVersion(rest[sp + 1..]);
      if v.Unknown? then (false, r1) else (true, r1.(version := v))
  }

  /** parseRequestLine: the verdict, and the fields set on the way even when it fails. */
  function ParseRequestLine(r: Request, line: Bytes): (bool, Request) {
    var sp := IndexOf(line, ' ');
    if sp == |line| then (false, r)
    else
      var r1 := r.(method_ := ParseMethod(line[..sp]));
      if r1.method_.Invalid? then (false, r1) else ParseTargetAndVersion(r1, line[sp + 1..])
  }

  // ----- header lines

  function SkipLeft(s: Bytes): (t: Bytes)
    ensures t == [] || !IsSpace(t[0])
  {
    if s != [] && IsSpace(s[0]) then SkipLeft(s[1..]) else s
  }

  function SkipRight(s: Bytes): (t: Bytes)
    ensures t == [] || !IsSpace(t[|t| - 1])
  {
    if s != [] && IsSpace(s[|s| - 1]) then SkipRight(s[..|s| - 1]) else s
  }

  function Trim(s: Bytes): Bytes {
    SkipRight(SkipLeft(s))
  }

  predicate Trimmed(s: Bytes) {
    s == [] || (!IsSpace(s[0]) && !IsSpace(s[|s| - 1]))
  }

  /** addHeader on a line whose first colon is at `colon`. */
  function AddHeader(headers: Fields, line: Bytes, colon: nat): Fields
    requires colon < |line|
  {
    headers[line[..colon] := Trim(line[colon + 1..])]
  }

  function GetHeader(headers: Fields, field: Bytes): Bytes {
    if field in headers then headers[field] else []
  }

  /** C's atoi as glibc computes it: strtol, saturating at 64 bits, cut down to 32. */
  function Atoi(s: Bytes): (x: int)
    ensures -TWO31 <= x < TWO31
  {
    var t := SkipSpace(s);
    var negative := t != [] && t[0] == '-';
    var v: int := ReadDigits(10, if t != [] && (t[0] == '-' || t[0] == '+') then t[1..] else t, 0);
    AsInt32(Saturated(negative, v) % TWO32)
  }

  /** strtol's result when the digits say too much. */
  function Saturated(negative: bool, v: int): int {
    if negative then (if v > TWO63 then -TWO63 else -v) else (if v >= TWO63 then TWO63 - 1 else v)
  }

  function ContentLength(headers: Fields): int {
    Atoi(GetHeader(headers, "Content-Length"))
  }

  /** HttpContext::reset swaps all fields but the body and the query map. */
  function AfterReset(r: Request): Request {
    Fresh.(body := r.body, queries := r.queries)
  }

  // ----- printing

  type Pairs = seq<(Bytes, Bytes)>

  /** The map a list of pairs stands for; later pairs override earlier ones. */
  function MapOf(ps: Pairs): Fields {
    if ps == [] then map[] else map[ps[0].0 := ps[0].1] + MapOf(ps[1..])
  }

  predicate Distinct(ps: Pairs) {
    forall i, j :: 0 <= i < j < |ps| ==> ps[i].0 != ps[j].0
  }

  /** `ps` lists the entries of `m`, each once; iteration may take any order. */
  predicate Enumerates(ps: Pairs, m: Fields) {
    Distinct(ps) && MapOf(ps) == m
  }

  /** Pairs one after the other, with a mark between key and value and one after. */
  function PairText(ps: Pairs, between: Bytes, after: Bytes): Bytes {
    if ps == [] then [] else ps[0].0 + between + ps[0].1 + after + PairText(ps[1..], between, after)
  }

  function QueryText(qs: Pairs): Bytes {
    PairText(qs, "=", "&")
  }

  function HeaderText(hs: Pairs): Bytes {
    PairText(hs, ": ", CRLF)
  }

  function Target(path: Bytes, qs: Pairs): Bytes {
    path + "?" + QueryText(qs)
  }

  function RequestLine(m: Method, path: Bytes, qs: Pairs): Bytes {
    MethodString(m) + " " + Target(path, qs) + " " + "HTTP/1.1"
  }

  function ConnectionValue(close: bool): Bytes {
    if close then "close" else "Keep-Alive"
  }

  /** appendToBuffer: request line, Connection header, the other headers, blank line, body. */
  function Print(m: Method, path: Bytes, qs: Pairs, close: bool, hs: Pairs, body: Bytes): Bytes {
    RequestLine(m, path, qs) + CRLF + HeaderText([("Connection", ConnectionValue(close))] + hs) + CRLF + body
  }

  method TrimFrom(line: Bytes, from: nat) returns (value: Bytes)
    requires from <= |line|
    ensures value == Trim(line[from..])
  {
    var i := from;
    while i < |line| && IsSpace(line[i])
      invariant i <= |line|
      invariant SkipLeft(line[i..]) == SkipLeft(line[from..])
    {
      assert line[i..][1..] == line[i + 1..];
      i := i + 1;
    }
    value := line[i..];
    assert SkipLeft(value) == value;
    while value != [] && IsSpace(value[|value| - 1])
      invariant SkipRight(value) == Trim(line[from..])
    {
      value := value[..|value| - 1];
    }
  }

  // ----- the object

  class HttpRequest {
    var method_: Method
    var version: Version
    var path: Bytes
    var query: Bytes
    var body: Bytes
    var queries: Fields
    var headers: Fields
    const closeConnection: bool

    ghost function Value(): Request
      reads this
    {
      Request(method_, version, path, query, body, queries, headers)
    }

    constructor (close: bool)
      ensures Value() == Fresh && closeConnection == close
    {
      method_, version, path, query, body, queries, headers := Invalid, Unknown, [], [], [], map[], map[];
      closeConnection := close;
    }

    /** swap with a new request: body and query map are not among the fields exchanged. */
    method SwapWithFresh()
      modifies this
      ensures Value() == AfterReset(old(Value()))
    {
      method_, version, path, query, headers := Invalid, Unknown, [], [], map[];
    }

    method SetMethod(s: Bytes) returns (ok: bool)
      modifies this
      ensures Value() == old(Value()).(method_ := ParseMethod(s))
      ensures ok == !method_.Invalid?
    {
      method_ := ParseMethod(s);
      ok := !method_.Invalid?;
    }

    /** Path, query text and query map, from the part of the request line between the spaces. */
    method SetPathAndQuery(target: Bytes)
      modifies this
      ensures Value() == SetTarget(old(Value()), target)
    {
      var q := IndexOf(target, '?');
      if q == |target| {
        path := target;
        return;
      }
      path, query := target[..q], target[q + 1..];
      var parmlist := SplitLoop(query, "&");
      ghost var all := AddQueries(queries, parmlist);
      var i := 0;
      assert parmlist[0..] == parmlist;
      while i < |parmlist|
        invariant i <= |parmlist|
        invariant AddQueries(queries, parmlist[i..]) == all
        invariant Value() == SetTarget(old(Value()), target).(queries := queries)
      {
        assert parmlist[i..][1..] == parmlist[i + 1..];
        queries := AddQuery(queries, parmlist[i]);
        i := i + 1;
      }
    }

    method AddHeaderLine(line: Bytes, colon: nat)
      requires colon < |line|
      modifies this
      ensures Value() == old(Value()).(headers := AddHeader(old(headers), line, colon))
    {
      var value := TrimFrom(line, colon + 1);
      headers := headers[line[..colon] := value];
    }

    /** Prints in whatever order iteration yields; that order is returned for the record. */
    method AppendToBuffer(output: Buffer) returns (ghost qs: Pairs, ghost hs: Pairs)
      requires output.Valid()
      modifies output, output.data
      ensures output.Valid() && (output.data == old(output.data) || fresh(output.data))
      ensures Enumerates(qs, queries) && Enumerates(hs, headers)
      ensures output.Contents() == old(output.Contents()) + Print(method_, path, qs, closeConnection, hs, body)
    {
      var part;
      part, qs := JoinPairs(queries, "=", "&");
      var line := MethodString(method_) + " " + (path + "?" + part) + " " + "HTTP/1.1";
      assert line == RequestLine(method_, path, qs);
      part, hs := JoinPairs(headers, ": ", CRLF);
      var connection := "Connection" + ": " + ConnectionValue(closeConnection) + CRLF;
      ConnectionFirst(closeConnection, hs);
      output.Append(line + CRLF + (connection + part) + CRLF + body);
    }
  }

  lemma ConnectionFirst(close: bool, hs: Pairs)
    ensures HeaderText([("Connection", ConnectionValue(close))] + hs)
         == "Connection" + ": " + ConnectionValue(close) + CRLF + HeaderText(hs)
  {
    var p := ("Connection", ConnectionValue(close));
    assert ([p] + hs)[1..] == hs;
  }

  lemma {:induction false} PairTextSnoc(ps: Pairs, p: (Bytes, Bytes), between: Bytes, after: Bytes)
    ensures PairText(ps + [p], between, after) == PairText(ps, between, after) + (p.0 + between + p.1 + after)
  {
    if ps == [] {
      assert (ps + [p])[1..] == [];
    } else {
      assert (ps + [p])[1..] == ps[1..] + [p];
      PairTextSnoc(ps[1..], p, between, after);
    }
  }

  lemma {:induction false} MapOfSnoc(ps: Pairs, p: (Bytes, Bytes))
    ensures MapOf(ps + [p]) == MapOf(ps)[p.0 := p.1]
  {
    if ps == [] {
      assert (ps + [p])[1..] == [];
    } else {
      assert (ps + [p])[1..] == ps[1..] + [p];
      MapOfSnoc(ps[1..], p);
    }
  }

  lemma {:induction false} MapOfKeys(ps: Pairs, i: nat)
    requires i < |ps|
    ensures ps[i].0 in MapOf(ps)
  {
    if i > 0 {
      MapOfKeys(ps[1..], i - 1);
    }
  }

  lemma DistinctSnoc(ps: Pairs, p: (Bytes, Bytes))
    requires Distinct(ps) && p.0 !in MapOf(ps)
    ensures Distinct(ps + [p])
  {
    forall i | 0 <= i < |ps| ensures ps[i].0 != p.0 {
      MapOfKeys(ps, i);
    }
  }

  lemma MoveEntry(left: Fields, done: Fields, k: Bytes)
    requires k in left && left.Keys !! done.Keys
    ensures (left - {k}) + done[k := left[k]] == left + done
    ensures (left - {k}).Keys !! done[k := left[k]].Keys
  {
  }

  /** Entries of a map, in any order, each printed once. */
  method JoinPairs(m: Fields, between: Bytes, after: Bytes) returns (text: Bytes, ghost ps: Pairs)
    ensures Enumerates(ps, m) && text == PairText(ps, between, after)
  {
    text, ps := [], [];
    var left := m;
    while left.Keys != {}
      invariant Distinct(ps) && text == PairText(ps, between, after)
      invariant left.Keys !! MapOf(ps).Keys && left + MapOf(ps) == m
      decreases |left.Keys|
    {
      var k :| k in left.Keys;
      ghost var p := (k, left[k]);
      PairTextSnoc(ps, p, between, after);
      MapOfSnoc(ps, p);
      MoveEntry(left, MapOf(ps), k);
      DistinctSnoc(ps, p);
      text := text + (k + between + left[k] + after);
      ps := ps + [p];
      left := left - {k};
    }
    assert left + MapOf(ps) == MapOf(ps);
  }
}
