/** Printing a request and parsing the bytes gives the request back, however they are cut. */
module HttpRoundTrip {
  import opened Endian
  import opened Text
  import opened Decimal
  import opened Incremental
  import opened HttpRequests
  import opened HttpContexts

  ghost predicate NoCrlf(b: Bytes) {
    forall i: nat :: !CrlfAt(b, i)
  }

  ghost predicate GoodPath(path: Bytes) {
    NoCrlf(path) && ' ' !in path && '?' !in path
  }

  ghost predicate GoodQuery(q: (Bytes, Bytes)) {
    && NoCrlf(q.0) && ' ' !in q.0 && '&' !in q.0 && '=' !in q.0
    && NoCrlf(q.1) && ' ' !in q.1 && '&' !in q.1
  }

  ghost predicate GoodHeader(h: (Bytes, Bytes)) {
    NoCrlf(h.0) && ':' !in h.0 && NoCrlf(h.1) && Trimmed(h.1)
  }

  ghost predicate GoodQueries(qs: Pairs) {
    forall i :: 0 <= i < |qs| ==> GoodQuery(qs[i])
  }

  ghost predicate GoodHeaders(hs: Pairs) {
    forall i :: 0 <= i < |hs| ==> GoodHeader(hs[i])
  }

  // ----- lines

  lemma LineEnds(line: Bytes, rest: Bytes)
    requires NoCrlf(line)
    ensures FindCrlf(line + CRLF + rest) == |line|
  {
    var b := line + CRLF + rest;
    forall j | 0 <= j < |line| ensures !CrlfAt(b, j) {
      assert !CrlfAt(line, j);
    }
    assert CrlfAt(b, |line|);
    FindCrlfUnique(b, |line|);
  }

  /** Joining at any other character creates no line end. */
  lemma JoinNoCrlf(a: Bytes, c: char, b: Bytes)
    requires NoCrlf(a) && NoCrlf(b) && c != '\r' && c != '\n'
    ensures NoCrlf(a + [c] + b)
  {
    forall i: nat ensures !CrlfAt(a + [c] + b, i) {
      if i + 1 < |a| {
        assert !CrlfAt(a, i);
      } else if |a| < i {
        assert !CrlfAt(b, i - |a| - 1);
      }
    }
  }

  lemma PlainNoCrlf(a: Bytes)
    requires '\r' !in a
    ensures NoCrlf(a)
  {
  }

  // ----- queries

  lemma QueryTextCons(qs: Pairs)
    requires qs != []
    ensures QueryText(qs) == (qs[0].0 + ['='] + qs[0].1) + ['&'] + QueryText(qs[1..])
  {
  }

  lemma {:induction false} QueryTextClean(qs: Pairs)
    requires GoodQueries(qs)
    ensures NoCrlf(QueryText(qs)) && ' ' !in QueryText(qs)
  {
    if qs != [] {
      assert GoodQuery(qs[0]);
      QueryTextClean(qs[1..]);
      QueryTextCons(qs);
      JoinNoCrlf(qs[0].0, '=', qs[0].1);
      JoinNoCrlf(qs[0].0 + ['='] + qs[0].1, '&', QueryText(qs[1..]));
    }
  }

  lemma AddPrintedQuery(m: Fields, q: (Bytes, Bytes))
    requires '=' !in q.0 && q.0 !in m
    ensures AddQuery(m, q.0 + ['='] + q.1) == m[q.0 := q.1]
  {
    var token := q.0 + ['='] + q.1;
    IndexOfSplit(q.0, '=', q.1);
    assert token[..|q.0|] == q.0;
    assert token[|q.0| + 1..] == q.1;
  }

  lemma FirstPiece(qs: Pairs)
    requires qs != [] && GoodQuery(qs[0])
    ensures Pieces(QueryText(qs), "&") == [qs[0].0 + ['='] + qs[0].1] + Pieces(QueryText(qs[1..]), "&")
  {
    QueryTextCons(qs);
    PiecesCut(qs[0].0 + ['='] + qs[0].1, '&', QueryText(qs[1..]));
  }

  lemma {:induction false} AddPrintedQueries(m: Fields, qs: Pairs)
    requires GoodQueries(qs) && Distinct(qs)
    requires forall i :: 0 <= i < |qs| ==> qs[i].0 !in m
    ensures AddQueries(m, Pieces(QueryText(qs), "&")) == m + MapOf(qs)
    decreases |qs|
  {
    if qs == [] {
      assert Pieces([], "&") == [[]];
      assert AddQueries(m, [[]]) == AddQueries(AddQuery(m, []), []);
    } else {
      assert GoodQuery(qs[0]);
      FirstPiece(qs);
      AddPrintedQuery(m, qs[0]);
      AddPrintedQueries(m[qs[0].0 := qs[0].1], qs[1..]);
      MapOfCons(m, qs);
    }
  }

  lemma PrintedQueries(qs: Pairs)
    requires GoodQueries(qs) && Distinct(qs)
    ensures AddQueries(map[], Split(QueryText(qs), "&")) == MapOf(qs)
  {
    if qs != [] {
      QueryTextCons(qs);
    }
    AddPrintedQueries(map[], qs);
  }

  // ----- the request line

  lemma TargetClean(path: Bytes, qs: Pairs)
    requires GoodPath(path) && GoodQueries(qs)
    ensures NoCrlf(Target(path, qs)) && ' ' !in Target(path, qs)
  {
    QueryTextClean(qs);
    JoinNoCrlf(path, '?', QueryText(qs));
    assert Target(path, qs) == path + ['?'] + QueryText(qs);
  }

  // An entry already in the map stays, so what an earlier request left wins over what is parsed.

  lemma {:induction false} StaleQueriesWin(stale: Fields, fresh_: Fields, tokens: seq<Bytes>)
    ensures AddQueries(stale + (fresh_ - stale.Keys), tokens) == AddQueries(fresh_, tokens) + stale
    decreases |tokens|
  {
    var mixed := stale + (fresh_ - stale.Keys);
    if tokens == [] {
      assert mixed == fresh_ + stale;
    } else {
      var next := AddQuery(fresh_, tokens[0]);
      assert AddQuery(mixed, tokens[0]) == stale + (next - stale.Keys);
      StaleQueriesWin(stale, next, tokens[1..]);
    }
  }

  lemma AddToStale(stale: Fields, tokens: seq<Bytes>)
    ensures AddQueries(stale, tokens) == AddQueries(map[], tokens) + stale
  {
    StaleQueriesWin(stale, map[], tokens);
    assert stale + (map[] - stale.Keys) == stale;
  }

  lemma ParseTarget(r: Request, path: Bytes, qs: Pairs)
    requires GoodPath(path) && GoodQueries(qs) && Distinct(qs)
    ensures SetTarget(r, Target(path, qs)) == r.(path := path, query := QueryText(qs), queries := MapOf(qs) + r.queries)
  {
    var target := Target(path, qs);
    assert target == path + ['?'] + QueryText(qs);
    IndexOfSplit(path, '?', QueryText(qs));
    assert target[..|path|] == path;
    assert target[|path| + 1..] == QueryText(qs);
    PrintedQueries(qs);
    AddToStale(r.queries, Split(QueryText(qs), "&"));
  }

  lemma RequestLineClean(m: Method, path: Bytes, qs: Pairs)
    requires GoodPath(path) && GoodQueries(qs)
    ensures NoCrlf(RequestLine(m, path, qs))
  {
    var target := Target(path, qs);
    MethodRoundTrip(m);
    TargetClean(path, qs);
    PlainNoCrlf(MethodString(m));
    PlainNoCrlf("HTTP/1.1");
    JoinNoCrlf(MethodString(m), ' ', target);
    JoinNoCrlf(MethodString(m) + [' '] + target, ' ', "HTTP/1.1");
    assert RequestLine(m, path, qs) == (MethodString(m) + [' '] + target) + [' '] + "HTTP/1.1";
  }

  /** The three fields of a request line, cut at its two spaces. */
  lemma CutLine(method_: Bytes, target: Bytes, version: Bytes)
    requires ' ' !in method_ && ' ' !in target
    ensures var line := method_ + " " + target + " " + version;
            && IndexOf(line, ' ') == |method_| && |method_| < |line|
            && line[..|method_|] == method_
            && line[|method_| + 1..] == target + [' '] + version
  {
    var line := method_ + " " + target + " " + version;
    assert line == method_ + [' '] + (target + [' '] + version);
    IndexOfSplit(method_, ' ', target + [' '] + version);
  }

  /** The request object after a printed request line, if the object was reset before. */
  function AfterLine(previous: Request, m: Method, path: Bytes, qs: Pairs): Request {
    Request(m, Http11, path, QueryText(qs), previous.body, MapOf(qs) + previous.queries, map[])
  }

  lemma ParsePrintedLine(previous: Request, m: Method, path: Bytes, qs: Pairs)
    requires !m.Invalid? && GoodPath(path) && GoodQueries(qs) && Distinct(qs)
    ensures ParseRequestLine(AfterReset(previous), RequestLine(m, path, qs)) == (true, AfterLine(previous, m, path, qs))
  {
    var target, version := Target(path, qs), "HTTP/1.1";
    MethodRoundTrip(m);
    TargetClean(path, qs);
    CutLine(MethodString(m), target, version);
    var rest := target + [' '] + version;
    IndexOfSplit(target, ' ', version);
    assert rest[..|target|] == target;
    assert rest[|target| + 1..] == version;
    ParseTarget(AfterReset(previous).(method_ := m), path, qs);
  }

  // ----- headers

  lemma TrimPrinted(v: Bytes)
    requires Trimmed(v)
    ensures Trim([' '] + v) == v
  {
    assert ([' '] + v)[1..] == v;
    assert SkipLeft([' '] + v) == SkipLeft(v) == v;
    assert SkipRight(v) == v;
  }

  lemma HeaderLine(p: Parser, h: (Bytes, Bytes), rest: Bytes)
    requires p.ok && p.state.ExpectHeaders? && GoodHeader(h)
    ensures Drain(HttpStep, p, (h.0 + ": " + h.1) + CRLF + rest)
         == Drain(HttpStep, p.(request := p.request.(headers := p.request.headers[h.0 := h.1])), rest)
  {
    var line := h.0 + ": " + h.1;
    var b := line + CRLF + rest;
    assert line == h.0 + [':'] + ([' '] + h.1);
    HeaderLineClean(h);
    LineEnds(line, rest);
    assert b[..|line|] == line;
    assert b[|line| + 2..] == rest;
    IndexOfSplit(h.0, ':', [' '] + h.1);
    assert line[..|h.0|] == h.0;
    assert line[|h.0| + 1..] == [' '] + h.1;
    TrimPrinted(h.1);
  }

  lemma HeaderLineClean(h: (Bytes, Bytes))
    requires GoodHeader(h)
    ensures NoCrlf(h.0 + ": " + h.1)
  {
    PlainNoCrlf([]);
    JoinNoCrlf([], ' ', h.1);
    assert [] + [' '] + h.1 == [' '] + h.1;
    JoinNoCrlf(h.0, ':', [' '] + h.1);
    assert h.0 + ": " + h.1 == h.0 + [':'] + ([' '] + h.1);
  }

  lemma BlankLine(p: Parser, rest: Bytes)
    requires p.ok && p.state.ExpectHeaders?
    ensures Drain(HttpStep, p, CRLF + rest) == Drain(HttpStep, p.(state := ExpectBody), rest)
  {
    var b := CRLF + rest;
    PlainNoCrlf([]);
    LineEnds([], rest);
    assert [] + CRLF + rest == b;
    assert b[2..] == rest;
  }

  lemma HeaderTextCons(hs: Pairs, rest: Bytes)
    requires hs != []
    ensures HeaderText(hs) + CRLF + rest == (hs[0].0 + ": " + hs[0].1) + CRLF + (HeaderText(hs[1..]) + CRLF + rest)
  {
  }

  lemma MapOfCons(m: Fields, hs: Pairs)
    requires hs != []
    ensures m[hs[0].0 := hs[0].1] + MapOf(hs[1..]) == m + MapOf(hs)
  {
  }

  function WithHeaders(r: Request, more: Fields): Request {
    r.(headers := r.headers + more)
  }

  lemma {:induction false} DrainHeaders(r: Request, hs: Pairs, rest: Bytes)
    requires GoodHeaders(hs)
    ensures Drain(HttpStep, Parser(ExpectHeaders, r, true), HeaderText(hs) + CRLF + rest)
         == Drain(HttpStep, Parser(ExpectBody, WithHeaders(r, MapOf(hs)), true), rest)
    decreases |hs|
  {
    var p := Parser(ExpectHeaders, r, true);
    if hs == [] {
      assert HeaderText(hs) + CRLF + rest == CRLF + rest;
      BlankLine(p, rest);
      assert WithHeaders(r, MapOf(hs)) == r;
    } else {
      var h, tail := hs[0], HeaderText(hs[1..]) + CRLF + rest;
      var r1 := r.(headers := r.headers[h.0 := h.1]);
      assert GoodHeader(h);
      HeaderTextCons(hs, rest);
      HeaderLine(p, h, tail);
      DrainHeaders(r1, hs[1..], rest);
      MapOfCons(r.headers, hs);
    }
  }

  // ----- the whole request

  /** The parsed form of what was printed, up to the body. */
  function Parsed(previous: Request, m: Method, path: Bytes, qs: Pairs, close: bool, hs: Pairs): Request {
    AfterLine(previous, m, path, qs).(headers := map["Connection" := ConnectionValue(close)] + MapOf(hs))
  }

  /** A context that has been reset. */
  function Reused(previous: Request): Parser {
    Parser(ExpectRequestLine, AfterReset(previous), true)
  }

  ghost predicate Printable(m: Method, path: Bytes, qs: Pairs, hs: Pairs) {
    && !m.Invalid? && GoodPath(path)
    && GoodQueries(qs) && Distinct(qs) && GoodHeaders(hs)
  }

  lemma ConnectionHeader(close: bool)
    ensures GoodHeader(("Connection", ConnectionValue(close)))
  {
    PlainNoCrlf("Connection");
    PlainNoCrlf(ConnectionValue(close));
  }

  lemma DrainLine(previous: Request, m: Method, path: Bytes, qs: Pairs, rest: Bytes)
    requires !m.Invalid? && GoodPath(path) && GoodQueries(qs) && Distinct(qs)
    ensures Drain(HttpStep, Reused(previous), RequestLine(m, path, qs) + CRLF + rest)
         == Drain(HttpStep, Parser(ExpectHeaders, AfterLine(previous, m, path, qs), true), rest)
  {
    var line := RequestLine(m, path, qs);
    var b := line + CRLF + rest;
    RequestLineClean(m, path, qs);
    LineEnds(line, rest);
    assert b[..|line|] == line;
    assert b[|line| + 2..] == rest;
    ParsePrintedLine(previous, m, path, qs);
  }

  function AllHeaders(close: bool, hs: Pairs): Pairs {
    [("Connection", ConnectionValue(close))] + hs
  }

  lemma AllHeadersGood(close: bool, hs: Pairs)
    requires GoodHeaders(hs)
    ensures GoodHeaders(AllHeaders(close, hs))
    ensures map[] + MapOf(AllHeaders(close, hs)) == map["Connection" := ConnectionValue(close)] + MapOf(hs)
  {
    ConnectionHeader(close);
    assert AllHeaders(close, hs)[1..] == hs;
  }

  lemma PrintParts(m: Method, path: Bytes, qs: Pairs, close: bool, hs: Pairs, body: Bytes)
    ensures Print(m, path, qs, close, hs, body)
         == RequestLine(m, path, qs) + CRLF + (HeaderText(AllHeaders(close, hs)) + CRLF + body)
  {
  }

  lemma DrainHead(previous: Request, m: Method, path: Bytes, qs: Pairs, close: bool, hs: Pairs, body: Bytes)
    requires Printable(m, path, qs, hs)
    ensures Drain(HttpStep, Reused(previous), Print(m, path, qs, close, hs, body))
         == Drain(HttpStep, Parser(ExpectBody, Parsed(previous, m, path, qs, close, hs), true), body)
  {
    PrintParts(m, path, qs, close, hs, body);
    DrainLine(previous, m, path, qs, HeaderText(AllHeaders(close, hs)) + CRLF + body);
    AllHeadersGood(close, hs);
    DrainHeaders(AfterLine(previous, m, path, qs), AllHeaders(close, hs), body);
  }

  /** The body the Content-Length header announces; none when it is absent, zero or negative. */
  function Announced(headers: Fields): nat {
    var n := ContentLength(headers);
    if n <= 0 then 0 else n
  }

  /** An announced body replaces the old one; when none is announced the old one stays. */
  lemma DrainBody(r: Request, body: Bytes)
    ensures var o := Drain(HttpStep, Parser(ExpectBody, r, true), body);
            && o.state.request.queries == r.queries
            && (o == Outcome(Parser(GotAll, r.(body := body), true), [], true)
                <==> |body| == Announced(r.headers) && (Announced(r.headers) > 0 || r.body == []))
  {
    assert body[..|body|] == body && body[|body|..] == [];
  }

  /** All entries of `a` are entries of `b`. */
  predicate Within(a: Fields, b: Fields) {
    forall k :: k in a ==> k in b && b[k] == a[k]
  }

  lemma OverrideChangesNothingIff(a: Fields, b: Fields)
    ensures b + a == b <==> Within(a, b)
  {
    if b + a == b {
      forall k | k in a ensures k in b && b[k] == a[k] {
        assert (b + a)[k] == a[k];
      }
    }
  }

  /**
   The round trip through a context that has been reset after any earlier request: a printable
   request, its bytes cut anyhow, is parsed back completely and nothing is left over, if and only
   if its body has the announced length, every query left by the earlier request is among its own,
   and the earlier body is replaced or was empty.
   */
  lemma RoundTripAfterReset(previous: Request, m: Method, path: Bytes, queries: Fields, close: bool, headers: Fields, body: Bytes,
                            qs: Pairs, hs: Pairs, chunks: seq<Bytes>)
    requires Enumerates(qs, queries) && Enumerates(hs, headers) && Printable(m, path, qs, hs)
    requires Flatten(chunks) == Print(m, path, qs, close, hs, body)
    ensures var merged := map["Connection" := ConnectionValue(close)] + headers;
            Feed(HttpStep, Reused(previous), [], chunks) ==
            Outcome(Parser(GotAll, Request(m, Http11, path, QueryText(qs), body, queries, merged), true), [], true)
            <==>
            |body| == Announced(merged) && Within(previous.queries, queries) && (Announced(merged) > 0 || previous.body == [])
  {
    ParsingIgnoresChunking(AfterReset(previous), chunks);
    DrainHead(previous, m, path, qs, close, hs, body);
    DrainBody(Parsed(previous, m, path, qs, close, hs), body);
    OverrideChangesNothingIff(previous.queries, queries);
  }

  /** In a new context only the length of the body counts. */
  lemma RoundTrip(m: Method, path: Bytes, queries: Fields, close: bool, headers: Fields, body: Bytes,
                  qs: Pairs, hs: Pairs, chunks: seq<Bytes>)
    requires Enumerates(qs, queries) && Enumerates(hs, headers) && Printable(m, path, qs, hs)
    requires Flatten(chunks) == Print(m, path, qs, close, hs, body)
    ensures var merged := map["Connection" := ConnectionValue(close)] + headers;
            Feed(HttpStep, Start, [], chunks) ==
            Outcome(Parser(GotAll, Request(m, Http11, path, QueryText(qs), body, queries, merged), true), [], true)
            <==> |body| == Announced(merged)
  {
    RoundTripAfterReset(Fresh, m, path, queries, close, headers, body, qs, hs, chunks);
  }

  /** A decimal Content-Length announces exactly its number, up to the range of `int`. */
  lemma DecimalAnnounces(headers: Fields, n: nat)
    requires n < TWO31 && "Content-Length" in headers && headers["Content-Length"] == ToDecimal(n)
    ensures Announced(headers) == n
  {
    var s := ToDecimal(n);
    ReadDecimal(n);
    assert SkipSpace(s) == s;
  }

  // ----- the next request on the same connection

  /**
   After a reset the next request's queries are those of a fresh context overridden by the
   old ones, so they are right exactly when every old entry occurs among the new ones.
   */
  lemma QueriesAfterReset(r: Request, target: Bytes)
    ensures var clean, reused := SetTarget(Fresh, target), SetTarget(AfterReset(r), target);
            && reused.queries == clean.queries + r.queries
            && (reused.queries == clean.queries <==> Within(r.queries, clean.queries))
  {
    var q := IndexOf(target, '?');
    if q == |target| {
      assert map[] + r.queries == r.queries;
    } else {
      AddToStale(r.queries, Split(target[q + 1..], "&"));
    }
    OverrideChangesNothingIff(r.queries, SetTarget(Fresh, target).queries);
  }

  /** One old entry, and a target without any query. */
  lemma StaleQueryShows(r: Request)
    requires r.queries == map["a" := "1"]
    ensures SetTarget(Fresh, "/").queries == map[] && SetTarget(AfterReset(r), "/").queries == r.queries
  {
    IndexOfUnique("/", '?', 1);
    QueriesAfterReset(r, "/");
  }

  /** An old body shows in the next request if that announces none. */
  lemma StaleBodyShows(previous: Request, m: Method, path: Bytes, qs: Pairs, close: bool, hs: Pairs)
    requires Printable(m, path, qs, hs) && Announced(map["Connection" := ConnectionValue(close)] + MapOf(hs)) == 0
    ensures Drain(HttpStep, Reused(previous), Print(m, path, qs, close, hs, [])).state.request.body == previous.body
  {
    DrainHead(previous, m, path, qs, close, hs, []);
    NoBodyTaken(Parsed(previous, m, path, qs, close, hs));
  }

  lemma NoBodyTaken(r: Request)
    requires Announced(r.headers) == 0
    ensures Drain(HttpStep, Parser(ExpectBody, r, true), []).state.request.body == r.body
  {
  }
}
