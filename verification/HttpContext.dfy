/**
 The incremental request parser (http/HttpContext.cc): a state, the request built so far,
 and a loop that takes lines and then the body off the buffer as they become complete.
 */
module HttpContexts {
  import opened Endian
  import opened Text
  import opened Buffers
  import opened Incremental
  import opened HttpRequests

  datatype State = ExpectRequestLine | ExpectHeaders | ExpectBody | GotAll

  /** Everything a call can change, and its verdict. */
  datatype Parser = Parser(state: State, request: Request, ok: bool)

  const Start := Parser(ExpectRequestLine, Fresh, true)

  /** A line among the headers: a header, the blank line that ends them, or an error. */
  function HeaderLineSeen(s: Parser, line: Bytes): Parser {
    var colon := IndexOf(line, ':');
    if colon < |line| then s.(request := s.request.(headers := AddHeader(s.request.headers, line, colon)))
    else if line == [] then s.(state := ExpectBody)
    else s.(ok := false)
  }

  /** One turn of the parseRequest loop. In `GotAll` the loop has no branch to take. */
  function HttpStep(s: Parser, b: Bytes): Step<Parser> {
    match s.state
    case ExpectRequestLine =>
      var end := FindCrlf(b);
      if end == |b| then Wait
      else
        var (ok, r) := ParseRequestLine(s.request, b[..end]);
        if ok then Go(Parser(ExpectHeaders, r, s.ok), end + 2) else Stop(Parser(ExpectRequestLine, r, false), 0)
    case ExpectHeaders =>
      var end := FindCrlf(b);
      if end == |b| then Wait
      else
        var t := HeaderLineSeen(s, b[..end]);
        if t.ok then Go(t, end + 2) else Stop(t, end + 2)
    case ExpectBody =>
      var n := ContentLength(s.request.headers);
      if n <= 0 then Stop(s.(state := GotAll), 0)
      else if |b| < n then Wait
      else Stop(s.(state := GotAll, request := s.request.(body := b[..n])), n)
    case GotAll => Wait
  }

  lemma StepProductive()
    ensures Productive(HttpStep)
  {
  }

  lemma StepStable()
    ensures PrefixStable(HttpStep)
  {
    forall s: Parser, a: Bytes, b: Bytes | !HttpStep(s, a).Wait?
      ensures HttpStep(s, a + b) == HttpStep(s, a)
    {
      if s.state.ExpectRequestLine? || s.state.ExpectHeaders? {
        var end := FindCrlf(a);
        FindCrlfStable(a, b);
        assert (a + b)[..end] == a[..end];
      } else if s.state.ExpectBody? {
        var n := ContentLength(s.request.headers);
        if n > 0 {
          assert (a + b)[..n] == a[..n];
        }
      }
    }
  }

  /**
   From a context that expects a request, whatever its request object still holds and however the
   input is cut: state, verdict, parsed fields and unread bytes are those of a single call on the
   whole input, up to the first error or complete request.
   */
  lemma ParsingIgnoresChunking(r: Request, chunks: seq<Bytes>)
    ensures var s := Parser(ExpectRequestLine, r, true);
            Feed(HttpStep, s, [], chunks) == Drain(HttpStep, s, Flatten(chunks))
  {
    StepProductive();
    StepStable();
    ChunkingIsIrrelevant(HttpStep, Parser(ExpectRequestLine, r, true), [], chunks);
    assert [] + Flatten(chunks) == Flatten(chunks);
  }

  /** What one turn makes of parser and buffer. */
  ghost predicate Advanced(s: Parser, b: Bytes, t: Parser, c: Bytes, hasMore: bool) {
    match HttpStep(s, b)
    case Wait => !hasMore && t == s && c == b
    case Go(next, used) => hasMore && t == next && used <= |b| && c == b[used..]
    case Stop(final, used) => !hasMore && t == final && used <= |b| && c == b[used..]
  }

  lemma DrainAdvanced(s: Parser, b: Bytes, t: Parser, c: Bytes, hasMore: bool)
    requires Advanced(s, b, t, c, hasMore) && s.ok && !s.state.GotAll?
    ensures hasMore ==> t.ok && !t.state.GotAll? && |c| < |b|
    ensures Drain(HttpStep, s, b) == if hasMore then Drain(HttpStep, t, c) else Outcome(t, c, t.state.GotAll? || !t.ok)
  {
  }

  class HttpContext {
    var state: State
    const request: HttpRequest

    constructor ()
      ensures state == ExpectRequestLine && fresh(request) && request.Value() == Fresh
    {
      state := ExpectRequestLine;
      request := new HttpRequest(false);
    }

    ghost function Now(ok: bool): Parser
      reads this, request
    {
      Parser(state, request.Value(), ok)
    }

    method Reset()
      modifies this, request
      ensures Now(true) == Parser(ExpectRequestLine, AfterReset(old(request.Value())), true)
    {
      state := ExpectRequestLine;
      request.SwapWithFresh();
    }

    method TryTargetAndVersion(rest: Bytes) returns (success: bool)
      modifies request
      ensures (success, request.Value()) == ParseTargetAndVersion(old(request.Value()), rest)
    {
      var space := IndexOf(rest, ' ');
      if space == |rest| {
        return false;
      }
      request.SetPathAndQuery(rest[..space]);
      var v := ParseVersion(rest[space + 1..]);
      success := !v.Unknown?;
      if success {
        request.version := v;
      }
    }

    method TryRequestLine(line: Bytes) returns (success: bool)
      modifies request
      ensures (success, request.Value()) == ParseRequestLine(old(request.Value()), line)
    {
      var space := IndexOf(line, ' ');
      if space == |line| {
        return false;
      }
      success := request.SetMethod(line[..space]);
      if success {
        success := TryTargetAndVersion(line[space + 1..]);
      }
    }

    method TakeRequestLine(buf: Buffer) returns (ok: bool, hasMore: bool)
      requires buf.Valid() && state.ExpectRequestLine?
      modifies this, request, buf
      ensures buf.Valid() && buf.data == old(buf.data)
      ensures Advanced(old(Now(true)), old(buf.Contents()), Now(ok), buf.Contents(), hasMore)
    {
      ghost var b := buf.Contents();
      assert b[0..] == b;
      var crlf := buf.FindCRLF();
      if crlf == buf.ReadableBytes() {
        return true, false;
      }
      var line := buf.Peek(0, crlf);
      assert line == b[..crlf];
      ok := TryRequestLine(line);
      hasMore := ok;
      if ok {
        buf.Retrieve(crlf + 2);
        state := ExpectHeaders;
      }
    }

    method TakeHeader(buf: Buffer) returns (ok: bool, hasMore: bool)
      requires buf.Valid() && state.ExpectHeaders?
      modifies this, request, buf
      ensures buf.Valid() && buf.data == old(buf.data)
      ensures Advanced(old(Now(true)), old(buf.Contents()), Now(ok), buf.Contents(), hasMore)
    {
      var crlf := buf.FindCRLF();
      if crlf == buf.ReadableBytes() {
        return true, false;
      }
      var line := buf.Peek(0, crlf);
      assert line == buf.Contents()[..crlf];
      ok := HandleHeaderLine(line);
      hasMore := ok;
      buf.Retrieve(crlf + 2);
    }

    /** A header, the blank line, or neither. */
    method HandleHeaderLine(line: Bytes) returns (ok: bool)
      requires state.ExpectHeaders?
      modifies this, request
      ensures Now(ok) == HeaderLineSeen(old(Now(true)), line)
    {
      ok := true;
      var colon := IndexOf(line, ':');
      if colon < |line| {
        request.AddHeaderLine(line, colon);
      } else if line == [] {
        state := ExpectBody;
      } else {
        ok := false;
      }
    }

    method TakeBody(buf: Buffer) returns (ok: bool, hasMore: bool)
      requires buf.Valid() && state.ExpectBody?
      modifies this, request, buf
      ensures buf.Valid() && buf.data == old(buf.data)
      ensures Advanced(old(Now(true)), old(buf.Contents()), Now(ok), buf.Contents(), hasMore)
    {
      ok, hasMore := true, false;
      var contentLength := ContentLength(request.headers);
      if contentLength > 0 {
        if buf.ReadableBytes() >= contentLength {
          state := GotAll;
          request.body := buf.Peek(0, contentLength);
          buf.Retrieve(contentLength);
        }
      } else {
        state := GotAll;
      }
    }

    /** Terminates from every state but `GotAll`: each further turn uses up unread bytes. */
    method ParseRequest(buf: Buffer) returns (ok: bool)
      requires buf.Valid() && !state.GotAll?
      modifies this, request, buf
      ensures buf.Valid() && buf.data == old(buf.data)
      ensures Outcome(Now(ok), buf.Contents(), state.GotAll? || !ok)
           == Drain(HttpStep, old(Now(true)), old(buf.Contents()))
    {
      StepProductive();
      ok := true;
      var hasMore := true;
      while hasMore
        invariant buf.Valid() && buf.data == old(buf.data)
        invariant hasMore ==> ok && !state.GotAll?
        invariant if hasMore then Drain(HttpStep, Now(true), buf.Contents()) == Drain(HttpStep, old(Now(true)), old(buf.Contents()))
                  else Outcome(Now(ok), buf.Contents(), state.GotAll? || !ok) == Drain(HttpStep, old(Now(true)), old(buf.Contents()))
        decreases hasMore, buf.ReadableBytes()
      {
        ghost var s, b := Now(true), buf.Contents();
        match state {
          case ExpectRequestLine => ok, hasMore := TakeRequestLine(buf);
          case ExpectHeaders => ok, hasMore := TakeHeader(buf);
          case ExpectBody => ok, hasMore := TakeBody(buf);
        }
        DrainAdvanced(s, b, Now(ok), buf.Contents(), hasMore);
      }
    }
  }
}
