/**
 What the HTTP parser accepts and what it makes of it, for every input and not only for what the
 printer writes: request lines, targets, queries, header lines and the Content-Length number.
 */
module HttpLaws {
  import opened Endian
  import opened Text
  import opened Decimal
  import opened Incremental
  import opened HttpRequests
  import opened HttpContexts
  import opened HttpRoundTrip

  // ----- targets

  /** The path ends at the first question mark; without one, query text and query map stay. */
  lemma TargetSplits(r: Request, target: Bytes)
    ensures var t := SetTarget(r, target);
            && t == r.(path := t.path, query := t.query, queries := t.queries) && '?' !in t.path
            && if '?' in target
               then t.path + "?" + t.query == target && t.queries == AddQueries(r.queries, Split(t.query, "&"))
               else t.path == target && t.query == r.query && t.queries == r.queries
  {
    var q := IndexOf(target, '?');
    if q < |target| {
      assert target == target[..q] + "?" + target[q + 1..];
    } else {
      assert target[..q] == target;
    }
  }

  /** The token gives a value to this key. */
  predicate Gives(token: Bytes, k: Bytes) {
    '=' !in k && k + "=" <= token
  }

  lemma AddQueryLaw(m: Fields, token: Bytes, k: Bytes)
    ensures var n := AddQuery(m, token);
            && (k in n <==> k in m || Gives(token, k))
            && (k in m ==> n[k] == m[k])
            && (k !in m && Gives(token, k) ==> n[k] == token[|k| + 1..])
  {
    var pos := IndexOf(token, '=');
    if Gives(token, k) {
      assert token[..|k|] == (k + "=")[..|k|] == k && token[|k|] == (k + "=")[|k|];
      IndexOfUnique(token, '=', |k|);
    }
    if pos < |token| && token[..pos] == k {
      assert token[..pos + 1] == k + "=";
    }
  }

  /** The tokens before the `i`th do not give a value to this key. */
  predicate NoneBefore(tokens: seq<Bytes>, i: nat, k: Bytes) {
    forall j :: 0 <= j < i && j < |tokens| ==> !Gives(tokens[j], k)
  }

  /** An entry already there stays; otherwise the first token that names the key decides, and no other key is added. */
  lemma {:induction false} QueriesAre(m: Fields, tokens: seq<Bytes>, k: Bytes)
    ensures var n := AddQueries(m, tokens);
            && (k in m ==> k in n && n[k] == m[k])
            && (k !in m && NoneBefore(tokens, |tokens|, k) ==> k !in n)
            && (forall i :: 0 <= i < |tokens| && k !in m && NoneBefore(tokens, i, k) && Gives(tokens[i], k) ==>
                  k in n && n[k] == tokens[i][|k| + 1..])
    decreases |tokens|
  {
    if tokens != [] {
      var rest := tokens[1..];
      AddQueryLaw(m, tokens[0], k);
      QueriesAre(AddQuery(m, tokens[0]), rest, k);
      forall i | 0 < i < |tokens| && NoneBefore(tokens, i, k) ensures NoneBefore(rest, i - 1, k) && tokens[i] == rest[i - 1] && !Gives(tokens[0], k) {
        assert forall j :: 0 <= j < i - 1 ==> rest[j] == tokens[j + 1];
      }
      if NoneBefore(tokens, |tokens|, k) {
        assert forall j :: 0 <= j < |rest| ==> rest[j] == tokens[j + 1];
      }
    }
  }

  // ----- request lines

  predicate IsMethod(word: Bytes, m: Method) {
    || (word == "GET" && m == Get) || (word == "POST" && m == Post) || (word == "HEAD" && m == Head)
    || (word == "PUT" && m == Put) || (word == "DELETE" && m == Delete)
  }

  predicate IsVersion(word: Bytes, v: Version) {
    (word == "HTTP/1.1" && v == Http11) || (word == "HTTP/1.0" && v == Http10)
  }

  predicate LineIs(line: Bytes, word: Bytes, m: Method, target: Bytes, version: Bytes, v: Version) {
    line == word + " " + target + " " + version && ' ' !in target && IsMethod(word, m) && IsVersion(version, v)
  }

  ghost predicate GoodLine(line: Bytes) {
    exists word, m, target, version, v :: LineIs(line, word, m, target, version, v)
  }

  lemma MethodKnown(word: Bytes, m: Method)
    ensures IsMethod(word, m) ==> ParseMethod(word) == m && !m.Invalid? && ' ' !in word
    ensures !ParseMethod(word).Invalid? ==> IsMethod(word, ParseMethod(word))
  {
  }

  lemma VersionKnown(word: Bytes, v: Version)
    ensures IsVersion(word, v) ==> ParseVersion(word) == v && !v.Unknown?
    ensures !ParseVersion(word).Unknown? ==> IsVersion(word, ParseVersion(word))
  {
  }

  lemma TargetAndVersion(r: Request, target: Bytes, version: Bytes, v: Version)
    requires ' ' !in target && ParseVersion(version) == v && !v.Unknown?
    ensures ParseTargetAndVersion(r, target + [' '] + version) == (true, SetTarget(r, target).(version := v))
  {
    var rest := target + [' '] + version;
    IndexOfSplit(target, ' ', version);
    assert rest[..|target|] == target && rest[|target| + 1..] == version;
  }

  lemma GoodLineParses(r: Request, line: Bytes, word: Bytes, m: Method, target: Bytes, version: Bytes, v: Version)
    requires LineIs(line, word, m, target, version, v)
    ensures ParseRequestLine(r, line) == (true, SetTarget(r.(method_ := m), target).(version := v))
  {
    MethodKnown(word, m);
    VersionKnown(version, v);
    CutLine(word, target, version);
    TargetAndVersion(r.(method_ := m), target, version, v);
  }

  lemma CutAround(s: Bytes, p: nat)
    requires p < |s|
    ensures s == s[..p] + [s[p]] + s[p + 1..]
  {
  }

  lemma CutAt(s: Bytes, c: char)
    requires IndexOf(s, c) < |s|
    ensures var p := IndexOf(s, c); s == s[..p] + [c] + s[p + 1..] && c !in s[..p]
  {
    CutAround(s, IndexOf(s, c));
  }

  lemma TargetAndVersionCut(r: Request, rest: Bytes) returns (target: Bytes, version: Bytes)
    requires ParseTargetAndVersion(r, rest).0
    ensures rest == target + [' '] + version && ' ' !in target && !ParseVersion(version).Unknown?
  {
    var sq := IndexOf(rest, ' ');
    CutAt(rest, ' ');
    target, version := rest[..sq], rest[sq + 1..];
  }

  lemma JoinLine(word: Bytes, target: Bytes, version: Bytes)
    ensures word + [' '] + (target + [' '] + version) == word + " " + target + " " + version
  {
  }

  lemma ParsedIsGood(r: Request, line: Bytes)
    requires ParseRequestLine(r, line).0
    ensures GoodLine(line)
  {
    var sp := IndexOf(line, ' ');
    CutAt(line, ' ');
    var word, rest := line[..sp], line[sp + 1..];
    var target, version := TargetAndVersionCut(r.(method_ := ParseMethod(word)), rest);
    JoinLine(word, target, version);
    MethodKnown(word, Get);
    VersionKnown(version, Http11);
    assert LineIs(line, word, ParseMethod(word), target, version, ParseVersion(version));
  }

  /** A request line is accepted exactly if it is a known method, a target without spaces and one of two versions. */
  lemma LineAcceptedIff(r: Request, line: Bytes)
    ensures ParseRequestLine(r, line).0 <==> GoodLine(line)
  {
    if GoodLine(line) {
      var word, m, target, version, v :| LineIs(line, word, m, target, version, v);
      GoodLineParses(r, line, word, m, target, version, v);
    } else if ParseRequestLine(r, line).0 {
      ParsedIsGood(r, line);
    }
  }

  /** What a complete line does to a parser that expects one: it goes on, or stops with the line unread. */
  lemma DrainAnyLine(r: Request, line: Bytes, rest: Bytes)
    requires NoCrlf(line)
    ensures var after := ParseRequestLine(r, line).1;
            Drain(HttpStep, Parser(ExpectRequestLine, r, true), line + CRLF + rest) ==
            if GoodLine(line) then Drain(HttpStep, Parser(ExpectHeaders, after, true), rest)
            else Outcome(Parser(ExpectRequestLine, after, false), line + CRLF + rest, true)
  {
    var b := line + CRLF + rest;
    LineEnds(line, rest);
    assert b[..|line|] == line && b[|line| + 2..] == rest && b[0..] == b;
    LineAcceptedIff(r, line);
  }

  function PlainLine(word: Bytes, target: Bytes): Bytes {
    word + " " + target + " " + "HTTP/1.1"
  }

  lemma PlainLineParses(word: Bytes, m: Method, target: Bytes)
    requires IsMethod(word, m) && ' ' !in target && '?' !in target
    ensures GoodLine(PlainLine(word, target))
    ensures ParseRequestLine(Fresh, PlainLine(word, target)).1 == Fresh.(method_ := m, version := Http11, path := target)
  {
    var line := PlainLine(word, target);
    assert LineIs(line, word, m, target, "HTTP/1.1", Http11);
    GoodLineParses(Fresh, line, word, m, target, "HTTP/1.1", Http11);
    TargetSplits(Fresh.(method_ := m), target);
  }

  /** In a new context a target without a question mark is the path. */
  lemma PlainTargetIsPath(word: Bytes, m: Method, target: Bytes, rest: Bytes)
    requires IsMethod(word, m) && ' ' !in target && '?' !in target && NoCrlf(PlainLine(word, target))
    ensures Drain(HttpStep, Start, PlainLine(word, target) + CRLF + rest)
         == Drain(HttpStep, Parser(ExpectHeaders, Fresh.(method_ := m, version := Http11, path := target), true), rest)
  {
    PlainLineParses(word, m, target);
    DrainAnyLine(Fresh, PlainLine(word, target), rest);
  }

  // ----- the printed form

  lemma OnePair(k: Bytes, v: Bytes, between: Bytes, after: Bytes)
    ensures PairText([(k, v)], between, after) == k + between + v + after
  {
    assert PairText([(k, v)][1..], between, after) == [];
  }

  /** A request with one query and one header, written out. */
  lemma PrintedForm(word: Bytes, m: Method, path: Bytes, q: (Bytes, Bytes), close: bool, h: (Bytes, Bytes), body: Bytes)
    requires IsMethod(word, m)
    ensures Print(m, path, [q], close, [h], body) ==
            word + " " + (path + "?" + (q.0 + "=" + q.1 + "&")) + " " + "HTTP/1.1" + "\r\n"
            + ("Connection" + ": " + (if close then "close" else "Keep-Alive") + "\r\n" + (h.0 + ": " + h.1 + "\r\n")) + "\r\n" + body
  {
    OnePair(q.0, q.1, "=", "&");
    OnePair(h.0, h.1, ": ", CRLF);
    ConnectionFirst(close, [h]);
    MethodKnown(MethodString(m), m);
  }

  // ----- header lines

  predicate IsBlank(c: char) {
    c in {' ', '\t', '\n', '\U{0B}', '\U{0C}', '\r'}
  }

  predicate AllBlank(s: Bytes) {
    forall i :: 0 <= i < |s| ==> IsBlank(s[i])
  }

  predicate Core(s: Bytes) {
    s == [] || (!IsBlank(s[0]) && !IsBlank(s[|s| - 1]))
  }

  lemma {:induction false} SkipsLeft(a: Bytes, s: Bytes)
    requires AllBlank(a) && (s == [] || !IsBlank(s[0]))
    ensures SkipLeft(a + s) == s && SkipSpace(a + s) == s
    decreases |a|
  {
    if a == [] {
      assert a + s == s;
    } else {
      assert (a + s)[1..] == a[1..] + s;
      SkipsLeft(a[1..], s);
    }
  }

  lemma {:induction false} SkipsRight(s: Bytes, b: Bytes)
    requires AllBlank(b) && Core(s)
    ensures SkipRight(s + b) == s
    decreases |b|
  {
    if b == [] {
      assert s + b == s;
    } else {
      var n := |b| - 1;
      assert (s + b)[..|s + b| - 1] == s + b[..n];
      SkipsRight(s, b[..n]);
    }
  }

  /** Trimming takes off exactly the white space at both ends. */
  lemma TrimIs(a: Bytes, s: Bytes, b: Bytes)
    requires AllBlank(a) && AllBlank(b) && Core(s)
    ensures Trim(a + s + b) == s
  {
    if s == [] {
      assert a + s + b == (a + b) + s;
      SkipsLeft(a + b, s);
      assert s == s + [];
    } else {
      assert a + s + b == a + (s + b);
      SkipsLeft(a, s + b);
      SkipsRight(s, b);
    }
  }

  /** A line with a colon is a header, and replaces an earlier one of its name. */
  lemma HeaderLineIs(s: Parser, name: Bytes, a: Bytes, value: Bytes, b: Bytes)
    requires ':' !in name && AllBlank(a) && AllBlank(b) && Core(value)
    ensures HeaderLineSeen(s, name + ":" + (a + value + b))
         == s.(request := s.request.(headers := s.request.headers[name := value]))
  {
    var line := name + [':'] + (a + value + b);
    IndexOfSplit(name, ':', a + value + b);
    assert line[..|name|] == name && line[|name| + 1..] == a + value + b;
    TrimIs(a, value, b);
  }

  /** A line that is neither a header nor blank ends the parse with an error, and is used up. */
  lemma BadHeaderStops(r: Request, line: Bytes, rest: Bytes)
    requires NoCrlf(line) && line != [] && ':' !in line
    ensures Drain(HttpStep, Parser(ExpectHeaders, r, true), line + CRLF + rest) == Outcome(Parser(ExpectHeaders, r, false), rest, true)
  {
    var b := line + CRLF + rest;
    LineEnds(line, rest);
    assert b[..|line|] == line && b[|line| + 2..] == rest;
  }

  // ----- bodies

  /** Exactly the announced number of bytes is taken and the rest left. */
  lemma BodyIsTaken(r: Request, body: Bytes, rest: Bytes)
    requires 0 < ContentLength(r.headers) == |body|
    ensures Drain(HttpStep, Parser(ExpectBody, r, true), body + rest) == Outcome(Parser(GotAll, r.(body := body), true), rest, true)
  {
    assert (body + rest)[..|body|] == body && (body + rest)[|body|..] == rest;
  }

  /** Fewer bytes are waited for; and none are taken if none are announced. */
  lemma BodyIsAwaited(r: Request, b: Bytes)
    ensures var n, o := ContentLength(r.headers), Drain(HttpStep, Parser(ExpectBody, r, true), b);
            && (|b| < n ==> o == Outcome(Parser(ExpectBody, r, true), b, false))
            && (n <= 0 ==> o == Outcome(Parser(GotAll, r, true), b, true))
  {
    assert b[0..] == b;
  }

  // ----- numbers

  lemma {:induction false} ReadDigitsStops(s: Bytes, rest: Bytes, acc: nat)
    requires forall i :: 0 <= i < |s| ==> '0' <= s[i] <= '9'
    requires rest == [] || !('0' <= rest[0] <= '9')
    ensures ReadDigits(10, s + rest, acc) == ReadDigits(10, s, acc)
    decreases |s|
  {
    if s == [] {
      assert s + rest == rest;
    } else {
      assert (s + rest)[1..] == s[1..] + rest;
      ReadDigitsStops(s[1..], rest, acc * 10 + DigitValue(s[0]));
    }
  }

  lemma ReadNumber(n: nat, rest: Bytes)
    requires rest == [] || !('0' <= rest[0] <= '9')
    ensures ReadDigits(10, ToDecimal(n) + rest, 0) == n
  {
    ReadDigitsStops(ToDecimal(n), rest, 0);
    ReadDecimal(n);
  }

  /** What is behind the white space decides. */
  lemma AtoiSkips(a: Bytes, sign: Bytes, digits: Bytes)
    requires AllBlank(a) && sign in {"", "+", "-"} && digits != [] && '0' <= digits[0] <= '9'
    ensures Atoi(a + (sign + digits)) == AsInt32(Saturated(sign == "-", ReadDigits(10, digits, 0)) % TWO32)
  {
    var t := sign + digits;
    SkipsLeft(a, t);
    if sign == "" {
      assert t == digits;
    } else {
      assert t[0] == sign[0] && t[1..] == digits;
    }
  }

  function Signed(negative: bool, n: nat): int {
    if negative then 0 - n else n
  }

  lemma CutEnds()
    ensures AsInt32(-TWO63 % TWO32) == 0 && AsInt32((TWO63 - 1) % TWO32) == -1
  {
    assert -TWO63 == -TWO31 * TWO32;
    assert TWO63 - 1 == (TWO31 - 1) * TWO32 + (TWO32 - 1);
  }

  lemma CutSaturated(negative: bool, n: nat)
    ensures var x := AsInt32(Saturated(negative, n) % TWO32);
            && (n < TWO31 ==> x == Signed(negative, n))
            && (n < TWO63 ==> (x - Signed(negative, n)) % TWO32 == 0)
            && (n > TWO63 ==> x == if negative then 0 else -1)
  {
    if n < TWO63 {
      Cut32(Signed(negative, n));
    } else {
      CutEnds();
    }
  }

  /** White space, a sign or none, digits, and anything else: the number, saturated at 64 bits and cut to 32. */
  lemma AtoiReads(a: Bytes, sign: Bytes, n: nat, rest: Bytes)
    requires AllBlank(a) && sign in {"", "+", "-"} && (rest == [] || !('0' <= rest[0] <= '9'))
    ensures var x, negative := Atoi(a + (sign + (ToDecimal(n) + rest))), sign == "-";
            && (n < TWO31 ==> x == Signed(negative, n))
            && (n < TWO63 ==> (x - Signed(negative, n)) % TWO32 == 0)
            && (n > TWO63 ==> x == if negative then 0 else -1)
  {
    AtoiSkips(a, sign, ToDecimal(n) + rest);
    ReadNumber(n, rest);
    CutSaturated(sign == "-", n);
  }

  /** Without a digit there is no length. */
  lemma AtoiOfText(a: Bytes, rest: Bytes)
    requires AllBlank(a) && (rest == [] || !(IsBlank(rest[0]) || '0' <= rest[0] <= '9' || rest[0] in {'+', '-'}))
    ensures Atoi(a + rest) == 0
  {
    SkipsLeft(a, rest);
  }
}
