/**
 Parsers that are fed a byte stream in arbitrary pieces. A machine looks at its
 state and the unread bytes and either waits for more, goes on after using up
 some of them, or stops. The wire codecs and the HTTP parser are all such
 machines, so what chunking can and cannot change is proved here once.
 */
module Incremental {
  import opened Endian

  datatype Step<S> =
    | Wait
    | Go(next: S, used: nat)
    | Stop(final: S, used: nat)

  type Machine<!S(!new)> = (S, Bytes) -> Step<S>

  /** What one call of the parser leaves behind. */
  datatype Outcome<S> = Outcome(state: S, rest: Bytes, stopped: bool)

  ghost predicate Productive<S(!new)>(m: Machine<S>) {
    forall s: S, b: Bytes ::
      match m(s, b)
      case Wait => true
      case Go(_, used) => 0 < used <= |b|
      case Stop(_, used) => used <= |b|
  }

  /** More input never changes a decision already taken. */
  ghost predicate PrefixStable<S(!new)>(m: Machine<S>) {
    forall s: S, a: Bytes, b: Bytes :: !m(s, a).Wait? ==> m(s, a + b) == m(s, a)
  }

  /** Nothing to read, nothing to do. */
  ghost predicate Patient<S(!new)>(m: Machine<S>) {
    forall s: S :: m(s, []) == Wait
  }

  /** One call: keep stepping until the machine waits or stops. */
  ghost function Drain<S(!new)>(m: Machine<S>, s: S, b: Bytes): Outcome<S>
    decreases |b|
  {
    match m(s, b)
    case Wait => Outcome(s, b, false)
    case Go(next, used) => if 0 < used <= |b| then Drain(m, next, b[used..]) else Outcome(s, b, true)
    case Stop(final, used) => Outcome(final, if used <= |b| then b[used..] else [], true)
  }

  function Flatten(chunks: seq<Bytes>): Bytes {
    if chunks == [] then [] else chunks[0] + Flatten(chunks[1..])
  }

  /** A call after every chunk; once stopped, later chunks only pile up. */
  ghost function Feed<S(!new)>(m: Machine<S>, s: S, held: Bytes, chunks: seq<Bytes>): Outcome<S>
    decreases |chunks|
  {
    if chunks == [] then Outcome(s, held, false)
    else
      var o := Drain(m, s, held + chunks[0]);
      if o.stopped then Outcome(o.state, o.rest + Flatten(chunks[1..]), true)
      else Feed(m, o.state, o.rest, chunks[1..])
  }

  lemma {:induction false} DrainSettles<S(!new)>(m: Machine<S>, s: S, b: Bytes)
    requires Productive(m)
    ensures var o := Drain(m, s, b); !o.stopped ==> m(o.state, o.rest).Wait?
    decreases |b|
  {
    match m(s, b)
    case Wait =>
    case Go(next, used) => DrainSettles(m, next, b[used..]);
    case Stop(_, _) =>
  }

  lemma {:induction false} DrainAppend<S(!new)>(m: Machine<S>, s: S, a: Bytes, b: Bytes)
    requires Productive(m) && PrefixStable(m)
    ensures var o := Drain(m, s, a);
            Drain(m, s, a + b) ==
            if o.stopped then Outcome(o.state, o.rest + b, true) else Drain(m, o.state, o.rest + b)
    decreases |a|
  {
    match m(s, a)
    case Wait =>
    case Go(next, used) =>
      assert m(s, a + b) == m(s, a);
      assert (a + b)[used..] == a[used..] + b;
      DrainAppend(m, next, a[used..], b);
    case Stop(_, used) =>
      assert m(s, a + b) == m(s, a);
      assert (a + b)[used..] == a[used..] + b;
  }

  /** Any chunking of the input leaves the parser where one call on all of it does. */
  lemma {:induction false} ChunkingIsIrrelevant<S(!new)>(m: Machine<S>, s: S, held: Bytes, chunks: seq<Bytes>)
    requires Productive(m) && PrefixStable(m)
    requires m(s, held).Wait?
    ensures Feed(m, s, held, chunks) == Drain(m, s, held + Flatten(chunks))
    decreases |chunks|
  {
    if chunks == [] {
      assert held + Flatten(chunks) == held;
    } else {
      var tail := Flatten(chunks[1..]);
      assert held + Flatten(chunks) == (held + chunks[0]) + tail;
      DrainAppend(m, s, held + chunks[0], tail);
      DrainSettles(m, s, held + chunks[0]);
      var o := Drain(m, s, held + chunks[0]);
      if !o.stopped {
        ChunkingIsIrrelevant(m, o.state, o.rest, chunks[1..]);
      }
    }
  }

  /** `f` is the complete encoding of event `e`: taken whole, and never before it is complete. */
  ghost predicate Frames<E(!new)>(m: Machine<seq<E>>, f: Bytes, e: E) {
    && f != []
    && (forall got: seq<E>, tail: Bytes :: m(got, f + tail) == Go(got + [e], |f|))
    && (forall got: seq<E>, p: Bytes :: p < f ==> m(got, p) == Wait)
  }

  ghost predicate AllFrames<E(!new)>(m: Machine<seq<E>>, fs: seq<Bytes>, es: seq<E>) {
    && |fs| == |es|
    && forall i :: 0 <= i < |fs| ==> Frames(m, fs[i], es[i])
  }

  lemma {:induction false} PrefixOfFlatten(fs: seq<Bytes>, k: nat)
    requires k <= |fs|
    ensures Flatten(fs[..k]) + Flatten(fs[k..]) == Flatten(fs)
  {
    if k > 0 {
      PrefixOfFlatten(fs[1..], k - 1);
      assert fs[..k][1..] == fs[1..][..k - 1];
      assert fs[k..] == fs[1..][k - 1..];
    } else {
      assert fs[..0] == [];
    }
  }

  lemma {:induction false} FlattenConcat(a: seq<Bytes>, b: seq<Bytes>)
    ensures Flatten(a + b) == Flatten(a) + Flatten(b)
  {
    PrefixOfFlatten(a + b, |a|);
    assert (a + b)[..|a|] == a && (a + b)[|a|..] == b;
  }

  lemma TakeFrame<E(!new)>(m: Machine<seq<E>>, got: seq<E>, f: Bytes, e: E, tail: Bytes)
    requires Productive(m) && Frames(m, f, e)
    ensures Drain(m, got, f + tail) == Drain(m, got + [e], tail)
  {
    assert m(got, f + tail) == Go(got + [e], |f|);
    assert (f + tail)[|f|..] == tail;
  }

  lemma HoldPartial<E(!new)>(m: Machine<seq<E>>, got: seq<E>, fs: seq<Bytes>, es: seq<E>, p: Bytes)
    requires Patient(m) && AllFrames(m, fs, es)
    requires if fs == [] then p == [] else p < fs[0]
    ensures Drain(m, got, p) == Outcome(got + es[..0], p, false)
    ensures p == Flatten(fs[..0]) + p
  {
    if fs != [] { assert Frames(m, fs[0], es[0]); }
    assert m(got, p) == Wait;
    assert got + es[..0] == got;
  }

  lemma FirstFrame(fs: seq<Bytes>, p: Bytes)
    requires fs != [] && p <= Flatten(fs)
    ensures |p| < |fs[0]| ==> p < fs[0]
    ensures |p| >= |fs[0]| ==> p == fs[0] + p[|fs[0]|..] && p[|fs[0]|..] <= Flatten(fs[1..])
  {
    var all := Flatten(fs);
    assert all[..|fs[0]|] == fs[0] && all[|fs[0]|..] == Flatten(fs[1..]);
    if |p| < |fs[0]| {
      assert p == all[..|p|] == fs[0][..|p|];
    } else {
      assert p[..|fs[0]|] == all[..|fs[0]|];
    }
  }

  lemma OneMoreFrame<E>(got: seq<E>, fs: seq<Bytes>, es: seq<E>, k: nat, rest: Bytes)
    requires k < |fs| == |es|
    ensures got + [es[0]] + es[1..][..k] == got + es[..k + 1]
    ensures fs[0] + (Flatten(fs[1..][..k]) + rest) == Flatten(fs[..k + 1]) + rest
  {
    assert fs[..k + 1][1..] == fs[1..][..k];
    assert fs[..k + 1][0] == fs[0];
  }

  /** One call on the first bytes of a stream of frames delivers exactly the whole ones. */
  lemma {:induction false} DrainFrames<E(!new)>(m: Machine<seq<E>>, got: seq<E>, fs: seq<Bytes>, es: seq<E>, p: Bytes)
    returns (k: nat, rest: Bytes)
    requires Productive(m) && Patient(m) && AllFrames(m, fs, es)
    requires p <= Flatten(fs)
    ensures k <= |fs| && p == Flatten(fs[..k]) + rest
    ensures if k < |fs| then rest < fs[k] else rest == []
    ensures Drain(m, got, p) == Outcome(got + es[..k], rest, false)
    decreases |fs|
  {
    if fs == [] || |p| < |fs[0]| {
      k, rest := 0, p;
      if fs != [] { FirstFrame(fs, p); }
      HoldPartial(m, got, fs, es, p);
    } else {
      FirstFrame(fs, p);
      var tail := p[|fs[0]|..];
      TakeFrame(m, got, fs[0], es[0], tail);
      assert forall i :: 0 <= i < |fs| - 1 ==> Frames(m, fs[1..][i], es[1..][i]);
      k, rest := DrainFrames(m, got + [es[0]], fs[1..], es[1..], tail);
      OneMoreFrame(got, fs, es, k, rest);
      k := k + 1;
    }
  }

  lemma DropCommonPrefix(a: Bytes, rest: Bytes, wire: Bytes, z: Bytes)
    requires (a + rest) + wire == a + z
    ensures rest + wire == z
  {
    assert ((a + rest) + wire)[|a|..] == rest + wire;
    assert (a + z)[|a|..] == z;
  }

  lemma FramesHaveBytes<E(!new)>(m: Machine<seq<E>>, fs: seq<Bytes>, es: seq<E>)
    requires AllFrames(m, fs, es) && fs != []
    ensures Flatten(fs) != []
  {
    assert Frames(m, fs[0], es[0]);
  }

  /** Bytes held and bytes under way make up the frames still due; reading `n` more keeps it so. */
  lemma ReadFrames<E(!new)>(m: Machine<seq<E>>, held: Bytes, wire: Bytes, fs: seq<Bytes>, es: seq<E>, n: nat)
    returns (k: nat)
    requires Productive(m) && Patient(m) && AllFrames(m, fs, es)
    requires held + wire == Flatten(fs) && n <= |wire|
    ensures k <= |fs|
    ensures var o := Drain(m, [], held + wire[..n]);
            o.state == es[..k] && o.rest + wire[n..] == Flatten(fs[k..])
  {
    var p := held + wire[..n];
    assert held + wire == p + wire[n..];
    var rest;
    k, rest := DrainFrames(m, [], fs, es, p);
    assert [] + es[..k] == es[..k];
    PrefixOfFlatten(fs, k);
    DropCommonPrefix(Flatten(fs[..k]), rest, wire[n..], Flatten(fs[k..]));
  }

  /**
   A stream of frames cut anywhere: after any chunks that make up its first bytes the
   events delivered are those of the whole frames, in order and once each, and the
   bytes held are exactly the received part of the next frame.
   */
  lemma DeliveredInOrder<E(!new)>(m: Machine<seq<E>>, fs: seq<Bytes>, es: seq<E>, chunks: seq<Bytes>)
    returns (k: nat)
    requires Productive(m) && PrefixStable(m) && Patient(m) && AllFrames(m, fs, es)
    requires Flatten(chunks) <= Flatten(fs)
    ensures k <= |fs|
    ensures var o := Feed(m, [], [], chunks);
            && o.state == es[..k]
            && !o.stopped
            && Flatten(fs[..k]) + o.rest == Flatten(chunks)
            && (if k < |fs| then o.rest < fs[k] else o.rest == [])
    ensures Flatten(chunks) == Flatten(fs) ==> k == |fs|
  {
    assert m([], []).Wait?;
    ChunkingIsIrrelevant(m, [], [], chunks);
    assert [] + Flatten(chunks) == Flatten(chunks);
    var rest;
    k, rest := DrainFrames(m, [], fs, es, Flatten(chunks));
    assert [] + es[..k] == es[..k];
    if k < |fs| {
      PrefixOfFlatten(fs, k);
      assert |Flatten(fs[k..])| >= |fs[k]|;
    }
  }

  /** Input on which the machine stops with this event after whatever it has got. */
  ghost predicate StopsOn<E(!new)>(m: Machine<seq<E>>, bad: Bytes, e: E, used: nat) {
    used <= |bad| && forall got: seq<E> :: m(got, bad) == Stop(got + [e], used)
  }

  lemma FramesTail<E(!new)>(m: Machine<seq<E>>, fs: seq<Bytes>, es: seq<E>)
    requires AllFrames(m, fs, es) && fs != []
    ensures Frames(m, fs[0], es[0]) && AllFrames(m, fs[1..], es[1..])
  {
    forall i | 0 <= i < |fs| - 1 ensures Frames(m, fs[1..][i], es[1..][i]) {
      assert Frames(m, fs[i + 1], es[i + 1]);
    }
  }

  lemma FlattenHead(fs: seq<Bytes>, bad: Bytes)
    requires fs != []
    ensures Flatten(fs) + bad == fs[0] + (Flatten(fs[1..]) + bad)
  {
  }

  lemma {:induction false} DrainThenStop<E(!new)>(m: Machine<seq<E>>, got: seq<E>, fs: seq<Bytes>, es: seq<E>, bad: Bytes, e: E, used: nat)
    requires Productive(m) && AllFrames(m, fs, es) && StopsOn(m, bad, e, used)
    ensures Drain(m, got, Flatten(fs) + bad) == Outcome(got + es + [e], bad[used..], true)
    decreases |fs|
  {
    if fs == [] {
      assert Flatten(fs) + bad == bad && got + es == got;
      assert m(got, bad) == Stop(got + [e], used);
    } else {
      FramesTail(m, fs, es);
      FlattenHead(fs, bad);
      TakeFrame(m, got, fs[0], es[0], Flatten(fs[1..]) + bad);
      DrainThenStop(m, got + [es[0]], fs[1..], es[1..], bad, e, used);
      assert got + [es[0]] + es[1..] == got + es;
    }
  }

  /** Frames followed by something malformed, cut anyhow: all frames are delivered, then the stop. */
  lemma StopsAfterFrames<E(!new)>(m: Machine<seq<E>>, fs: seq<Bytes>, es: seq<E>, bad: Bytes, e: E, used: nat, chunks: seq<Bytes>)
    requires Productive(m) && PrefixStable(m) && Patient(m) && AllFrames(m, fs, es) && StopsOn(m, bad, e, used)
    requires Flatten(chunks) == Flatten(fs) + bad
    ensures Feed(m, [], [], chunks) == Outcome(es + [e], bad[used..], true)
  {
    ChunkingIsIrrelevant(m, [], [], chunks);
    assert [] + Flatten(chunks) == Flatten(chunks);
    DrainThenStop(m, [], fs, es, bad, e, used);
    assert [] + es == es;
  }
}
