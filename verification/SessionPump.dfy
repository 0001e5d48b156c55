/**
 The write side of a session (net/Session.cc): senders queue buffers under a lock and may
 post a task; the single loop thread runs tasks and write completions. Every point at which
 another thread can get in between is a step of its own, so the runs below are all the
 interleavings of any number of senders with the loop.
 */
module SessionPump {
  import opened Endian
  import opened Incremental
  import opened Buffers
  import RpcCodec

  /** Where the loop thread is: idle, in front of the lock in write(), gathering, or in the handler. */
  datatype LoopAt = Idle | BeforeSwap | Appending(i: nat) | Completed

  /**
   `holding`: a sender is inside its locked section, after its push. `posting`: senders about
   to post. `inFlight`: buffers handed to async_write_some and not completed. `log`, `wire`
   and `lost` record what was sent, in lock order, what went out, and how many bytes were
   dropped by completions that wrote less than the buffer.
   */
  datatype Pump = Pump(
    unsend: seq<Bytes>, tmp: seq<Bytes>, writeBuf: Bytes,
    holding: bool, posting: nat, tasks: nat, at: LoopAt, inFlight: seq<Bytes>,
    log: seq<Bytes>, wire: Bytes, lost: nat)

  const Init := Pump([], [], [], false, 0, 0, Idle, [], [], [], 0)

  datatype Action =
    | Push(buf: Bytes)
    | Check
    | Post
    | RunTask
    | Swap
    | AppendNext
    | StartWrite
    | Complete(k: nat, size: nat)
    | Recheck

  predicate Enabled(s: Pump, a: Action) {
    match a
    case Push(_) => !s.holding
    case Check => s.holding
    case Post => s.posting > 0
    case RunTask => s.at.Idle? && s.tasks > 0
    case Swap => s.at.BeforeSwap? && !s.holding
    case AppendNext => s.at.Appending? && s.at.i < |s.tmp|
    case StartWrite => s.at.Appending? && s.at.i == |s.tmp|
    case Complete(k, size) => s.at.Idle? && k < |s.inFlight| && size <= |s.inFlight[k]|
    case Recheck => s.at.Completed? && !s.holding
  }

  function Next(s: Pump, a: Action): Pump
    requires Enabled(s, a)
  {
    match a
    case Push(buf) => s.(unsend := s.unsend + [buf], log := s.log + [buf], holding := true)
    case Check => s.(holding := false, posting := if s.writeBuf == [] then s.posting + 1 else s.posting)
    case Post => s.(posting := s.posting - 1, tasks := s.tasks + 1)
    case RunTask => s.(tasks := s.tasks - 1, at := if s.writeBuf == [] then BeforeSwap else Idle)
    case Swap => s.(tmp := s.unsend, unsend := [], at := if s.unsend == [] then Idle else Appending(0))
    case AppendNext => s.(writeBuf := s.writeBuf + s.tmp[s.at.i], at := Appending(s.at.i + 1))
    case StartWrite => s.(inFlight := s.inFlight + [s.writeBuf], at := Idle)
    case Complete(k, size) =>
      s.(wire := s.wire + s.inFlight[k][..size], lost := s.lost + |s.inFlight[k]| - size,
         inFlight := s.inFlight[..k] + s.inFlight[k + 1..], writeBuf := [], at := Completed)
    case Recheck => s.(at := if s.unsend == [] then Idle else BeforeSwap)
  }

  predicate IsStep(s: Pump, a: Action, t: Pump) {
    Enabled(s, a) && t == Next(s, a)
  }

  predicate IsPath(from: Pump, states: seq<Pump>, acts: seq<Action>) {
    && |states| == |acts| + 1 && states[0] == from
    && forall i :: 0 <= i < |acts| ==> IsStep(states[i], acts[i], states[i + 1])
  }

  predicate IsRun(states: seq<Pump>, acts: seq<Action>) {
    IsPath(Init, states, acts)
  }

  /** Every frame the codecs send has at least its header. */
  predicate NonEmptySends(acts: seq<Action>) {
    forall i :: 0 <= i < |acts| ==> (acts[i].Push? ==> acts[i].buf != [])
  }

  // ----- what every reachable state satisfies

  predicate NonEmpty(q: seq<Bytes>) {
    forall i :: 0 <= i < |q| ==> q[i] != []
  }

  /** At most one write, on a buffer that is not touched while it is under way. */
  predicate OneWrite(s: Pump) {
    match s.at
    case Idle => if s.inFlight == [] then s.writeBuf == [] else |s.inFlight| == 1 && s.inFlight[0] == s.writeBuf != []
    case Appending(i) => s.inFlight == [] && s.tmp != [] && i <= |s.tmp| && s.writeBuf == Flatten(s.tmp[..i])
    case _ => s.inFlight == [] && s.writeBuf == []
  }

  /** Something will look at the queue again. */
  predicate Awake(s: Pump) {
    s.inFlight != [] || !s.at.Idle? || s.tasks > 0 || s.posting > 0 || s.holding
  }

  /** Bytes accepted but not yet on the wire, in the order they will go out. */
  function Held(s: Pump): Bytes {
    s.writeBuf + (if s.at.Appending? && s.at.i <= |s.tmp| then Flatten(s.tmp[s.at.i..]) else []) + Flatten(s.unsend)
  }

  predicate Conserved(s: Pump) {
    && |s.wire| + |Held(s)| + s.lost == |Flatten(s.log)|
    && (s.lost == 0 ==> s.wire + Held(s) == Flatten(s.log))
  }

  predicate Inv(s: Pump) {
    && NonEmpty(s.unsend) && NonEmpty(s.tmp)
    && OneWrite(s)
    && (s.unsend != [] ==> Awake(s))
    && Conserved(s)
  }

  lemma FlattenSnoc(q: seq<Bytes>, b: Bytes)
    ensures Flatten(q + [b]) == Flatten(q) + b
  {
    FlattenConcat(q, [b]);
    assert Flatten([b]) == b;
  }

  lemma FlattenNonEmpty(q: seq<Bytes>)
    requires q != [] && NonEmpty(q)
    ensures Flatten(q) != []
  {
  }

  lemma PushKeeps(s: Pump, a: Action)
    requires Inv(s) && a.Push? && a.buf != [] && Enabled(s, a)
    ensures Inv(Next(s, a))
  {
    var t := Next(s, a);
    FlattenSnoc(s.unsend, a.buf);
    FlattenSnoc(s.log, a.buf);
    assert Held(t) == Held(s) + a.buf;
    assert s.wire + (Held(s) + a.buf) == (s.wire + Held(s)) + a.buf;
  }

  lemma SwapKeeps(s: Pump, a: Action)
    requires Inv(s) && a.Swap? && Enabled(s, a)
    ensures Inv(Next(s, a))
  {
    var t := Next(s, a);
    assert t.tmp[..0] == [] && t.tmp[0..] == t.tmp;
    assert Held(s) == Flatten(s.unsend);
    assert Held(t) == Held(s);
  }

  lemma FlattenFrom(q: seq<Bytes>, i: nat)
    requires i < |q|
    ensures Flatten(q[i..]) == q[i] + Flatten(q[i + 1..])
    ensures Flatten(q[..i + 1]) == Flatten(q[..i]) + q[i]
  {
    assert q[i..][1..] == q[i + 1..];
    assert q[..i + 1] == q[..i] + [q[i]];
    FlattenSnoc(q[..i], q[i]);
  }

  lemma MoveOne(w: Bytes, b: Bytes, rest: Bytes, u: Bytes)
    ensures (w + b) + rest + u == w + (b + rest) + u
  {
  }

  lemma AppendKeeps(s: Pump, a: Action)
    requires Inv(s) && a.AppendNext? && Enabled(s, a)
    ensures Inv(Next(s, a))
  {
    var i := s.at.i;
    FlattenFrom(s.tmp, i);
    MoveOne(s.writeBuf, s.tmp[i], Flatten(s.tmp[i + 1..]), Flatten(s.unsend));
  }

  lemma StartWriteKeeps(s: Pump, a: Action)
    requires Inv(s) && a.StartWrite? && Enabled(s, a)
    ensures Inv(Next(s, a))
  {
    var t := Next(s, a);
    assert s.tmp[..|s.tmp|] == s.tmp && s.tmp[|s.tmp|..] == [];
    FlattenNonEmpty(s.tmp);
    assert Held(t) == Held(s);
  }

  lemma CompleteKeeps(s: Pump, a: Action)
    requires Inv(s) && a.Complete? && Enabled(s, a)
    ensures Inv(Next(s, a))
  {
    var t, b := Next(s, a), s.inFlight[0];
    assert a.k == 0 && t.inFlight == [];
    assert Held(s) == b + Flatten(s.unsend);
    assert Held(t) == Flatten(s.unsend);
    if a.size == |b| {
      assert b[..a.size] == b;
      assert t.wire + Held(t) == s.wire + Held(s);
    }
  }

  lemma StepKeeps(s: Pump, a: Action)
    requires Inv(s) && Enabled(s, a) && (a.Push? ==> a.buf != [])
    ensures Inv(Next(s, a))
  {
    match a
    case Push(_) => PushKeeps(s, a);
    case Swap => SwapKeeps(s, a);
    case AppendNext => AppendKeeps(s, a);
    case StartWrite => StartWriteKeeps(s, a);
    case Complete(_, _) => CompleteKeeps(s, a);
    case _ => assert Held(Next(s, a)) == Held(s);
  }

  lemma {:induction false} RunKeeps(states: seq<Pump>, acts: seq<Action>, i: nat)
    requires IsRun(states, acts) && NonEmptySends(acts) && i < |states|
    ensures forall j :: 0 <= j <= i ==> Inv(states[j])
  {
    if i > 0 {
      RunKeeps(states, acts, i - 1);
      assert IsStep(states[i - 1], acts[i - 1], states[i]);
      StepKeeps(states[i - 1], acts[i - 1]);
    }
  }

  /** Nothing under way anywhere: no write, no task, no sender, loop idle. */
  predicate Quiet(s: Pump) {
    !Awake(s)
  }

  /**
   Over all interleavings: at most one write is in flight and its buffer stays as it was when
   the write began; and no wake-up is lost, so a quiet session has an empty queue.
   */
  lemma OneWriteNoLostWakeup(states: seq<Pump>, acts: seq<Action>, i: nat)
    requires IsRun(states, acts) && NonEmptySends(acts) && i < |states|
    ensures |states[i].inFlight| <= 1
    ensures states[i].inFlight != [] ==> states[i].writeBuf == states[i].inFlight[0]
    ensures Quiet(states[i]) ==> states[i].unsend == [] && Held(states[i]) == []
  {
    assert Inv(states[i]) by { RunKeeps(states, acts, i); }
  }

  /** A completion that reports the whole buffer written. */
  predicate FullSize(s: Pump, a: Action) {
    a.Complete? && Enabled(s, a) ==> a.size == |s.inFlight[a.k]|
  }

  predicate AllFullSize(states: seq<Pump>, acts: seq<Action>, i: nat)
    requires i <= |acts| && |acts| < |states|
  {
    forall j :: 0 <= j < i ==> FullSize(states[j], acts[j])
  }

  lemma {:induction false} LostIffShort(states: seq<Pump>, acts: seq<Action>, i: nat)
    requires IsRun(states, acts) && i < |states|
    ensures states[i].lost == 0 <==> AllFullSize(states, acts, i)
  {
    if i > 0 {
      LostIffShort(states, acts, i - 1);
      assert IsStep(states[i - 1], acts[i - 1], states[i]);
      assert AllFullSize(states, acts, i) <==> AllFullSize(states, acts, i - 1) && FullSize(states[i - 1], acts[i - 1]);
    }
  }

  /**
   The bytes on the wire followed by the bytes held are the bytes sent, in lock order, exactly
   as long as every completion so far was full-size: one that reports fewer bytes than the
   buffer held loses the difference for good.
   */
  lemma BytesKeptIffFullSize(states: seq<Pump>, acts: seq<Action>, i: nat)
    requires IsRun(states, acts) && NonEmptySends(acts) && i < |states|
    ensures states[i].wire + Held(states[i]) == Flatten(states[i].log) <==> AllFullSize(states, acts, i)
  {
    assert Inv(states[i]) by { RunKeeps(states, acts, i); }
    LostIffShort(states, acts, i);
  }

  /**
   With the RPC codec at both ends: if the buffers sent are the frames of some messages and every
   completion was full-size, then whatever has gone out, cut anyhow, is decoded into a prefix of
   these messages, in order and without an error; and into all of them once the session is quiet.
   */
  lemma SentIsDelivered(states: seq<Pump>, acts: seq<Action>, i: nat, ms: seq<RpcCodec.Outgoing>, chunks: seq<Bytes>)
    returns (k: nat)
    requires IsRun(states, acts) && NonEmptySends(acts) && i < |states| && AllFullSize(states, acts, i)
    requires RpcCodec.AllSendable(ms) && states[i].log == RpcCodec.WireAll(ms) && Flatten(chunks) == states[i].wire
    ensures k <= |ms| && (Quiet(states[i]) ==> k == |ms|)
    ensures var o := Feed(RpcCodec.Decode, [], [], chunks); !o.stopped && o.state == RpcCodec.ReceivedAll(ms)[..k]
  {
    BytesKeptIffFullSize(states, acts, i);
    OneWriteNoLostWakeup(states, acts, i);
    assert states[i].wire <= states[i].wire + Held(states[i]);
    if Quiet(states[i]) {
      assert states[i].wire + [] == states[i].wire;
    }
    k := RpcCodec.StreamDelivered(ms, chunks);
  }

  /** Steps lead from one state to the other; from `Init`, in some run. */
  ghost predicate Leads(from: Pump, s: Pump) {
    exists states: seq<Pump>, acts: seq<Action> :: IsPath(from, states, acts) && states[|acts|] == s
  }

  lemma Stay(s: Pump)
    ensures Leads(s, s)
  {
    var states: seq<Pump>, acts: seq<Action> := [s], [];
    assert IsPath(s, states, acts) && states[|acts|] == s;
  }

  lemma Grow(from: Pump, s: Pump, a: Action)
    requires Leads(from, s) && Enabled(s, a)
    ensures Leads(from, Next(s, a))
  {
    var states, acts :| IsPath(from, states, acts) && states[|acts|] == s;
    var more, longer := states + [Next(s, a)], acts + [a];
    assert IsPath(from, more, longer) && more[|longer|] == Next(s, a);
  }

  // ----- empty buffers

  /** Nothing queued, gathered or under way, apart from these writes. */
  predicate Resting(s: Pump, inFlight: seq<Bytes>) {
    s == s.(at := Idle, holding := false, posting := 0, tasks := 0, unsend := [], writeBuf := [], inFlight := inFlight)
  }

  /** A sender has queued one buffer and the loop has started to write it. */
  function Writing(s: Pump, b: Bytes): Pump {
    s.(tmp := [b], writeBuf := b, inFlight := s.inFlight + [b], log := s.log + [b])
  }

  lemma SendOne(s: Pump, under: seq<Bytes>, b: Bytes)
    requires Leads(Init, s) && Resting(s, under)
    ensures Leads(Init, Writing(s, b))
  {
    Grow(Init, s, Push(b));
    var s1 := Next(s, Push(b));
    Grow(Init, s1, Check);
    var s2 := Next(s1, Check);
    Grow(Init, s2, Post);
    var s3 := Next(s2, Post);
    Grow(Init, s3, RunTask);
    var s4 := Next(s3, RunTask);
    Grow(Init, s4, Swap);
    var s5 := Next(s4, Swap);
    Grow(Init, s5, AppendNext);
    var s6 := Next(s5, AppendNext);
    Grow(Init, s6, StartWrite);
    assert s.writeBuf + b == b;
    assert Next(s6, StartWrite) == Writing(s, b);
  }

  /** The write of a single buffer completes, with `size` bytes reported. */
  lemma CompleteOne(s: Pump, b: Bytes, size: nat) returns (t: Pump)
    requires Leads(Init, Writing(s, b)) && Resting(s, []) && size <= |b|
    ensures Leads(Init, t) && Resting(t, []) && t.log == s.log + [b] && t.wire == s.wire + b[..size]
  {
    var s1 := Writing(s, b);
    Grow(Init, s1, Complete(0, size));
    var s2 := Next(s1, Complete(0, size));
    Grow(Init, s2, Recheck);
    t := Next(s2, Recheck);
  }

  lemma {:induction false} SendAndFinish(bufs: seq<Bytes>) returns (s: Pump)
    ensures Leads(Init, s) && Resting(s, []) && s.log == bufs
  {
    if bufs == [] {
      Stay(Init);
      s := Init;
    } else {
      var b := bufs[|bufs| - 1];
      s := SendAndFinish(bufs[..|bufs| - 1]);
      SendOne(s, [], b);
      s := CompleteOne(s, b, |b|);
    }
  }

  /** Two bytes sent, one reported written: the other is neither on the wire nor held, and nothing will happen. */
  lemma ShortWriteLoses() returns (s: Pump)
    ensures Leads(Init, s) && Quiet(s) && s.log == ["ab"] && s.wire == "a" && Held(s) == []
  {
    Stay(Init);
    SendOne(Init, [], "ab");
    s := CompleteOne(Init, "ab", 1);
  }

  /** Without a condition the claim fails without bound: any number of writes can be in flight at once. */
  lemma {:induction false} EmptySendsBreakIt(n: nat) returns (s: Pump)
    ensures Leads(Init, s) && |s.inFlight| == n && Resting(s, s.inFlight)
  {
    if n == 0 {
      Stay(Init);
      s := Init;
    } else {
      s := EmptySendsBreakIt(n - 1);
      SendOne(s, s.inFlight, []);
      s := Writing(s, []);
    }
  }

  /** An empty buffer, and one after it: two writes at once, after any buffers before. */
  lemma EmptyThenAnother(bufs: seq<Bytes>, k: nat) returns (s: Pump)
    requires k + 1 < |bufs| && bufs[k] == []
    ensures Leads(Init, s) && s.log == bufs[..k + 2] && |s.inFlight| == 2
  {
    s := SendAndFinish(bufs[..k]);
    SendOne(s, [], []);
    s := Writing(s, []);
    SendOne(s, [[]], bufs[k + 1]);
    s := Writing(s, bufs[k + 1]);
    assert bufs[..k] + [bufs[k]] + [bufs[k + 1]] == bufs[..k + 2];
  }

  /** Buffers taken or queued but not yet in a started write, in order. */
  function Due(s: Pump): seq<Bytes> {
    (if s.at.Appending? then s.tmp else []) + s.unsend
  }

  /** Of `n` buffers in all, only the last may be empty; nothing comes after it. */
  predicate EmptyOnlyLast(s: Pump, n: nat) {
    forall k :: 0 <= k < |Due(s)| ==> (Due(s)[k] == [] ==> k == |Due(s)| - 1 && |s.log| == n)
  }

  /** At most one write; one of an empty buffer is the last of all. */
  predicate OneWriteOf(s: Pump, n: nat) {
    match s.at
    case Idle =>
      if s.inFlight == [] then s.writeBuf == []
      else |s.inFlight| == 1 && s.inFlight[0] == s.writeBuf && (s.writeBuf == [] ==> s.unsend == [] && |s.log| == n)
    case BeforeSwap =>
      s.writeBuf == [] && (s.inFlight == [] || (|s.inFlight| == 1 && s.unsend == [] && |s.log| == n && s.inFlight[0] == []))
    case Appending(i) =>
      s.inFlight == [] && s.tmp != [] && i <= |s.tmp| && s.writeBuf == Flatten(s.tmp[..i])
    case Completed => s.inFlight == [] && s.writeBuf == []
  }

  predicate InvOf(s: Pump, n: nat) {
    |s.log| <= n && EmptyOnlyLast(s, n) && OneWriteOf(s, n)
  }

  lemma StartOf(s: Pump, a: Action, n: nat)
    requires InvOf(s, n) && a.StartWrite? && Enabled(s, a)
    ensures InvOf(Next(s, a), n)
  {
    assert s.tmp[..s.at.i] == s.tmp;
    assert Due(Next(s, a)) == Due(s)[|s.tmp|..];
    if Flatten(s.tmp) == [] {
      assert s.tmp[0] == [] && Due(s)[0] == [];
      assert |Due(s)| == 1;
    }
  }

  lemma PushOf(s: Pump, a: Action, n: nat)
    requires InvOf(s, n) && a.Push? && Enabled(s, a)
    requires |s.log| < n && (a.buf == [] ==> |s.log| == n - 1)
    ensures InvOf(Next(s, a), n)
  {
    assert Due(Next(s, a)) == Due(s) + [a.buf];
  }

  /** The other steps leave what is due as it is. */
  lemma MoveOf(s: Pump, a: Action, n: nat)
    requires InvOf(s, n) && !a.Push? && !a.StartWrite? && Enabled(s, a)
    ensures InvOf(Next(s, a), n)
  {
    assert Due(Next(s, a)) == Due(s);
    if a.AppendNext? {
      FlattenFrom(s.tmp, s.at.i);
    }
  }

  lemma {:induction false} LogGrows(states: seq<Pump>, acts: seq<Action>, i: nat)
    requires IsRun(states, acts) && i < |states|
    ensures states[i].log <= states[|acts|].log
    decreases |acts| - i
  {
    if i < |acts| {
      LogGrows(states, acts, i + 1);
      assert IsStep(states[i], acts[i], states[i + 1]);
    }
  }

  predicate NoEmptyBeforeLast(bufs: seq<Bytes>) {
    forall k :: 0 <= k < |bufs| - 1 ==> bufs[k] != []
  }

  lemma {:induction false} RunOf(bufs: seq<Bytes>, states: seq<Pump>, acts: seq<Action>, i: nat)
    requires NoEmptyBeforeLast(bufs) && IsRun(states, acts) && i < |states| && states[|acts|].log <= bufs
    ensures forall j :: 0 <= j <= i ==> InvOf(states[j], |bufs|)
  {
    if i > 0 {
      RunOf(bufs, states, acts, i - 1);
      LogGrows(states, acts, i);
      var s, a := states[i - 1], acts[i - 1];
      assert IsStep(s, a, states[i]);
      if a.Push? {
        assert states[i].log[|s.log|] == a.buf == bufs[|s.log|];
      }
      match a
      case Push(_) => PushOf(s, a, |bufs|);
      case StartWrite => StartOf(s, a, |bufs|);
      case _ => MoveOf(s, a, |bufs|);
    }
  }

  /** No run that pushes these buffers, or the first of them, in this order has two writes in flight. */
  ghost predicate OneWriteFor(bufs: seq<Bytes>) {
    forall states: seq<Pump>, acts: seq<Action> :: IsRun(states, acts) && states[|acts|].log <= bufs ==> |states[|acts|].inFlight| <= 1
  }

  /** Exactly which sends are safe: an empty buffer may come last, but not before another one. */
  lemma OneWriteIffNoEmptyBeforeLast(bufs: seq<Bytes>)
    ensures OneWriteFor(bufs) <==> NoEmptyBeforeLast(bufs)
  {
    if NoEmptyBeforeLast(bufs) {
      forall states: seq<Pump>, acts: seq<Action> | IsRun(states, acts) && states[|acts|].log <= bufs ensures |states[|acts|].inFlight| <= 1 {
        RunOf(bufs, states, acts, |acts|);
      }
    } else {
      var k :| 0 <= k < |bufs| - 1 && bufs[k] == [];
      var s := EmptyThenAnother(bufs, k);
      var states, acts :| IsPath(Init, states, acts) && states[|acts|] == s;
      assert IsRun(states, acts) && s.log <= bufs;
    }
  }

  /** The rest of the queue taken is in the write buffer. */
  function Gathered(s: Pump): Pump
    requires s.at.Appending? && s.at.i <= |s.tmp|
  {
    s.(writeBuf := s.writeBuf + Flatten(s.tmp[s.at.i..]), at := Appending(|s.tmp|))
  }

  lemma GatherOne(s: Pump)
    requires s.at.Appending? && s.at.i < |s.tmp|
    ensures Gathered(Next(s, AppendNext)) == Gathered(s)
  {
    FlattenFrom(s.tmp, s.at.i);
    MoveOne(s.writeBuf, s.tmp[s.at.i], Flatten(s.tmp[s.at.i + 1..]), []);
  }

  lemma {:induction false} GatherFrom(from: Pump, s: Pump)
    requires Leads(from, s) && s.at.Appending? && s.at.i <= |s.tmp|
    ensures Leads(from, Gathered(s))
    decreases if s.at.Appending? then |s.tmp| - s.at.i else 0
  {
    if s.at.i == |s.tmp| {
      assert s.writeBuf + Flatten(s.tmp[s.at.i..]) == s.writeBuf;
    } else {
      Grow(from, s, AppendNext);
      GatherOne(s);
      GatherFrom(from, Next(s, AppendNext));
    }
  }

  /** `Session.Write` is the loop's own steps when no sender comes in between. */
  lemma WriteIsSteps(s: Pump)
    requires s.at.BeforeSwap? && !s.holding && s.unsend != []
    ensures Leads(s, s.(tmp := s.unsend, unsend := [], writeBuf := s.writeBuf + Flatten(s.unsend), at := Appending(|s.unsend|)))
  {
    Stay(s);
    Grow(s, s, Swap);
    assert s.unsend[0..] == s.unsend;
    GatherFrom(s, Next(s, Swap));
  }

  // ----- the object

  /** The session's own fields; each method is one uninterrupted stretch of the code above. */
  class Session {
    var unsendQueue: seq<Bytes>
    var tmpQueue: seq<Bytes>
    const writeBuf: Buffer
    const readBuf: Buffer

    constructor ()
      ensures unsendQueue == [] && tmpQueue == []
      ensures writeBuf.Valid() && writeBuf.Contents() == [] && fresh(writeBuf) && fresh(writeBuf.data)
      ensures readBuf.Valid() && readBuf.Contents() == [] && fresh(readBuf) && fresh(readBuf.data)
      ensures readBuf.WritableBytes() == INITIAL_SIZE
    {
      unsendQueue, tmpQueue := [], [];
      writeBuf := new Buffer(INITIAL_SIZE);
      readBuf := new Buffer(INITIAL_SIZE);
    }

    /** send, up to the point where it decides whether to post: `Push` and `Check`. */
    method Send(buffer: Bytes) returns (post: bool)
      requires writeBuf.Valid()
      modifies this
      ensures unsendQueue == old(unsendQueue) + [buffer] && tmpQueue == old(tmpQueue)
      ensures post <==> writeBuf.Contents() == []
    {
      unsendQueue := unsendQueue + [buffer];
      post := writeBuf.ReadableBytes() == 0;
    }

    /** write: `Swap`, all `AppendNext` (see `WriteIsSteps`), and whether there is anything to start. */
    method Write() returns (start: bool)
      requires writeBuf.Valid()
      modifies this, writeBuf, writeBuf.data
      ensures writeBuf.Valid() && (writeBuf.data == old(writeBuf.data) || fresh(writeBuf.data))
      ensures tmpQueue == old(unsendQueue) && unsendQueue == [] && (start <==> old(unsendQueue) != [])
      ensures writeBuf.Contents() == old(writeBuf.Contents()) + Flatten(old(unsendQueue))
    {
      tmpQueue, unsendQueue := unsendQueue, tmpQueue;
      unsendQueue := [];
      start := tmpQueue != [];
      if start {
        Gather();
      } else {
        assert writeBuf.Contents() + [] == writeBuf.Contents();
      }
    }

    /** Copies the queue taken into the write buffer. */
    method Gather()
      requires writeBuf.Valid()
      modifies writeBuf, writeBuf.data
      ensures writeBuf.Valid() && (writeBuf.data == old(writeBuf.data) || fresh(writeBuf.data))
      ensures writeBuf.Contents() == old(writeBuf.Contents()) + Flatten(tmpQueue)
    {
      var i := 0;
      ghost var before := writeBuf.Contents();
      assert before + Flatten(tmpQueue[..0]) == before;
      while i < |tmpQueue|
        modifies writeBuf, writeBuf.data
        invariant i <= |tmpQueue|
        invariant writeBuf.Valid() && (writeBuf.data == old(writeBuf.data) || fresh(writeBuf.data))
        invariant writeBuf.Contents() == before + Flatten(tmpQueue[..i])
      {
        FlattenFrom(tmpQueue, i);
        writeBuf.Append(tmpQueue[i]);
        i := i + 1;
      }
      assert tmpQueue[..i] == tmpQueue;
    }

    /** The completion handler: `Complete` and `Recheck`. The size reported is not looked at. */
    method OnWritten() returns (again: bool)
      requires writeBuf.Valid()
      modifies writeBuf
      ensures writeBuf.Valid() && writeBuf.data == old(writeBuf.data) && writeBuf.Contents() == []
      ensures again <==> unsendQueue != []
    {
      writeBuf.Retrieve(writeBuf.ReadableBytes());
      again := unsendQueue != [];
    }

    /** The read handler with the RPC codec behind it: the next read always has room for as much. */
    method OnRead(chunk: Bytes, delivered: RpcCodec.Events) returns (events: RpcCodec.Events, stopped: bool)
      requires readBuf.Valid() && 0 < |chunk| <= readBuf.WritableBytes()
      modifies readBuf, readBuf.data
      ensures readBuf.Valid() && (readBuf.data == old(readBuf.data) || fresh(readBuf.data))
      ensures Outcome(events, readBuf.Contents(), stopped) == Drain(RpcCodec.Decode, delivered, old(readBuf.Contents()) + chunk)
      ensures readBuf.WritableBytes() >= |chunk|
    {
      readBuf.Fill(chunk);
      events, stopped := RpcCodec.OnMessage(readBuf, delivered);
      readBuf.EnsureWritableBytes(|chunk|);
    }
  }
}
