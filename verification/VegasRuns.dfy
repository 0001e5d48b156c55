/**
 The limiter of rate/Vegas.h with any number of callers and done closures at work at once.
 Every access to something that others change or see is a step of its own, under the mutex
 too; a run is any interleaving. The calls `Add` and `RTT` of a sample are one step each; the
 atomic operations of a sample are interleaved in `Samples`.
 */
module VegasRuns {
  import opened VegasWindows

  /** What a closure has in hand once it has seen to the probe. */
  datatype Local = Local(lastRTT: int, limit: int, queue: int, probeMax: int, rnd: nat)

  /**
   Where a caller is: its ticket drawn, admitted or not, and then inside its done closure: in
   front of loading the sample, adding to it, the two loads of the check, the mutex, and, with
   the mutex held and the sample replaced, taking the average, storing the time, the probe, the
   two readings of the sample the limit depends on, and storing the limit.
   */
  datatype Pc =
    | Acquired
    | Held(granted: bool)
    | Fetch
    | AddTo(s: nat)
    | CheckTime(s: nat)
    | CheckCount(s: nat)
    | WaitLock(s: nat)
    | Measure(s: nat)
    | StoreTime(s: nat, lastRTT: int)
    | Probe(s: nat, lastRTT: int)
    | ReadDrop(s: nat, local: Local)
    | ReadMax(s: nat, local: Local, drop: bool)
    | StoreLimit(s: nat, local: Local, drop: bool, maxInFlight: int)
    | Finished

  datatype Thread = Thread(ticket: int, start: int, op: Op, end: int, pc: Pc)

  /**
   `samples` lists all samples ever made, the last being the current one; `owner` is the thread
   that holds the mutex, or -1; `updates` and `windows` record the updates and whose windows
   they were.
   */
  datatype State = State(
    inFlight: int, updateTime: int, tuning: Tuning, samples: seq<Window>, owner: int,
    threads: seq<Thread>, updates: seq<Update>, windows: seq<nat>)

  const Init := State(0, 0, InitTuning, [Empty], -1, [], [], [])

  datatype Action =
    | Increment
    | LoadLimit(i: nat)
    | Begin(i: nat, start: int, op: Op, end: int)
    | Advance(i: nat, rnd: nat, root: real)

  predicate InClosure(pc: Pc) { !pc.Acquired? && !pc.Held? && !pc.Finished? }

  /** The sample is replaced, the new time not stored yet. */
  predicate Closing(pc: Pc) { pc.Measure? || pc.StoreTime? }

  /** The probe is done, the limit not stored yet. */
  predicate Probed(pc: Pc) { pc.ReadDrop? || pc.ReadMax? || pc.StoreLimit? }

  predicate Locking(pc: Pc) { Closing(pc) || pc.Probe? || Probed(pc) }

  predicate HasSample(pc: Pc) { InClosure(pc) && !pc.Fetch? }

  predicate Enabled(s: State, a: Action) {
    match a
    case Increment => true
    case LoadLimit(i) => i < |s.threads| && s.threads[i].pc.Acquired?
    case Begin(i, _, op, _) => i < |s.threads| && s.threads[i].pc.Held? && (s.threads[i].pc.granted || op.Ignore?)
    case Advance(i, rnd, root) =>
      && i < |s.threads| && s.samples != []
      && var pc := s.threads[i].pc;
      && InClosure(pc) && (HasSample(pc) ==> pc.s < |s.samples|)
      && (pc.WaitLock? ==> s.owner == -1)
      && (pc.Probe? ==> rnd < 3 * s.tuning.limit)
      && (pc.StoreLimit? ==> RootOf(root, pc.local.limit))
  }

  /** The readings a closure stores its limit with. */
  function UpdateOf(th: Thread, root: real): Update
    requires th.pc.StoreLimit?
  {
    var l := th.pc.local;
    Update(th.end, l.lastRTT, l.probeMax, th.pc.drop, th.pc.maxInFlight, l.rnd, root)
  }

  function Goto(s: State, i: nat, pc: Pc): State
    requires i < |s.threads|
  {
    s.(threads := s.threads[i := s.threads[i].(pc := pc)])
  }

  function Next(s: State, a: Action): State
    requires Enabled(s, a)
  {
    match a
    case Increment =>
      s.(inFlight := s.inFlight + 1, threads := s.threads + [Thread(s.inFlight + 1, 0, Ignore, 0, Acquired)])
    case LoadLimit(i) => Goto(s, i, Held(s.threads[i].ticket <= s.tuning.limit))
    case Begin(i, start, op, end) =>
      var th := Thread(s.threads[i].ticket, start, op, end, if op.Ignore? then Finished else Fetch);
      s.(inFlight := s.inFlight - 1, threads := s.threads[i := th])
    case Advance(i, rnd, root) => Step(s, i, rnd, root)
  }

  function Step(s: State, i: nat, rnd: nat, root: real): State
    requires Enabled(s, Advance(i, rnd, root))
  {
    var th := s.threads[i];
    match th.pc
    case Fetch => Goto(s, i, AddTo(|s.samples| - 1))
    case AddTo(w) =>
      Goto(s, i, CheckTime(w)).(samples := s.samples[w := Add(s.samples[w], th.end - th.start, th.ticket, th.op.Drop?)])
    case CheckTime(w) => Goto(s, i, if th.end > s.updateTime then CheckCount(w) else Finished)
    case CheckCount(w) => Goto(s, i, if s.samples[w].count >= MIN_SAMPLES then WaitLock(w) else Finished)
    case WaitLock(w) =>
      if w != |s.samples| - 1 then Goto(s, i, Finished)
      else Goto(s, i, Measure(w)).(samples := s.samples + [Empty], owner := i)
    case Measure(w) =>
      var lastRTT := RTT(s.samples[w]);
      if lastRTT <= 0 then Goto(s, i, Finished).(owner := -1) else Goto(s, i, StoreTime(w, lastRTT))
    case StoreTime(w, lastRTT) => Goto(s, i, Probe(w, lastRTT)).(updateTime := NextUpdateTime(th.end, lastRTT))
    case Probe(w, lastRTT) =>
      var t, max := s.tuning, s.samples[w].maxInFlight;
      var local := Local(lastRTT, t.limit, Queue(t, lastRTT), max, rnd);
      Goto(s, i, ReadDrop(w, local)).(tuning := t.(minRTT := NextMinRTT(t, max, lastRTT), probes := NextProbes(t, max, rnd)))
    case ReadDrop(w, local) => Goto(s, i, ReadMax(w, local, s.samples[w].drop))
    case ReadMax(w, local, drop) => Goto(s, i, StoreLimit(w, local, drop, s.samples[w].maxInFlight))
    case StoreLimit(w, local, drop, max) =>
      Goto(s, i, Finished).(
        tuning := s.tuning.(limit := Retargeted(local.limit, drop, max, local.queue, root / 2.0)), owner := -1,
        updates := s.updates + [UpdateOf(th, root)], windows := s.windows + [w])
  }

  predicate IsStep(s: State, a: Action, t: State) {
    Enabled(s, a) && t == Next(s, a)
  }

  predicate IsPath(from: State, states: seq<State>, acts: seq<Action>) {
    && |states| == |acts| + 1 && states[0] == from
    && forall k :: 0 <= k < |acts| ==> IsStep(states[k], acts[k], states[k + 1])
  }

  predicate IsRun(states: seq<State>, acts: seq<Action>) {
    IsPath(Init, states, acts)
  }

  // ----- what every reachable state satisfies

  /**
   Exactly the owner is inside the mutex, with the window replaced last; whoever waits for it has
   seen enough measurements.
   */
  predicate ThreadOk(th: Thread, owns: bool, samples: seq<Window>) {
    && (Locking(th.pc) <==> owns)
    && (Locking(th.pc) ==> th.pc.s == |samples| - 2)
    && (th.pc.StoreTime? || th.pc.Probe? ==> th.pc.lastRTT > 0)
    && (HasSample(th.pc) ==> th.pc.s < |samples|)
    && (th.pc.WaitLock? ==> samples[th.pc.s].count >= MIN_SAMPLES)
  }

  predicate ThreadsOk(threads: seq<Thread>, owner: int, samples: seq<Window>) {
    && -1 <= owner < |threads|
    && forall i :: 0 <= i < |threads| ==> ThreadOk(threads[i], i == owner, samples)
  }

  /** Windows are closed with enough measurements. */
  predicate SamplesOk(samples: seq<Window>) {
    samples != [] && forall w :: 0 <= w < |samples| - 1 ==> samples[w].count >= MIN_SAMPLES
  }

  /** Each window moves the limit at most once, in the order they were closed. */
  predicate WindowsOk(windows: seq<nat>, bound: int) {
    && (forall k :: 0 <= k < |windows| ==> windows[k] < bound)
    && (forall j, k :: 0 <= j < k < |windows| ==> windows[j] < windows[k])
  }

  /** Windows that can have moved the limit already. */
  function ClosedBy(owner: int, samples: seq<Window>): int {
    |samples| - if owner == -1 then 1 else 2
  }

  predicate CoreOk(s: State) {
    && ThreadsOk(s.threads, s.owner, s.samples)
    && SamplesOk(s.samples)
    && |s.windows| == |s.updates| && WindowsOk(s.windows, ClosedBy(s.owner, s.samples))
  }

  /** Where the owner of the mutex is. */
  function Holder(s: State): Pc {
    if 0 <= s.owner < |s.threads| then s.threads[s.owner].pc else Finished
  }

  /** Between probe and limit the owner has seen to part of the next update. */
  predicate Halfway(before: Tuning, now: Tuning, l: Local) {
    && l.limit == now.limit == before.limit && l.queue == Queue(before, l.lastRTT)
    && l.lastRTT > 0 && l.rnd < 3 * before.limit
    && now.minRTT == NextMinRTT(before, l.probeMax, l.lastRTT) && now.probes == NextProbes(before, l.probeMax, l.rnd)
  }

  predicate HistoryOk(tuning: Tuning, updates: seq<Update>, holder: Pc) {
    && LegalHistory(updates)
    && if Probed(holder) then Halfway(Replay(updates), tuning, holder.local) else tuning == Replay(updates)
  }

  predicate Inv(s: State) {
    CoreOk(s) && HistoryOk(s.tuning, s.updates, Holder(s))
  }

  lemma ThreadMoves(threads: seq<Thread>, owner: int, samples: seq<Window>, i: nat, th: Thread)
    requires ThreadsOk(threads, owner, samples) && i < |threads| && ThreadOk(th, i == owner, samples)
    ensures ThreadsOk(threads[i := th], owner, samples)
  {
  }

  /** More measurements hurt nobody. */
  lemma SampleGrows(threads: seq<Thread>, owner: int, samples: seq<Window>, w: nat, more: Window)
    requires w < |samples| && more.count >= samples[w].count
    ensures ThreadsOk(threads, owner, samples) ==> ThreadsOk(threads, owner, samples[w := more])
    ensures SamplesOk(samples) ==> SamplesOk(samples[w := more])
  {
    if ThreadsOk(threads, owner, samples) {
      forall i | 0 <= i < |threads| ensures ThreadOk(threads[i], i == owner, samples[w := more]) {
        assert ThreadOk(threads[i], i == owner, samples);
      }
    }
  }

  /** With the mutex free, thread `i` takes it and replaces the sample. */
  lemma TakeLock(threads: seq<Thread>, samples: seq<Window>, i: nat, th: Thread)
    requires ThreadsOk(threads, -1, samples) && i < |threads| && ThreadOk(th, true, samples + [Empty])
    ensures ThreadsOk(threads[i := th], i, samples + [Empty])
  {
    var after := threads[i := th];
    forall j | 0 <= j < |after| ensures ThreadOk(after[j], j == i, samples + [Empty]) {
      assert ThreadOk(threads[j], j == -1, samples);
    }
  }

  /** The owner is done. */
  lemma ReleaseLock(threads: seq<Thread>, samples: seq<Window>, i: nat, th: Thread)
    requires i < |threads| && ThreadsOk(threads, i, samples) && ThreadOk(th, false, samples)
    ensures ThreadsOk(threads[i := th], -1, samples)
  {
    var after := threads[i := th];
    forall j | 0 <= j < |after| ensures ThreadOk(after[j], j == -1, samples) {
      assert ThreadOk(threads[j], j == i, samples);
    }
  }

  lemma CallKeeps(s: State, a: Action)
    requires CoreOk(s) && !a.Advance? && Enabled(s, a)
    ensures CoreOk(Next(s, a))
  {
    if a.Increment? {
      var t := Next(s, a);
      forall i | 0 <= i < |t.threads| ensures ThreadOk(t.threads[i], i == t.owner, t.samples) {
        assert i < |s.threads| ==> ThreadOk(s.threads[i], i == s.owner, s.samples);
      }
    } else {
      ThreadMoves(s.threads, s.owner, s.samples, a.i, Next(s, a).threads[a.i]);
    }
  }

  /** Inside the closure, in front of the mutex. */
  lemma CheckKeeps(s: State, a: Action)
    requires CoreOk(s) && a.Advance? && Enabled(s, a) && !Locking(s.threads[a.i].pc) && !s.threads[a.i].pc.WaitLock?
    ensures CoreOk(Next(s, a))
  {
    var t, th := Next(s, a), s.threads[a.i];
    assert ThreadOk(th, a.i == s.owner, s.samples);
    ThreadMoves(s.threads, s.owner, s.samples, a.i, t.threads[a.i]);
    if th.pc.AddTo? {
      SampleGrows(t.threads, s.owner, s.samples, th.pc.s, t.samples[th.pc.s]);
    }
  }

  lemma LockKeeps(s: State, a: Action)
    requires CoreOk(s) && a.Advance? && Enabled(s, a) && s.threads[a.i].pc.WaitLock?
    ensures CoreOk(Next(s, a))
  {
    var t, th := Next(s, a), s.threads[a.i];
    assert ThreadOk(th, false, s.samples);
    if th.pc.s == |s.samples| - 1 {
      TakeLock(s.threads, s.samples, a.i, t.threads[a.i]);
    } else {
      ThreadMoves(s.threads, s.owner, s.samples, a.i, t.threads[a.i]);
    }
  }

  /** Under the mutex. */
  lemma OwnerKeeps(s: State, a: Action)
    requires CoreOk(s) && a.Advance? && Enabled(s, a) && Locking(s.threads[a.i].pc) && !s.threads[a.i].pc.StoreLimit?
    ensures CoreOk(Next(s, a))
  {
    var t, th := Next(s, a), s.threads[a.i];
    assert ThreadOk(th, a.i == s.owner, s.samples);
    if t.threads[a.i].pc.Finished? {
      ReleaseLock(s.threads, s.samples, a.i, t.threads[a.i]);
    } else {
      ThreadMoves(s.threads, s.owner, s.samples, a.i, t.threads[a.i]);
    }
  }

  lemma OneMoreWindow(windows: seq<nat>, w: nat)
    requires WindowsOk(windows, w)
    ensures WindowsOk(windows + [w], w + 1)
  {
  }

  lemma StoreKeeps(s: State, a: Action)
    requires CoreOk(s) && a.Advance? && Enabled(s, a) && s.threads[a.i].pc.StoreLimit?
    ensures CoreOk(Next(s, a))
  {
    var th := s.threads[a.i];
    assert ThreadOk(th, a.i == s.owner, s.samples);
    ReleaseLock(s.threads, s.samples, a.i, th.(pc := Finished));
    OneMoreWindow(s.windows, th.pc.s);
  }

  /** Nobody else touches limit, minRTT and probes. */
  lemma OthersKeepHistory(s: State, a: Action)
    requires Inv(s) && Enabled(s, a) && (a.Advance? ==> !Locking(s.threads[a.i].pc))
    ensures var t := Next(s, a); HistoryOk(t.tuning, t.updates, Holder(t))
  {
    var t := Next(s, a);
    if !a.Increment? {
      assert ThreadOk(s.threads[a.i], a.i == s.owner, s.samples);
    }
    assert Holder(t) == Holder(s) || (!Probed(Holder(t)) && !Probed(Holder(s)));
  }

  lemma HalfwayEnds(before: Tuning, now: Tuning, th: Thread, root: real)
    requires th.pc.StoreLimit? && Halfway(before, now, th.pc.local) && RootOf(root, th.pc.local.limit)
    ensures var pc, u := th.pc, UpdateOf(th, root);
            && now.(limit := Retargeted(pc.local.limit, pc.drop, pc.maxInFlight, pc.local.queue, root / 2.0)) == Adjusted(before, u)
            && Legal(before, u)
  {
  }

  /** The owner alone can stand behind the mutex. */
  lemma OwnerIsHolder(s: State, a: Action)
    requires CoreOk(s) && a.Advance? && Enabled(s, a) && Locking(s.threads[a.i].pc)
    ensures var t := Next(s, a); Holder(s) == s.threads[a.i].pc && Holder(t) == t.threads[a.i].pc
  {
    assert ThreadOk(s.threads[a.i], a.i == s.owner, s.samples);
  }

  /** The fields and the holder of the mutex before and after the limit is stored. */
  lemma StoreEndsUpdate(tuning: Tuning, updates: seq<Update>, holder: Pc, th: Thread, root: real,
                        tuning': Tuning, updates': seq<Update>, holder': Pc)
    requires HistoryOk(tuning, updates, holder) && holder == th.pc && holder.StoreLimit? && RootOf(root, holder.local.limit)
    requires var limit := Retargeted(holder.local.limit, holder.drop, holder.maxInFlight, holder.local.queue, root / 2.0);
             tuning' == tuning.(limit := limit) && updates' == updates + [UpdateOf(th, root)] && holder' == Finished
    ensures HistoryOk(tuning', updates', holder')
  {
    HalfwayEnds(Replay(updates), tuning, th, root);
    LegalSnoc(updates, UpdateOf(th, root));
  }

  lemma StoreKeepsHistory(s: State, a: Action)
    requires CoreOk(s) && a.Advance? && Enabled(s, a) && s.threads[a.i].pc.StoreLimit?
    requires HistoryOk(s.tuning, s.updates, Holder(s))
    ensures var t := Next(s, a); HistoryOk(t.tuning, t.updates, Holder(t))
  {
    var t := Next(s, a);
    OwnerIsHolder(s, a);
    StoreEndsUpdate(s.tuning, s.updates, Holder(s), s.threads[a.i], a.root, t.tuning, t.updates, Holder(t));
  }

  lemma OwnerKeepsHistory(s: State, a: Action)
    requires CoreOk(s) && a.Advance? && Enabled(s, a) && Locking(s.threads[a.i].pc) && !s.threads[a.i].pc.StoreLimit?
    requires HistoryOk(s.tuning, s.updates, Holder(s))
    ensures var t := Next(s, a); HistoryOk(t.tuning, t.updates, Holder(t))
  {
    OwnerIsHolder(s, a);
    assert ThreadOk(s.threads[a.i], a.i == s.owner, s.samples);
  }

  lemma StepKeeps(s: State, a: Action)
    requires Inv(s) && Enabled(s, a)
    ensures Inv(Next(s, a))
  {
    if !a.Advance? {
      OthersKeepHistory(s, a);
      CallKeeps(s, a);
    } else if Locking(s.threads[a.i].pc) {
      if s.threads[a.i].pc.StoreLimit? {
        StoreKeepsHistory(s, a);
        StoreKeeps(s, a);
      } else {
        OwnerKeepsHistory(s, a);
        OwnerKeeps(s, a);
      }
    } else {
      OthersKeepHistory(s, a);
      if s.threads[a.i].pc.WaitLock? { LockKeeps(s, a); } else { CheckKeeps(s, a); }
    }
  }

  lemma {:induction false} RunKeeps(states: seq<State>, acts: seq<Action>, k: nat)
    requires IsRun(states, acts) && k < |states|
    ensures forall j :: 0 <= j <= k ==> Inv(states[j])
  {
    if k > 0 {
      RunKeeps(states, acts, k - 1);
      assert IsStep(states[k - 1], acts[k - 1], states[k]);
      StepKeeps(states[k - 1], acts[k - 1]);
    }
  }

  // ----- what this gives

  /**
   In every interleaving: at most one closure is inside the mutex; every window that was replaced
   has at least 16 measurements; and the windows that moved the limit did so once each, in the
   order they were replaced.
   */
  lemma WindowsCloseOnce(states: seq<State>, acts: seq<Action>, k: nat)
    requires IsRun(states, acts) && k < |states|
    ensures var s := states[k];
            && (forall i, j :: 0 <= i < j < |s.threads| ==> !(Locking(s.threads[i].pc) && Locking(s.threads[j].pc)))
            && (forall w :: 0 <= w < |s.samples| - 1 ==> s.samples[w].count >= MIN_SAMPLES)
            && |s.windows| == |s.updates| && WindowsOk(s.windows, |s.samples| - 1)
  {
    assert Inv(states[k]) by { RunKeeps(states, acts, k); }
    var s := states[k];
    forall i, j | 0 <= i < j < |s.threads| ensures !(Locking(s.threads[i].pc) && Locking(s.threads[j].pc)) {
      assert ThreadOk(s.threads[i], i == s.owner, s.samples) && ThreadOk(s.threads[j], j == s.owner, s.samples);
    }
  }

  /** The updates, and the one the owner is halfway through. */
  function Begun(s: State): seq<Update> {
    var pc := Holder(s);
    s.updates + if Probed(pc) then [Update(0, pc.local.lastRTT, pc.local.probeMax, false, 0, pc.local.rnd, 0.0)] else []
  }

  /**
   In every interleaving limit, minRTT and probes are those of the updates applied one after the
   other: at every moment the limit is that of the finished updates, and minRTT and probes are
   those of the updates begun.
   */
  lemma UpdatesAreSerial(states: seq<State>, acts: seq<Action>, k: nat)
    requires IsRun(states, acts) && k < |states|
    ensures var s := states[k];
            && LegalHistory(s.updates) && PositiveAverages(Begun(s)) && (s.owner == -1 ==> Begun(s) == s.updates)
            && s.tuning == Tuning(Replay(s.updates).limit, Replay(Begun(s)).minRTT, Replay(Begun(s)).probes)
  {
    assert Inv(states[k]) by { RunKeeps(states, acts, k); }
    var s := states[k];
    if Probed(Holder(s)) {
      assert Begun(s)[..|s.updates|] == s.updates;
    } else {
      assert Begun(s) == s.updates;
    }
    LegalIsPositive(s.updates);
  }

  lemma LimitInRange(states: seq<State>, acts: seq<Action>, k: nat)
    requires IsRun(states, acts) && k < |states|
    ensures MIN_LIMIT <= states[k].tuning.limit <= MAX_LIMIT
  {
    UpdatesAreSerial(states, acts, k);
    ReplayInRange(states[k].updates);
  }

  /** In every interleaving minRTT is 0 before the first update and then the least average since the last reset. */
  lemma MinRTTIsMinimum(states: seq<State>, acts: seq<Action>, k: nat)
    requires IsRun(states, acts) && k < |states|
    ensures TracksMinimum(states[k].tuning.minRTT, Averages(Begun(states[k])))
  {
    UpdatesAreSerial(states, acts, k);
    ReplayTracksMinimum(Begun(states[k]));
  }

  /**
   If from the `i`th update on every window reports a drop, then after four times the root of the
   limit many of them the limit is the minimum, and stays there.
   */
  lemma DropsReachMinimum(states: seq<State>, acts: seq<Action>, k: nat, i: nat, root: real)
    requires IsRun(states, acts) && k < |states|
    requires var us := states[k].updates; i <= |us| && AllDrop(us, i) && Under(Replay(us[..i]).limit, root)
    requires (|states[k].updates| - i) as real >= 4.0 * root
    ensures states[k].tuning.limit == MIN_LIMIT
  {
    UpdatesAreSerial(states, acts, k);
    ReplayReachesMinimum(states[k].updates, i, root);
  }

  // ----- when changes of the limit are spaced

  predicate Changes(us: seq<Update>, k: nat) {
    k < |us| && Replay(us[..k + 1]).limit != Replay(us[..k]).limit
  }

  /** Any two changes of the limit are more than five averages of the first one's window apart, within 500 ms and 2 s. */
  predicate Spaced(us: seq<Update>) {
    forall j, k :: 0 <= j < k < |us| && Changes(us, j) && Changes(us, k) ==> us[k].end > us[j].end + Pause(us[j].lastRTT)
  }

  /** The closures at work. */
  function Active(s: State): set<nat> {
    set i | 0 <= i < |s.threads| && InClosure(s.threads[i].pc)
  }

  predicate AtMost(states: seq<State>, n: nat) {
    forall k :: 0 <= k < |states| ==> |Active(states[k])| <= n
  }

  /** Every run with at most `n` closures at work at a time spaces the changes. */
  ghost predicate AlwaysSpaced(n: nat) {
    forall states: seq<State>, acts: seq<Action> :: IsRun(states, acts) && AtMost(states, n) ==> Spaced(states[|acts|].updates)
  }

  /** Some closure has replaced the sample and not stored the new time yet. */
  predicate SomeoneCloses(s: State) {
    exists i :: 0 <= i < |s.threads| && Closing(s.threads[i].pc)
  }

  /** No closure loads the update time in such a state. */
  predicate NoStaleLoad(states: seq<State>, acts: seq<Action>)
    requires IsRun(states, acts)
  {
    forall k :: 0 <= k < |acts| ==> !(LoadsTime(states[k], acts[k]) && SomeoneCloses(states[k]))
  }

  predicate LoadsTime(s: State, a: Action) {
    a.Advance? && a.i < |s.threads| && s.threads[a.i].pc.CheckTime?
  }

  /** What the times of the closures are held against. */
  datatype Clock = Clock(us: seq<Update>, time: int, current: int, closing: bool)

  function ClockOf(s: State): Clock {
    Clock(s.updates, s.updateTime, |s.samples| - 1, Closing(Holder(s)))
  }

  /** The average a closure works with behind the store of the time. */
  function AverageAt(pc: Pc): int {
    if pc.Probe? then pc.lastRTT else if Probed(pc) then pc.local.lastRTT else 0
  }

  /** Whoever may still close the current sample comes late enough; while another is closing nobody may. */
  predicate TimeOk(th: Thread, c: Clock) {
    && ((th.pc.CheckCount? || th.pc.WaitLock?) && th.pc.s == c.current ==> !c.closing && th.end > c.time)
    && (Closing(th.pc) ==> th.end > c.time)
    && (Locking(th.pc) && !Closing(th.pc) ==> c.time >= th.end + Pause(AverageAt(th.pc)) && After(th.end, c.us))
  }

  predicate After(end: int, us: seq<Update>) {
    forall k :: 0 <= k < |us| ==> end > us[k].end + Pause(us[k].lastRTT)
  }

  predicate AllSpaced(us: seq<Update>) {
    forall j, k :: 0 <= j < k < |us| ==> us[k].end > us[j].end + Pause(us[j].lastRTT)
  }

  predicate HistorySpaced(us: seq<Update>, time: int) {
    AllSpaced(us) && forall k :: 0 <= k < |us| ==> us[k].end + Pause(us[k].lastRTT) <= time
  }

  predicate TimesOk(s: State) {
    && HistorySpaced(s.updates, s.updateTime)
    && forall i :: 0 <= i < |s.threads| ==> TimeOk(s.threads[i], ClockOf(s))
  }

  lemma AppendSpaced(us: seq<Update>, u: Update, time: int)
    requires HistorySpaced(us, time) && After(u.end, us) && u.end + Pause(u.lastRTT) <= time
    ensures HistorySpaced(us + [u], time)
  {
  }

  /** What is asked in front of the mutex is not more than before. */
  predicate Relaxed(c: Clock, d: Clock) {
    d.current > c.current || (d.current == c.current && (c.closing || (!d.closing && d.time == c.time)))
  }

  lemma OtherTimes(threads: seq<Thread>, i: nat, after: seq<Thread>, c: Clock, d: Clock)
    requires i < |threads| == |after| && after == threads[i := after[i]] && TimeOk(after[i], d) && Relaxed(c, d)
    requires forall j :: 0 <= j < |threads| ==> TimeOk(threads[j], c)
    requires forall j :: 0 <= j < |threads| && HasSample(threads[j].pc) ==> threads[j].pc.s <= c.current
    requires (d.us == c.us && d.time == c.time) || forall j :: 0 <= j < |threads| && j != i ==> !Locking(threads[j].pc)
    ensures forall j :: 0 <= j < |after| ==> TimeOk(after[j], d)
  {
    forall j | 0 <= j < |after| ensures TimeOk(after[j], d) {
      assert TimeOk(threads[j], c);
    }
  }

  /** A step in front of the mutex. */
  lemma CheckTimes(s: State, a: Action)
    requires CoreOk(s) && TimesOk(s) && a.Advance? && Enabled(s, a) && !(LoadsTime(s, a) && SomeoneCloses(s))
    requires !Locking(s.threads[a.i].pc)
    ensures var t := Next(s, a); TimeOk(t.threads[a.i], ClockOf(t)) && Relaxed(ClockOf(s), ClockOf(t))
  {
    var th := s.threads[a.i];
    assert TimeOk(th, ClockOf(s)) && ThreadOk(th, a.i == s.owner, s.samples);
  }

  /** A step of the owner. */
  lemma OwnerTimes(s: State, a: Action)
    requires CoreOk(s) && TimesOk(s) && a.Advance? && Enabled(s, a) && Locking(s.threads[a.i].pc)
    ensures var t := Next(s, a);
            TimeOk(t.threads[a.i], ClockOf(t)) && Relaxed(ClockOf(s), ClockOf(t)) && HistorySpaced(t.updates, t.updateTime)
  {
    var th := s.threads[a.i];
    assert TimeOk(th, ClockOf(s)) && ThreadOk(th, a.i == s.owner, s.samples);
    if th.pc.StoreTime? {
      WindowIsPause(th.end, th.pc.lastRTT);
      assert After(th.end, s.updates);
    } else if th.pc.StoreLimit? {
      AppendSpaced(s.updates, UpdateOf(th, a.root), s.updateTime);
    }
  }

  lemma SamplesKnown(s: State)
    requires CoreOk(s)
    ensures forall j :: 0 <= j < |s.threads| && HasSample(s.threads[j].pc) ==> s.threads[j].pc.s <= |s.samples| - 1
    ensures forall j :: 0 <= j < |s.threads| && j != s.owner ==> !Locking(s.threads[j].pc)
  {
    forall j | 0 <= j < |s.threads| ensures ThreadOk(s.threads[j], j == s.owner, s.samples) { }
  }

  lemma AdvanceTimes(s: State, a: Action)
    requires CoreOk(s) && TimesOk(s) && a.Advance? && Enabled(s, a) && !(LoadsTime(s, a) && SomeoneCloses(s))
    ensures TimesOk(Next(s, a))
  {
    var t := Next(s, a);
    SamplesKnown(s);
    if Locking(s.threads[a.i].pc) { OwnerTimes(s, a); } else { CheckTimes(s, a); }
    OtherTimes(s.threads, a.i, t.threads, ClockOf(s), ClockOf(t));
  }

  lemma CallTimes(s: State, a: Action)
    requires CoreOk(s) && TimesOk(s) && !a.Advance? && Enabled(s, a)
    ensures TimesOk(Next(s, a))
  {
    var t := Next(s, a);
    if !a.Increment? { assert ThreadOk(s.threads[a.i], a.i == s.owner, s.samples); }
    assert ClockOf(t) == ClockOf(s);
    forall j | 0 <= j < |t.threads| ensures TimeOk(t.threads[j], ClockOf(t)) {
      assert j < |s.threads| ==> TimeOk(s.threads[j], ClockOf(s));
    }
  }

  lemma TimesKeep(s: State, a: Action)
    requires CoreOk(s) && TimesOk(s) && Enabled(s, a) && !(LoadsTime(s, a) && SomeoneCloses(s))
    ensures TimesOk(Next(s, a))
  {
    if a.Advance? { AdvanceTimes(s, a); } else { CallTimes(s, a); }
  }

  lemma {:induction false} TimesRun(states: seq<State>, acts: seq<Action>, k: nat)
    requires IsRun(states, acts) && NoStaleLoad(states, acts) && k < |states|
    ensures forall j :: 0 <= j <= k ==> TimesOk(states[j])
  {
    if k > 0 {
      TimesRun(states, acts, k - 1);
      assert CoreOk(states[k - 1]) by { RunKeeps(states, acts, k - 1); }
      assert IsStep(states[k - 1], acts[k - 1], states[k]);
      TimesKeep(states[k - 1], acts[k - 1]);
    }
  }

  /**
   However many closures are at work: changes of the limit are spaced as long as no closure loads
   the update time while another has replaced the sample and not stored its new time.
   */
  lemma SpacedWithoutStaleLoads(states: seq<State>, acts: seq<Action>)
    requires IsRun(states, acts) && NoStaleLoad(states, acts)
    ensures Spaced(states[|acts|].updates)
  {
    TimesRun(states, acts, |acts|);
  }

  lemma {:induction false} SubsetSize<T>(a: set<T>, b: set<T>)
    requires a <= b
    ensures |a| <= |b|
  {
    if a != {} {
      var x :| x in a;
      SubsetSize(a - {x}, b - {x});
    }
  }

  lemma OneAtATimeLoads(states: seq<State>, acts: seq<Action>)
    requires IsRun(states, acts) && AtMost(states, 1)
    ensures NoStaleLoad(states, acts)
  {
    forall k | 0 <= k < |acts| && LoadsTime(states[k], acts[k]) ensures !SomeoneCloses(states[k]) {
      var s := states[k];
      assert |Active(s)| <= 1;
      if SomeoneCloses(s) {
        var i :| 0 <= i < |s.threads| && Closing(s.threads[i].pc);
        SubsetSize({i, acts[k].i}, Active(s));
      }
    }
  }

  // ----- two closures at a time are enough to break it

  predicate EndsIn(states: seq<State>, acts: seq<Action>, n: nat, s: State) {
    IsRun(states, acts) && AtMost(states, n) && states[|acts|] == s
  }

  /** Some run with at most `n` closures at work at a time ends in this state. */
  ghost predicate Reached(s: State, n: nat) {
    exists states: seq<State>, acts: seq<Action> :: EndsIn(states, acts, n, s)
  }

  /** No closure but these is at work. */
  predicate Only(s: State, who: set<nat>) {
    forall i :: 0 <= i < |s.threads| ==> (InClosure(s.threads[i].pc) ==> i in who)
  }

  lemma Extend(s: State, a: Action, who: set<nat>, n: nat)
    requires Reached(s, n) && Enabled(s, a) && Only(Next(s, a), who) && |who| <= n
    ensures Reached(Next(s, a), n)
  {
    var t := Next(s, a);
    var states, acts :| EndsIn(states, acts, n, s);
    SubsetSize(Active(t), who);
    var more, longer := states + [t], acts + [a];
    assert EndsIn(more, longer, n, t);
  }

  lemma AtStart(n: nat)
    ensures Reached(Init, n)
  {
    var states: seq<State>, acts: seq<Action> := [Init], [];
    assert Active(Init) == {};
    assert EndsIn(states, acts, n, Init);
  }

  /** Draws tickets, which are neither used nor given back. */
  lemma {:induction false} DrawTickets(k: nat, n: nat) returns (s: State)
    ensures Reached(s, n) && s == Init.(inFlight := k, threads := s.threads) && Only(s, {})
  {
    if k == 0 {
      AtStart(n);
      s := Init;
    } else {
      s := DrawTickets(k - 1, n);
      Extend(s, Increment, {}, n);
      s := Next(s, Increment);
    }
  }

  lemma SetPlusOne<T>(a: set<T>, x: T)
    ensures |a + {x}| <= |a| + 1
  {
    if x in a {
      assert a + {x} == a;
    }
  }

  /** After `k` successful calls of one nanosecond with ticket 8. */
  function Filled(k: nat): Window {
    Window(k, if k > 0 then 8 else 0, false, k)
  }

  /** Seven tickets are out; nobody but `others` is at work; the current sample is filled so far. */
  predicate Ready(s: State, others: set<nat>, k: nat) {
    && s.inFlight == 7 && s.tuning.limit >= 8 && Only(s, others)
    && s.samples != [] && s.samples[|s.samples| - 1] == Filled(k)
  }

  function Caller(end: int, pc: Pc): Thread {
    Thread(8, end - 1, Success, end, pc)
  }

  /** One more caller, whose measurement is the `k`th in the current sample. */
  function WithCaller(s: State, end: int, k: nat, pc: Pc): State
    requires s.samples != []
  {
    s.(samples := s.samples[|s.samples| - 1 := Filled(k)], threads := s.threads + [Caller(end, pc)])
  }

  /** A caller is admitted with ticket 8 and calls its closure. */
  lemma CallDone(s: State, others: set<nat>, end: int, k: nat, n: nat)
    requires Reached(s, n) && |others| < n && Ready(s, others, k)
    ensures Reached(s.(threads := s.threads + [Caller(end, Fetch)]), n)
  {
    var i := |s.threads|;
    var who := others + {i};
    SetPlusOne(others, i);
    Extend(s, Increment, who, n);
    var s1 := Next(s, Increment);
    Extend(s1, LoadLimit(i), who, n);
    var s2 := Next(s1, LoadLimit(i));
    Extend(s2, Begin(i, end - 1, Success, end), who, n);
    assert Next(s2, Begin(i, end - 1, Success, end)) == s.(threads := s.threads + [Caller(end, Fetch)]);
  }

  lemma FetchAndAdd(s: State, others: set<nat>, end: int, k: nat)
    requires Ready(s, others, k)
    ensures var i, w := |s.threads|, |s.samples| - 1; var a := Advance(i, 0, 0.0);
            var s1, s2 := s.(threads := s.threads + [Caller(end, Fetch)]), s.(threads := s.threads + [Caller(end, AddTo(w))]);
            && Enabled(s1, a) && Next(s1, a) == s2 && Only(s2, others + {i})
            && Enabled(s2, a) && Next(s2, a) == WithCaller(s, end, k + 1, CheckTime(w)) && Only(Next(s2, a), others + {i})
  {
  }

  /** Its closure adds to the sample and stands in front of the check of the time. */
  lemma CallAndAdd(s: State, others: set<nat>, end: int, k: nat, n: nat)
    requires Reached(s, n) && |others| < n && Ready(s, others, k)
    ensures Reached(WithCaller(s, end, k + 1, CheckTime(|s.samples| - 1)), n)
  {
    var i, a := |s.threads|, Advance(|s.threads|, 0, 0.0);
    SetPlusOne(others, i);
    CallDone(s, others, end, k, n);
    FetchAndAdd(s, others, end, k);
    Extend(s.(threads := s.threads + [Caller(end, Fetch)]), a, others + {i}, n);
    Extend(s.(threads := s.threads + [Caller(end, AddTo(|s.samples| - 1))]), a, others + {i}, n);
  }

  lemma CheckBoth(s: State, others: set<nat>, end: int, k: nat)
    requires Ready(s, others, k)
    ensures var i, w := |s.threads|, |s.samples| - 1; var a := Advance(i, 0, 0.0);
            var s1, s2 := WithCaller(s, end, k + 1, CheckTime(w)), WithCaller(s, end, k + 1, CheckCount(w));
            && Enabled(s1, a) && Next(s1, a) == (if end > s.updateTime then s2 else WithCaller(s, end, k + 1, Finished))
            && Enabled(s2, a) && Next(s2, a) == WithCaller(s, end, k + 1, if k + 1 >= MIN_SAMPLES then WaitLock(w) else Finished)
            && Only(Next(s1, a), others + {i}) && Only(Next(s2, a), others + {i})
  {
  }

  /** The two checks, for a closure that stands in front of them. */
  lemma Check(s: State, others: set<nat>, end: int, k: nat, n: nat)
    requires Reached(s, n) && |others| < n && Ready(s, others, k)
    ensures var w := |s.samples| - 1; var full := end > s.updateTime && k + 1 >= MIN_SAMPLES;
            Reached(WithCaller(s, end, k + 1, if full then WaitLock(w) else Finished), n)
  {
    var i, a, w := |s.threads|, Advance(|s.threads|, 0, 0.0), |s.samples| - 1;
    SetPlusOne(others, i);
    CallAndAdd(s, others, end, k, n);
    CheckBoth(s, others, end, k);
    Extend(WithCaller(s, end, k + 1, CheckTime(w)), a, others + {i}, n);
    if end > s.updateTime {
      Extend(WithCaller(s, end, k + 1, CheckCount(w)), a, others + {i}, n);
    }
  }

  /** Only the current sample and new threads differ. */
  predicate FilledTo(s: State, t: State, k: nat) {
    && s.samples != []
    && t == s.(samples := s.samples[|s.samples| - 1 := Filled(k)], threads := t.threads)
    && |s.threads| <= |t.threads| && t.threads[..|s.threads|] == s.threads
  }

  lemma FilledOneMore(s: State, u: State, others: set<nat>, end: int, k: nat)
    requires FilledTo(s, u, k) && Ready(u, others, k)
    ensures var t := WithCaller(u, end, k + 1, Finished); FilledTo(s, t, k + 1) && Ready(t, others, k + 1)
  {
  }

  lemma FilledNone(s: State)
    requires s.samples != [] && s.samples[|s.samples| - 1] == Filled(0)
    ensures FilledTo(s, s, 0)
  {
    assert s.samples[|s.samples| - 1 := Filled(0)] == s.samples;
  }

  /** After `k` more callers, all of whom have gone away again. */
  function Passed(s: State, end: int, k: nat): (t: State)
    requires s.samples != []
    ensures t.samples != []
  {
    if k == 0 then s else WithCaller(Passed(s, end, k - 1), end, k, Finished)
  }

  lemma {:induction false} PassedFills(s: State, others: set<nat>, end: int, k: nat)
    requires Ready(s, others, 0)
    ensures FilledTo(s, Passed(s, end, k), k) && Ready(Passed(s, end, k), others, k)
  {
    if k == 0 {
      FilledNone(s);
    } else {
      PassedFills(s, others, end, k - 1);
      FilledOneMore(s, Passed(s, end, k - 1), others, end, k - 1);
    }
  }

  lemma PassOne(s: State, others: set<nat>, end: int, k: nat, n: nat)
    requires Reached(s, n) && |others| < n && Ready(s, others, k) && k + 1 < MIN_SAMPLES
    ensures Reached(WithCaller(s, end, k + 1, Finished), n)
  {
    Check(s, others, end, k, n);
  }

  lemma {:induction false} PassMany(s: State, others: set<nat>, end: int, k: nat, n: nat)
    requires Reached(s, n) && |others| < n && Ready(s, others, 0) && k < MIN_SAMPLES
    ensures Reached(Passed(s, end, k), n)
  {
    if k > 0 {
      var u := Passed(s, end, k - 1);
      PassMany(s, others, end, k - 1, n);
      assert Ready(u, others, k - 1) by { PassedFills(s, others, end, k - 1); }
      PassOne(u, others, end, k - 1, n);
    }
  }

  lemma FilledLast(s: State, u: State, others: set<nat>, end: int)
    requires FilledTo(s, u, 15) && Ready(u, others, 15)
    ensures var t, c := WithCaller(u, end, 16, WaitLock(|s.samples| - 1)), |u.threads|;
            FilledTo(s, t, 16) && Only(t, others + {c}) && t.threads[c] == Caller(end, WaitLock(|s.samples| - 1))
  {
  }

  /** Sixteen callers fill the current sample; the last one waits for the mutex. */
  lemma FillWindow(s: State, others: set<nat>, end: int, n: nat) returns (t: State, c: nat)
    requires Reached(s, n) && |others| < n && Ready(s, others, 0) && end > s.updateTime
    ensures Reached(t, n) && FilledTo(s, t, 16) && Only(t, others + {c})
    ensures |s.threads| <= c < |t.threads| && t.threads[c] == Caller(end, WaitLock(|s.samples| - 1))
  {
    var u := Passed(s, end, 15);
    PassMany(s, others, end, 15, n);
    PassedFills(s, others, end, 15);
    c := |u.threads|;
    Check(u, others, end, 15, n);
    FilledLast(s, u, others, end);
    t := WithCaller(u, end, 16, WaitLock(|s.samples| - 1));
  }

  function Locked(s: State, c: nat, end: int): State
    requires s.samples != [] && c < |s.threads|
  {
    s.(samples := s.samples + [Empty], owner := c, threads := s.threads[c := Caller(end, Measure(|s.samples| - 1))])
  }

  /** A waiting closure gets the mutex and replaces the sample. */
  lemma Lock(s: State, c: nat, end: int, who: set<nat>, n: nat)
    requires Reached(s, n) && |who| <= n && Only(s, who) && c in who
    requires s.owner == -1 && s.samples != [] && c < |s.threads| && s.threads[c] == Caller(end, WaitLock(|s.samples| - 1))
    ensures Reached(Locked(s, c, end), n)
  {
    assert Next(s, Advance(c, 0, 0.0)) == Locked(s, c, end);
    Extend(s, Advance(c, 0, 0.0), who, n);
  }

  function FullWindow(end: int, root: real): Update {
    Update(end, 1, 8, false, 8, 0, root)
  }

  /** The owner's next step. */
  lemma OwnerStep(s: State, c: nat, end: int, root: real, pc: Pc, t: State, who: set<nat>, n: nat)
    requires Reached(s, n) && |who| <= n && Only(s, who) && c in who && c < |s.threads|
    requires Enabled(s, Advance(c, 0, root)) && Next(s, Advance(c, 0, root)) == t
    requires t.threads == s.threads[c := Caller(end, pc)]
    ensures Reached(t, n) && Only(t, who)
  {
    Extend(s, Advance(c, 0, root), who, n);
  }

  function Timed(s: State, c: nat, w: nat, end: int): State
    requires c < |s.threads|
  {
    s.(updateTime := end + MIN_WINDOW, threads := s.threads[c := Caller(end, Probe(w, 1))])
  }

  /** The owner of the mutex takes the average and stores the time. */
  lemma FinishTime(s: State, c: nat, w: nat, end: int, who: set<nat>, n: nat)
    requires Reached(s, n) && |who| <= n && Only(s, who) && c in who
    requires c < |s.threads| && s.threads[c] == Caller(end, Measure(w)) && w < |s.samples| && s.samples[w] == Filled(16)
    ensures Reached(Timed(s, c, w, end), n) && Only(Timed(s, c, w, end), who)
  {
    var s1 := s.(threads := s.threads[c := Caller(end, StoreTime(w, 1))]);
    OwnerStep(s, c, end, 0.0, StoreTime(w, 1), s1, who, n);
    assert s1.threads[c := Caller(end, Probe(w, 1))] == Timed(s, c, w, end).threads;
    OwnerStep(s1, c, end, 0.0, Probe(w, 1), Timed(s, c, w, end), who, n);
  }

  /** Probe done, and both readings taken. */
  function Seen(s: State, c: nat, end: int, pc: Pc): State
    requires c < |s.threads|
  {
    var t := s.tuning;
    s.(tuning := t.(minRTT := NextMinRTT(t, 8, 1), probes := NextProbes(t, 8, 0)), threads := s.threads[c := Caller(end, pc)])
  }

  lemma FinishProbe(s: State, c: nat, w: nat, end: int, who: set<nat>, n: nat)
    requires Reached(s, n) && |who| <= n && Only(s, who) && c in who && s.tuning.limit > 0
    requires c < |s.threads| && s.threads[c] == Caller(end, Probe(w, 1)) && w < |s.samples| && s.samples[w] == Filled(16)
    ensures var l := Local(1, s.tuning.limit, Queue(s.tuning, 1), 8, 0); var t := Seen(s, c, end, StoreLimit(w, l, false, 8));
            Reached(t, n) && Only(t, who)
  {
    var l := Local(1, s.tuning.limit, Queue(s.tuning, 1), 8, 0);
    var s1, s2, s3 := Seen(s, c, end, ReadDrop(w, l)), Seen(s, c, end, ReadMax(w, l, false)), Seen(s, c, end, StoreLimit(w, l, false, 8));
    OwnerStep(s, c, end, 0.0, ReadDrop(w, l), s1, who, n);
    assert s1.threads[c := Caller(end, ReadMax(w, l, false))] == s2.threads;
    OwnerStep(s1, c, end, 0.0, ReadMax(w, l, false), s2, who, n);
    assert s2.threads[c := Caller(end, StoreLimit(w, l, false, 8))] == s3.threads;
    OwnerStep(s2, c, end, 0.0, StoreLimit(w, l, false, 8), s3, who, n);
  }

  function Updated(s: State, c: nat, w: nat, end: int, root: real): State
    requires c < |s.threads|
  {
    s.(updateTime := end + MIN_WINDOW, tuning := Adjusted(s.tuning, FullWindow(end, root)), owner := -1,
       threads := s.threads[c := Caller(end, Finished)],
       updates := s.updates + [FullWindow(end, root)], windows := s.windows + [w])
  }

  /** The owner of the mutex stores the time and the limit. */
  lemma Finish(s: State, c: nat, w: nat, end: int, root: real, who: set<nat>, n: nat)
    requires Reached(s, n) && |who| <= n && Only(s, who) && c in who
    requires c < |s.threads| && s.threads[c] == Caller(end, Measure(w)) && w < |s.samples| && s.samples[w] == Filled(16)
    requires Legal(s.tuning, FullWindow(end, root))
    ensures Reached(Updated(s, c, w, end, root), n)
  {
    FinishTime(s, c, w, end, who, n);
    var s1 := Timed(s, c, w, end);
    FinishProbe(s1, c, w, end, who, n);
    var l := Local(1, s.tuning.limit, Queue(s.tuning, 1), 8, 0);
    var s2 := Seen(s1, c, end, StoreLimit(w, l, false, 8));
    assert s2.threads[c := Caller(end, Finished)] == s.threads[c := Caller(end, Finished)];
    OwnerStep(s2, c, end, root, Finished, Updated(s, c, w, end, root), who, n);
  }

  // Three windows: the first leaves the limit at 8, the second raises it to 16, the third to 28.

  lemma FirstTuning(end: int)
    ensures Legal(InitTuning, FullWindow(end, 2.83)) && Adjusted(InitTuning, FullWindow(end, 2.83)) == Tuning(8, 1, 99)
  {
    assert 2.83 * 2.83 == 8.0089;
    assert Queue(InitTuning, 1) == 8;
  }

  lemma SecondTuning(end: int)
    ensures var t, u := Tuning(8, 1, 99), FullWindow(end, 2.83); Legal(t, u) && Adjusted(t, u) == Tuning(16, 1, 98)
  {
    assert 2.83 * 2.83 == 8.0089;
    assert Queue(Tuning(8, 1, 99), 1) == 0;
    assert Truncate(16.49) == 16;
  }

  lemma ThirdTuning(end: int)
    ensures var t, u := Tuning(16, 1, 98), FullWindow(end, 4.0); Legal(t, u) && Adjusted(t, u) == Tuning(28, 1, 97)
  {
    assert 4.0 * 4.0 == 16.0;
    assert Queue(Tuning(16, 1, 98), 1) == 0;
    assert Truncate(28.0) == 28;
  }

  /** The first window, undisturbed. */
  lemma FirstWindow(first: int, n: nat) returns (s: State)
    requires n >= 2 && first > 0
    ensures Reached(s, n) && Ready(s, {}, 0) && s.owner == -1
    ensures s.updateTime == first + MIN_WINDOW && s.tuning == Tuning(8, 1, 99)
    ensures |s.samples| == 2 && s.updates == [FullWindow(first, 2.83)]
  {
    var c;
    s := DrawTickets(7, n);
    s, c := FillWindow(s, {}, first, n);
    Lock(s, c, first, {c}, n);
    s := Locked(s, c, first);
    FirstTuning(first);
    Finish(s, c, 0, first, 2.83, {c}, n);
    s := Updated(s, c, 0, first, 2.83);
  }

  /** The second window is closed, but its time not stored yet. */
  lemma SecondWindow(first: int, n: nat) returns (s: State, b: nat)
    requires n >= 2 && first > 0
    ensures Reached(s, n) && Ready(s, {b}, 0)
    ensures s.updateTime == first + MIN_WINDOW && s.tuning == Tuning(8, 1, 99)
    ensures |s.samples| == 3 && s.samples[1] == Filled(16) && s.updates == [FullWindow(first, 2.83)]
    ensures b < |s.threads| && s.threads[b] == Caller(first + MIN_WINDOW + 1, Measure(1))
  {
    var second := first + MIN_WINDOW + 1;
    s := FirstWindow(first, n);
    s, b := FillWindow(s, {}, second, n);
    Lock(s, b, second, {b}, n);
    s := Locked(s, b, second);
  }

  function ThreeWindows(first: int): seq<Update> {
    var second := first + MIN_WINDOW + 1;
    [FullWindow(first, 2.83), FullWindow(second, 2.83), FullWindow(second, 4.0)]
  }

  /** Meanwhile sixteen callers fill the third; then both are brought to their end. */
  lemma TwoAtOnce(first: int, n: nat) returns (s: State)
    requires n >= 2 && first > 0
    ensures Reached(s, n) && s.updates == ThreeWindows(first)
  {
    var second := first + MIN_WINDOW + 1;
    var t, b, c;
    t, b := SecondWindow(first, n);
    s, c := FillWindow(t, {b}, second, n);
    var who := {b} + {c};
    assert s.threads[..|t.threads|][b] == Caller(second, Measure(1));
    SetPlusOne({b}, c);
    SecondTuning(second);
    Finish(s, b, 1, second, 2.83, who, n);
    s := Updated(s, b, 1, second, 2.83);
    Lock(s, c, second, who, n);
    s := Locked(s, c, second);
    ThirdTuning(second);
    Finish(s, c, 2, second, 4.0, who, n);
    s := Updated(s, c, 2, second, 4.0);
  }

  lemma ThirdTooEarly(first: int)
    ensures !Spaced(ThreeWindows(first))
  {
    var us := ThreeWindows(first);
    FirstTuning(us[0].end);
    SecondTuning(us[1].end);
    ThirdTuning(us[2].end);
    assert us[..1] == us[..1][..0] + [us[0]] && us[..2][..1] == us[..1] && us[..3][..2] == us[..2];
    assert Replay(us[..1]) == Tuning(8, 1, 99);
    assert Replay(us[..2]) == Tuning(16, 1, 98);
    assert Replay(us[..3]) == Tuning(28, 1, 97);
    assert Changes(us, 1) && Changes(us, 2);
  }

  /**
   Whenever the first window ends: changes of the limit are spaced in every run if and only if
   closures run one at a time. A closure
   that has replaced the sample but not yet stored the new time leaves the old time in force for
   the new sample, and the check is not repeated under the mutex.
   */
  lemma SpacedIffOneAtATime(n: nat, first: int)
    requires first > 0
    ensures AlwaysSpaced(n) <==> n <= 1
    ensures n >= 2 ==> exists s :: Reached(s, n) && s.updates == ThreeWindows(first) && !Spaced(s.updates)
  {
    if n <= 1 {
      forall states: seq<State>, acts: seq<Action> | IsRun(states, acts) && AtMost(states, n) ensures Spaced(states[|acts|].updates) {
        assert AtMost(states, 1);
        OneAtATimeLoads(states, acts);
        SpacedWithoutStaleLoads(states, acts);
      }
    } else {
      var s := TwoAtOnce(first, n);
      ThirdTooEarly(first);
      var states, acts :| EndsIn(states, acts, n, s);
      assert !AlwaysSpaced(n);
    }
  }

  // ----- the steps and the limiter object

  /** What the object's fields are in a state. */
  function View(s: State): Vegas
    requires s.samples != []
  {
    Vegas(s.tuning, s.inFlight, s.updateTime, s.samples[|s.samples| - 1])
  }

  /** Steps alone lead from one state to the other. */
  ghost predicate Leads(from: State, s: State) {
    exists states: seq<State>, acts: seq<Action> :: IsPath(from, states, acts) && states[|acts|] == s
  }

  lemma Grow(from: State, s: State, a: Action)
    requires Leads(from, s) && Enabled(s, a)
    ensures Leads(from, Next(s, a))
  {
    var states, acts :| IsPath(from, states, acts) && states[|acts|] == s;
    var more, longer := states + [Next(s, a)], acts + [a];
    assert IsPath(from, more, longer) && more[|longer|] == Next(s, a);
  }

  function ThreadOf(e: Done, pc: Pc): Thread {
    Thread(e.ticket, e.start, e.op, e.end, pc)
  }

  /** The state after the checks of an undisturbed closure. */
  function Checked(s: State, i: nat, e: Done): State
    requires s.samples != [] && i < |s.threads|
  {
    var w := |s.samples| - 1;
    var added := Add(s.samples[w], e.end - e.start, e.ticket, e.op.Drop?);
    s.(samples := s.samples[w := added],
       threads := s.threads[i := ThreadOf(e, if e.end > s.updateTime && added.count >= MIN_SAMPLES then WaitLock(w) else Finished)])
  }

  lemma UndisturbedCheck(from: State, s: State, i: nat, e: Done)
    requires Leads(from, s) && s.samples != [] && i < |s.threads| && s.threads[i] == ThreadOf(e, Fetch)
    ensures Leads(from, Checked(s, i, e))
  {
    var a := Advance(i, 0, 0.0);
    Grow(from, s, a);
    var s1 := Next(s, a);
    Grow(from, s1, a);
    var s2 := Next(s1, a);
    Grow(from, s2, a);
    var s3 := Next(s2, a);
    if s3.threads[i].pc.CheckCount? {
      Grow(from, s3, a);
      assert Next(s3, a) == Checked(s, i, e);
    } else {
      assert s3 == Checked(s, i, e);
    }
  }

  /** The part under the mutex, if the average is positive. */
  lemma UndisturbedUpdate(from: State, s: State, i: nat, w: nat, e: Done)
    requires Leads(from, s) && i < |s.threads| && w < |s.samples|
    requires s.threads[i] == ThreadOf(e, StoreTime(w, RTT(s.samples[w])))
    requires RootOf(e.root, s.tuning.limit) && e.rnd < 3 * s.tuning.limit
    ensures var u := UpdateFrom(s.samples[w], e);
            Leads(from, s.(updateTime := NextUpdateTime(e.end, u.lastRTT), tuning := Adjusted(s.tuning, u), owner := -1,
              threads := s.threads[i := ThreadOf(e, Finished)], updates := s.updates + [u], windows := s.windows + [w]))
  {
    var a := Advance(i, e.rnd, e.root);
    Grow(from, s, a);
    var s1 := Next(s, a);
    Grow(from, s1, a);
    var s2 := Next(s1, a);
    Grow(from, s2, a);
    var s3 := Next(s2, a);
    Grow(from, s3, a);
    var s4 := Next(s3, a);
    Grow(from, s4, a);
    assert Next(s4, a).threads == s.threads[i := ThreadOf(e, Finished)];
  }

  lemma UndisturbedClose(from: State, s: State, i: nat, e: Done) returns (t: State)
    requires Leads(from, s) && s.owner == -1 && s.samples != []
    requires i < |s.threads| && s.threads[i] == ThreadOf(e, WaitLock(|s.samples| - 1))
    requires RootOf(e.root, s.tuning.limit) && e.rnd < 3 * s.tuning.limit
    ensures Leads(from, t) && t.samples == s.samples + [Empty] && t.inFlight == s.inFlight && t.owner == -1
    ensures t.threads == s.threads[i := ThreadOf(e, Finished)]
    ensures var w := s.samples[|s.samples| - 1];
            if RTT(w) <= 0 then t.tuning == s.tuning && t.updateTime == s.updateTime
            else t.tuning == Adjusted(s.tuning, UpdateFrom(w, e)) && t.updateTime == NextUpdateTime(e.end, RTT(w))
  {
    var a, w := Advance(i, 0, 0.0), |s.samples| - 1;
    Grow(from, s, a);
    var s1 := Next(s, a);
    Grow(from, s1, a);
    t := Next(s1, a);
    if t.threads[i].pc.StoreTime? {
      UndisturbedUpdate(from, t, i, w, e);
      var u := UpdateFrom(t.samples[w], e);
      t := t.(updateTime := NextUpdateTime(e.end, u.lastRTT), tuning := Adjusted(t.tuning, u), owner := -1,
              threads := t.threads[i := ThreadOf(e, Finished)], updates := t.updates + [u], windows := t.windows + [w]);
    }
  }

  /** An undisturbed closure is `VegasLimiter.RunDone`. */
  lemma UndisturbedIsNext(s: State, i: nat, e: Done) returns (t: State)
    requires s.owner == -1 && s.samples != [] && i < |s.threads| && s.threads[i].ticket == e.ticket
    requires s.threads[i].pc.Held? && (s.threads[i].pc.granted || e.op.Ignore?)
    requires RootOf(e.root, s.tuning.limit) && e.rnd < 3 * s.tuning.limit
    ensures Leads(s, t) && t.samples != [] && View(t) == VegasWindows.Next(View(s), e)
    ensures t.owner == -1 && t.threads == s.threads[i := ThreadOf(e, Finished)]
  {
    var states: seq<State>, acts: seq<Action> := [s], [];
    assert IsPath(s, states, acts) && states[|acts|] == s;
    Grow(s, s, Begin(i, e.start, e.op, e.end));
    t := Next(s, Begin(i, e.start, e.op, e.end));
    if !e.op.Ignore? {
      UndisturbedCheck(s, t, i, e);
      t := Checked(t, i, e);
      if t.threads[i].pc.WaitLock? {
        t := UndisturbedClose(s, t, i, e);
      }
    }
  }
}
