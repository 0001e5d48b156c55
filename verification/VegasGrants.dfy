/**
 Admission in the runs of the whole limiter: seen from its counter, limit and callers, every run
 of `VegasRuns` is a run of the gate in `Limiters`, where the limits set are the ones the closures
 store.
 */
module VegasGrants {
  import opened VegasWindows
  import V = VegasRuns
  import L = Limiters

  predicate IsLive(th: V.Thread) { th.pc.Acquired? || th.pc.Held? }

  function TokenOf(th: V.Thread): L.Token {
    L.Token(th.ticket, if th.pc.Held? then (if th.pc.granted then L.Granted else L.Refused) else L.Pending)
  }

  /** The callers that have not run their closure yet. */
  function Live(threads: seq<V.Thread>): (live: seq<L.Token>)
    ensures |live| <= |threads|
  {
    if threads == [] then []
    else Live(threads[..|threads| - 1]) + LiveOne(threads[|threads| - 1])
  }

  function LiveOne(th: V.Thread): seq<L.Token> {
    if IsLive(th) then [TokenOf(th)] else []
  }

  /** The largest limit in the course of a history. */
  function Largest(us: seq<Update>): int {
    if us == [] then MIN_LIMIT else Max(Largest(us[..|us| - 1]), Replay(us).limit)
  }

  /** The limits the updates set. */
  function LimitsOf(us: seq<Update>): seq<int> {
    if us == [] then [] else LimitsOf(us[..|us| - 1]) + [Replay(us).limit]
  }

  function GateOf(s: V.State): L.Gate {
    var live := Live(s.threads);
    L.Gate(s.tuning.limit, s.inFlight, live, |s.threads|, |s.threads| - |live|, Largest(s.updates))
  }

  lemma Assoc<T>(a: seq<T>, b: seq<T>, c: seq<T>)
    ensures a + (b + c) == (a + b) + c
  {
  }

  lemma LiveSnoc(threads: seq<V.Thread>, th: V.Thread)
    ensures Live(threads + [th]) == Live(threads) + LiveOne(th)
  {
    assert (threads + [th])[..|threads|] == threads;
  }

  lemma {:induction false} LiveConcat(a: seq<V.Thread>, b: seq<V.Thread>)
    ensures Live(a + b) == Live(a) + Live(b)
    decreases |b|
  {
    if b == [] {
      assert a + b == a;
    } else {
      var n := |b| - 1;
      LiveConcat(a, b[..n]);
      LiveSnoc(a + b[..n], b[n]);
      Assoc(a, b[..n], [b[n]]);
      assert b == b[..n] + [b[n]];
      Assoc(Live(a), Live(b[..n]), LiveOne(b[n]));
    }
  }

  lemma LiveThree(a: seq<V.Thread>, th: V.Thread, b: seq<V.Thread>)
    ensures Live(a + [th] + b) == Live(a) + LiveOne(th) + Live(b)
  {
    LiveConcat(a + [th], b);
    LiveSnoc(a, th);
  }

  lemma SplitAt<T>(s: seq<T>, i: nat, x: T)
    requires i < |s|
    ensures s == s[..i] + [s[i]] + s[i + 1..] && s[i := x] == s[..i] + [x] + s[i + 1..]
  {
  }

  /** The position of a caller among the live ones. */
  function Position(threads: seq<V.Thread>, i: nat): nat
    requires i < |threads|
  {
    |Live(threads[..i])|
  }

  lemma ReplaceMiddle<T>(a: seq<T>, x: T, y: T, b: seq<T>)
    ensures (a + [x] + b)[|a|] == x && (a + [x] + b)[|a| := y] == a + [y] + b
  {
  }

  lemma RemoveMiddle<T>(a: seq<T>, x: T, b: seq<T>)
    ensures var s := a + [x] + b; s[|a|] == x && s[..|a|] + s[|a| + 1..] == a + [] + b
  {
    var s := a + [x] + b;
    assert s[..|a|] == a && s[|a| + 1..] == b;
  }

  /** A caller that stays live changes in its place, one that stops being live leaves it, another changes nothing. */
  lemma LiveMoves(threads: seq<V.Thread>, i: nat, th: V.Thread)
    requires i < |threads|
    ensures var live, more, p := Live(threads), Live(threads[i := th]), Position(threads, i);
            if IsLive(threads[i]) then
              && p < |live| && live[p] == TokenOf(threads[i])
              && more == if IsLive(th) then live[p := TokenOf(th)] else live[..p] + live[p + 1..]
            else !IsLive(th) ==> more == live
  {
    SplitAt(threads, i, th);
    LiveThree(threads[..i], threads[i], threads[i + 1..]);
    LiveThree(threads[..i], th, threads[i + 1..]);
    var before, after := Live(threads[..i]), Live(threads[i + 1..]);
    ReplaceMiddle(before, TokenOf(threads[i]), TokenOf(th), after);
    RemoveMiddle(before, TokenOf(threads[i]), after);
  }

  /** A run of the gate leads to what the gate of this state is, with the limits set so far. */
  ghost predicate Refines(s: V.State) {
    L.Reached(GateOf(s), LimitsOf(s.updates))
  }

  lemma Extend(s: V.State, a: L.Action, t: V.State)
    requires Refines(s) && L.Enabled(GateOf(s), a) && GateOf(t) == L.Next(GateOf(s), a)
    requires LimitsOf(t.updates) == LimitsOf(s.updates) + if a.SetLimit? then [a.limit] else []
    ensures Refines(t)
  {
    L.Extend(GateOf(s), LimitsOf(s.updates), a);
  }

  lemma IncrementRefines(s: V.State)
    requires Refines(s)
    ensures Refines(V.Next(s, V.Increment))
  {
    var t := V.Next(s, V.Increment);
    assert t.threads[..|s.threads|] == s.threads;
    Extend(s, L.Increment, t);
  }

  lemma LoadRefines(s: V.State, i: nat)
    requires Refines(s) && V.Enabled(s, V.LoadLimit(i))
    ensures Refines(V.Next(s, V.LoadLimit(i)))
  {
    var t := V.Next(s, V.LoadLimit(i));
    var p := Position(s.threads, i);
    assert p < |GateOf(s).live| && GateOf(s).live[p] == L.Token(s.threads[i].ticket, L.Pending) && GateOf(t).live == GateOf(s).live[p := TokenOf(t.threads[i])] by {
      LiveMoves(s.threads, i, t.threads[i]);
    }
    Extend(s, L.LoadLimit(p), t);
  }

  lemma BeginLeaves(s: V.State, a: V.Action)
    requires a.Begin? && V.Enabled(s, a)
    ensures var t, g, p := V.Next(s, a), GateOf(s), Position(s.threads, a.i);
            && p < |g.live| && !g.live[p].phase.Pending? && t.inFlight == s.inFlight - 1
            && Live(t.threads) == g.live[..p] + g.live[p + 1..] && |t.threads| == |s.threads|
  {
    LiveMoves(s.threads, a.i, V.Next(s, a).threads[a.i]);
  }

  lemma BeginRefines(s: V.State, a: V.Action)
    requires Refines(s) && a.Begin? && V.Enabled(s, a)
    ensures Refines(V.Next(s, a))
  {
    BeginLeaves(s, a);
    Extend(s, L.Release(Position(s.threads, a.i)), V.Next(s, a));
  }

  lemma ClosureMoves(s: V.State, a: V.Action)
    requires a.Advance? && V.Enabled(s, a)
    ensures var t := V.Next(s, a);
            && |t.threads| == |s.threads| && t.threads == s.threads[a.i := t.threads[a.i]]
            && !IsLive(t.threads[a.i]) && t.inFlight == s.inFlight
            && (!s.threads[a.i].pc.StoreLimit? ==> t.tuning.limit == s.tuning.limit && t.updates == s.updates)
  {
  }

  lemma ClosureStaysOut(s: V.State, a: V.Action)
    requires a.Advance? && V.Enabled(s, a)
    ensures Live(V.Next(s, a).threads) == Live(s.threads)
  {
    ClosureMoves(s, a);
    LiveMoves(s.threads, a.i, V.Next(s, a).threads[a.i]);
  }

  lemma LargestSnoc(us: seq<Update>, u: Update)
    ensures Largest(us + [u]) == Max(Largest(us), Replay(us + [u]).limit)
    ensures LimitsOf(us + [u]) == LimitsOf(us) + [Replay(us + [u]).limit]
  {
    assert (us + [u])[..|us|] == us;
  }

  lemma StoreSets(s: V.State, a: V.Action)
    requires V.Inv(s) && a.Advance? && V.Enabled(s, a) && s.threads[a.i].pc.StoreLimit?
    ensures var t := V.Next(s, a); var g := GateOf(s);
            && MIN_LIMIT <= t.tuning.limit <= MAX_LIMIT && LimitsOf(t.updates) == LimitsOf(s.updates) + [t.tuning.limit]
            && GateOf(t) == g.(limit := t.tuning.limit, largest := Max(g.largest, t.tuning.limit))
  {
    var t := V.Next(s, a);
    ClosureMoves(s, a);
    ClosureStaysOut(s, a);
    StoredLimit(s, a);
    LargestSnoc(s.updates, V.UpdateOf(s.threads[a.i], a.root));
    ReplayInRange(t.updates);
  }

  /** Inside a closure only the store of the limit concerns the gate. */
  lemma StoreRefines(s: V.State, a: V.Action)
    requires Refines(s) && V.Inv(s) && a.Advance? && V.Enabled(s, a) && s.threads[a.i].pc.StoreLimit?
    ensures Refines(V.Next(s, a))
  {
    var t := V.Next(s, a);
    StoreSets(s, a);
    Extend(s, L.SetLimit(t.tuning.limit), t);
  }

  lemma StoredLimit(s: V.State, a: V.Action)
    requires V.Inv(s) && a.Advance? && V.Enabled(s, a) && s.threads[a.i].pc.StoreLimit?
    ensures var t := V.Next(s, a); t.tuning == Replay(t.updates)
  {
    V.StepKeeps(s, a);
    V.OwnerIsHolder(s, a);
  }

  lemma StepRefines(s: V.State, a: V.Action)
    requires Refines(s) && V.Inv(s) && V.Enabled(s, a)
    ensures Refines(V.Next(s, a))
  {
    match a
    case Increment => IncrementRefines(s);
    case LoadLimit(i) => LoadRefines(s, i);
    case Begin(_, _, _, _) => BeginRefines(s, a);
    case Advance(i, _, _) =>
      ClosureMoves(s, a);
      if s.threads[i].pc.StoreLimit? { StoreRefines(s, a); } else { ClosureStaysOut(s, a); }
  }

  /** Every run of the limiter is a run of the gate, which sets the limits the closures store. */
  lemma {:induction false} RunRefinesGate(states: seq<V.State>, acts: seq<V.Action>, k: nat)
    requires V.IsRun(states, acts) && k < |states|
    ensures Refines(states[k])
  {
    if k == 0 {
      L.AtStart();
    } else {
      var s, a := states[k - 1], acts[k - 1];
      RunRefinesGate(states, acts, k - 1);
      assert V.Inv(s) by { V.RunKeeps(states, acts, k - 1); }
      assert V.IsStep(s, a, states[k]);
      StepRefines(s, a);
    }
  }

  /**
   In every interleaving of callers and closures, with the limits the closures store: the counter is
   the number of callers that have not run their closure, and of these no more are granted than the
   largest limit any update has set.
   */
  lemma GrantsAreBounded(states: seq<V.State>, acts: seq<V.Action>, k: nat)
    requires V.IsRun(states, acts) && k < |states|
    ensures var s := states[k]; var live := Live(s.threads);
            s.inFlight == |live| && L.GrantedCount(live, |live|) <= Largest(s.updates) <= MAX_LIMIT
  {
    RunRefinesGate(states, acts, k);
    L.ReachedKeeps(GateOf(states[k]), LimitsOf(states[k].updates));
  }

  lemma {:induction false} LimitsInRange(us: seq<Update>)
    ensures L.InRange(LimitsOf(us))
  {
    if us != [] {
      LimitsInRange(us[..|us| - 1]);
      ReplayInRange(us);
    }
  }

  /** As long as no update has lowered the limit, the limit in force bounds the grants. */
  lemma GrantsWithinLimit(states: seq<V.State>, acts: seq<V.Action>, k: nat)
    requires V.IsRun(states, acts) && k < |states|
    requires L.NonDecreasing([MIN_LIMIT] + LimitsOf(states[k].updates))
    ensures var s := states[k]; L.GrantedCount(Live(s.threads), |Live(s.threads)|) <= s.tuning.limit
  {
    var g, ls := GateOf(states[k]), LimitsOf(states[k].updates);
    RunRefinesGate(states, acts, k);
    LimitsInRange(states[k].updates);
    L.LimitBoundsIffNeverLowered(ls);
    var gates, steps :| L.IsRun(gates, steps) && L.Limits(steps) == ls && gates[|steps|] == g;
    assert L.Limits(steps) <= ls;
  }
}
