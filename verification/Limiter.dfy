/**
 Admission (rate/Limiter.h, the first half of Vegas::Acquire): a caller increments the shared
 counter, then loads the limit and compares. The machine interleaves these atomic steps with
 releases and with changes of the limit.
 */
module Limiters {
  import opened VegasWindows

  datatype Phase = Pending | Granted | Refused

  datatype Token = Token(ticket: int, phase: Phase)

  /** `live`: tokens acquired and not released, oldest first; `largest`: the largest limit so far. */
  datatype Gate = Gate(limit: int, inFlight: int, live: seq<Token>, acquired: nat, released: nat, largest: int)

  const Open := Gate(MIN_LIMIT, 0, [], 0, 0, MIN_LIMIT)

  datatype Action = Increment | LoadLimit(i: nat) | Release(i: nat) | SetLimit(limit: int)

  predicate Enabled(g: Gate, a: Action) {
    match a
    case Increment => true
    case LoadLimit(i) => i < |g.live| && g.live[i].phase.Pending?
    case Release(i) => i < |g.live| && !g.live[i].phase.Pending?
    case SetLimit(limit) => MIN_LIMIT <= limit <= MAX_LIMIT
  }

  function Next(g: Gate, a: Action): Gate
    requires Enabled(g, a)
  {
    match a
    case Increment =>
      g.(inFlight := g.inFlight + 1, live := g.live + [Token(g.inFlight + 1, Pending)], acquired := g.acquired + 1)
    case LoadLimit(i) =>
      g.(live := g.live[i := g.live[i].(phase := if g.live[i].ticket <= g.limit then Granted else Refused)])
    case Release(i) =>
      g.(inFlight := g.inFlight - 1, live := g.live[..i] + g.live[i + 1..], released := g.released + 1)
    case SetLimit(limit) => g.(limit := limit, largest := Max(g.largest, limit))
  }

  predicate IsStep(g: Gate, a: Action, h: Gate) {
    Enabled(g, a) && h == Next(g, a)
  }

  predicate IsRun(states: seq<Gate>, acts: seq<Action>) {
    && |states| == |acts| + 1 && states[0] == Open
    && forall i :: 0 <= i < |acts| ==> IsStep(states[i], acts[i], states[i + 1])
  }

  /** A token's ticket counts at least the tokens that were live before it and still are. */
  predicate Inv(g: Gate) {
    && g.inFlight == |g.live| == g.acquired - g.released
    && g.limit <= g.largest <= MAX_LIMIT && MIN_LIMIT <= g.largest
    && (forall k :: 0 <= k < |g.live| ==> g.live[k].ticket >= k + 1)
    && (forall k :: 0 <= k < |g.live| ==> (g.live[k].phase.Granted? ==> g.live[k].ticket <= g.largest))
  }

  function GrantedCount(live: seq<Token>, n: nat): (c: nat)
    requires n <= |live|
    ensures c <= n
  {
    if n == 0 then 0 else GrantedCount(live, n - 1) + if live[n - 1].phase.Granted? then 1 else 0
  }

  /** The youngest granted token saw all the others, so its ticket bounds their number. */
  lemma {:induction false} GrantedBound(live: seq<Token>, n: nat, bound: int)
    requires n <= |live| && bound >= 0
    requires forall k :: 0 <= k < |live| ==> live[k].ticket >= k + 1
    requires forall k :: 0 <= k < |live| ==> (live[k].phase.Granted? ==> live[k].ticket <= bound)
    ensures GrantedCount(live, n) <= bound
  {
    if n > 0 && !live[n - 1].phase.Granted? {
      GrantedBound(live, n - 1, bound);
    }
  }

  lemma StepKeeps(g: Gate, a: Action)
    requires Inv(g) && Enabled(g, a)
    ensures Inv(Next(g, a))
  {
  }

  lemma {:induction false} RunKeeps(states: seq<Gate>, acts: seq<Action>, i: nat)
    requires IsRun(states, acts) && i < |states|
    ensures forall j :: 0 <= j <= i ==> Inv(states[j])
  {
    if i > 0 {
      RunKeeps(states, acts, i - 1);
      assert IsStep(states[i - 1], acts[i - 1], states[i]);
      StepKeeps(states[i - 1], acts[i - 1]);
    }
  }

  /**
   Over all interleavings: the counter is the number of tokens acquired and not released, and
   the number granted at the same time never exceeds the largest limit that has been in force.
   */
  lemma GrantsAreBounded(states: seq<Gate>, acts: seq<Action>, i: nat)
    requires IsRun(states, acts) && i < |states|
    ensures var g := states[i];
            && g.inFlight == |g.live| == g.acquired - g.released
            && GrantedCount(g.live, |g.live|) <= g.largest <= MAX_LIMIT
  {
    assert Inv(states[i]) by { RunKeeps(states, acts, i); }
    GrantedBound(states[i].live, |states[i].live|, states[i].largest);
  }

  // ----- when the current limit bounds the grants

  /** The limits set in the course of a run. */
  function Limits(acts: seq<Action>): seq<int> {
    if acts == [] then []
    else Limits(acts[..|acts| - 1]) + if acts[|acts| - 1].SetLimit? then [acts[|acts| - 1].limit] else []
  }

  lemma LimitsSnoc(acts: seq<Action>, a: Action)
    ensures Limits(acts + [a]) == Limits(acts) + if a.SetLimit? then [a.limit] else []
  {
    assert (acts + [a])[..|acts|] == acts;
  }

  /** Some run in which these limits are set ends in this state. */
  ghost predicate Reached(g: Gate, ls: seq<int>) {
    exists states: seq<Gate>, acts: seq<Action> :: IsRun(states, acts) && Limits(acts) == ls && states[|acts|] == g
  }

  lemma Extend(g: Gate, ls: seq<int>, a: Action)
    requires Reached(g, ls) && Enabled(g, a)
    ensures Reached(Next(g, a), ls + if a.SetLimit? then [a.limit] else [])
  {
    var states, acts :| IsRun(states, acts) && Limits(acts) == ls && states[|acts|] == g;
    LimitsSnoc(acts, a);
    var more, longer := states + [Next(g, a)], acts + [a];
    assert IsRun(more, longer) && more[|longer|] == Next(g, a);
  }

  lemma AtStart()
    ensures Reached(Open, [])
  {
    var states: seq<Gate>, acts: seq<Action> := [Open], [];
    assert IsRun(states, acts) && Limits(acts) == [] && states[|acts|] == Open;
  }

  lemma ReachedKeeps(g: Gate, ls: seq<int>)
    requires Reached(g, ls)
    ensures g.inFlight == |g.live| && GrantedCount(g.live, |g.live|) <= g.largest <= MAX_LIMIT
  {
    var states, acts :| IsRun(states, acts) && Limits(acts) == ls && states[|acts|] == g;
    GrantsAreBounded(states, acts, |acts|);
  }

  predicate InRange(ls: seq<int>) {
    forall i :: 0 <= i < |ls| ==> MIN_LIMIT <= ls[i] <= MAX_LIMIT
  }

  /** The limit in force after these were set. */
  function Last(ls: seq<int>): int {
    if ls == [] then MIN_LIMIT else ls[|ls| - 1]
  }

  predicate NonDecreasing(ls: seq<int>) {
    forall i :: 0 < i < |ls| ==> ls[i - 1] <= ls[i]
  }

  lemma NonDecreasingSnoc(ls: seq<int>, x: int)
    requires ls != [] && NonDecreasing(ls + [x])
    ensures NonDecreasing(ls) && ls[|ls| - 1] <= x
  {
    var more := ls + [x];
    assert more[|ls| - 1] <= more[|ls|];
    forall i | 0 < i < |ls| ensures ls[i - 1] <= ls[i] {
      assert more[i - 1] <= more[i];
    }
  }

  /** No run with this schedule of limits, or the first of it, grants more than the limit in force. */
  ghost predicate LimitBounds(ls: seq<int>) {
    forall states: seq<Gate>, acts: seq<Action> :: IsRun(states, acts) && Limits(acts) <= ls ==>
      GrantedCount(states[|acts|].live, |states[|acts|].live|) <= states[|acts|].limit
  }

  /** The limit is the last one set; as long as it was never lowered, it is the largest so far. */
  predicate LastOf(ls: seq<int>, g: Gate) {
    ls != [] && g.limit == ls[|ls| - 1] && (NonDecreasing(ls) ==> g.largest == g.limit)
  }

  lemma LastOfNext(ls: seq<int>, g: Gate, a: Action)
    requires LastOf(ls, g) && Enabled(g, a)
    ensures LastOf(if a.SetLimit? then ls + [a.limit] else ls, Next(g, a))
  {
    if a.SetLimit? && NonDecreasing(ls + [a.limit]) {
      NonDecreasingSnoc(ls, a.limit);
    }
  }

  lemma {:induction false} LimitIsLast(states: seq<Gate>, acts: seq<Action>)
    requires IsRun(states, acts)
    ensures LastOf([MIN_LIMIT] + Limits(acts), states[|acts|])
    decreases |acts|
  {
    if acts != [] {
      var n := |acts| - 1;
      var before := [MIN_LIMIT] + Limits(acts[..n]);
      assert IsRun(states[..n + 1], acts[..n]);
      LimitIsLast(states[..n + 1], acts[..n]);
      assert IsStep(states[n], acts[n], states[n + 1]);
      LastOfNext(before, states[n], acts[n]);
      assert [MIN_LIMIT] + Limits(acts) == if acts[n].SetLimit? then before + [acts[n].limit] else before;
    }
  }

  function WithGrant(g: Gate): Gate {
    g.(inFlight := g.inFlight + 1, live := g.live + [Token(g.inFlight + 1, Granted)], acquired := g.acquired + 1)
  }

  lemma GrantOne(g: Gate, ls: seq<int>)
    requires Reached(g, ls) && g.inFlight < g.limit
    ensures Reached(WithGrant(g), ls)
  {
    var h, n := Next(g, Increment), |g.live|;
    assert ls + [] == ls;
    Extend(g, ls, Increment);
    Extend(h, ls, LoadLimit(n));
    assert h.live[n := Token(g.inFlight + 1, Granted)] == g.live + [Token(g.inFlight + 1, Granted)];
  }

  lemma CountSnoc(live: seq<Token>, token: Token)
    requires token.phase.Granted?
    ensures GrantedCount(live + [token], |live| + 1) == GrantedCount(live, |live|) + 1
  {
    SamePrefixCount(live, live + [token], |live|);
  }

  lemma {:induction false} GrantMany(g: Gate, ls: seq<int>, n: nat) returns (h: Gate)
    requires Reached(g, ls) && g.live == [] && n <= g.limit
    ensures Reached(h, ls) && h.limit == g.limit && |h.live| == n && GrantedCount(h.live, n) == n
  {
    if n == 0 {
      h := g;
    } else {
      h := GrantMany(g, ls, n - 1);
      ReachedKeeps(h, ls);
      GrantOne(h, ls);
      CountSnoc(h.live, Token(h.inFlight + 1, Granted));
      h := WithGrant(h);
    }
  }

  lemma {:induction false} SetMany(ls: seq<int>) returns (g: Gate)
    requires InRange(ls)
    ensures Reached(g, ls) && g.live == [] && g.limit == Last(ls)
  {
    if ls == [] {
      AtStart();
      g := Open;
    } else {
      var n := |ls| - 1;
      g := SetMany(ls[..n]);
      Extend(g, ls[..n], SetLimit(ls[n]));
      g := Next(g, SetLimit(ls[n]));
      assert ls == ls[..n] + [ls[n]];
    }
  }

  lemma GrantAll(ls: seq<int>) returns (g: Gate)
    requires InRange(ls)
    ensures Reached(g, ls) && GrantedCount(g.live, |g.live|) == Last(ls)
  {
    g := SetMany(ls);
    g := GrantMany(g, ls, Last(ls));
  }

  /** Grant as many as the limit allows, then lower it: grants are not revoked. */
  lemma LowerAfterGrants(ls: seq<int>, limit: int) returns (g: Gate)
    requires InRange(ls) && MIN_LIMIT <= limit < Last(ls)
    ensures Reached(g, ls + [limit]) && GrantedCount(g.live, |g.live|) > g.limit
  {
    g := GrantAll(ls);
    Extend(g, ls, SetLimit(limit));
    g := Next(g, SetLimit(limit));
  }

  /** A run for every schedule that lowers the limit somewhere. */
  lemma LoweredLimitIsNoBound(ls: seq<int>, n: nat) returns (g: Gate)
    requires InRange(ls) && n < |ls| && ls[n] < Last(ls[..n])
    ensures Reached(g, ls[..n + 1]) && GrantedCount(g.live, |g.live|) > g.limit
  {
    g := LowerAfterGrants(ls[..n], ls[n]);
    assert ls[..n] + [ls[n]] == ls[..n + 1];
  }

  /** Exactly which schedules of limits bound the grants at every moment: those that never lower the limit. */
  lemma LimitBoundsIffNeverLowered(ls: seq<int>)
    requires InRange(ls)
    ensures LimitBounds(ls) <==> NonDecreasing([MIN_LIMIT] + ls)
  {
    var all := [MIN_LIMIT] + ls;
    if NonDecreasing(all) {
      forall states: seq<Gate>, acts: seq<Action> | IsRun(states, acts) && Limits(acts) <= ls
        ensures GrantedCount(states[|acts|].live, |states[|acts|].live|) <= states[|acts|].limit
      {
        var some := [MIN_LIMIT] + Limits(acts);
        assert forall i :: 0 <= i < |some| ==> some[i] == all[i];
        LimitIsLast(states, acts);
        GrantsAreBounded(states, acts, |acts|);
      }
    } else {
      var i :| 0 < i < |all| && all[i - 1] > all[i];
      var g := LoweredLimitIsNoBound(ls, i - 1);
      var states, acts :| IsRun(states, acts) && Limits(acts) == ls[..i] && states[|acts|] == g;
      assert !LimitBounds(ls);
    }
  }

  lemma {:induction false} SamePrefixCount(a: seq<Token>, b: seq<Token>, n: nat)
    requires n <= |a| && n <= |b| && a[..n] == b[..n]
    ensures GrantedCount(a, n) == GrantedCount(b, n)
  {
    if n > 0 {
      assert a[..n - 1] == a[..n][..n - 1] && b[..n - 1] == b[..n][..n - 1];
      assert a[n - 1] == a[..n][n - 1] && b[n - 1] == b[..n][n - 1];
      SamePrefixCount(a, b, n - 1);
    }
  }

  /** What a granted caller gets: its own start time and the closure to run when it is done. */
  datatype Permit = Permit(ticket: int, start: int)

  /** Limiter::Allow, run without interference: a refused caller gives its token back at once. */
  method Allow(v: VegasLimiter, now: int) returns (permit: Permit, granted: bool)
    modifies v
    ensures granted <==> old(v.inFlight) + 1 <= old(v.limit)
    ensures granted ==> permit == Permit(v.inFlight, now) && v.View() == old(v.View()).(inFlight := old(v.inFlight) + 1)
    ensures !granted ==> v.View() == old(v.View())
  {
    var ticket;
    ticket, granted := v.Acquire();
    permit := Permit(ticket, now);
    if !granted {
      v.RunDone(Done(ticket, 0, Ignore, 0, 0, 0.0));
    }
  }

  /** The closure of a granted caller: the time it started with goes into the sample. */
  method Finish(v: VegasLimiter, permit: Permit, op: Op, end: int, rnd: nat, root: real)
    modifies v
    ensures v.View() == VegasWindows.Next(old(v.View()), Done(permit.ticket, permit.start, op, end, rnd, root))
  {
    v.RunDone(Done(permit.ticket, permit.start, op, end, rnd, root));
  }
}
