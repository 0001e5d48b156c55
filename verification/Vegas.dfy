/**
 The adaptive limit of rate/Vegas.h on values: samples, the window times, the control law, and
 the history of the windows that moved the limit; and the limiter object whose done closure
 runs undisturbed. All interleavings of the closures are in `VegasRuns`. Doubles are real
 numbers; the square root comes with each update and may be off a little.
 */
module VegasWindows {
  import Endian

  const MIN_WINDOW: int := 500 * 1000 * 1000
  const MAX_WINDOW: int := 2000 * 1000 * 1000
  const MIN_LIMIT: int := 8
  const MAX_LIMIT: int := 4096
  const MIN_SAMPLES: int := 16

  datatype Op = Ignore | Success | Drop

  datatype Window = Window(count: nat, maxInFlight: int, drop: bool, total: int)

  const Empty := Window(0, 0, false, 0)

  /** Integer division as C++ does it. */
  function TruncDiv(a: int, b: int): int
    requires b > 0
  {
    if a >= 0 then a / b else -((-a) / b)
  }

  function Max(a: int, b: int): int { if a >= b then a else b }

  function Min(a: int, b: int): int { if a <= b then a else b }

  function Add(w: Window, rtt: int, inFlight: int, drop: bool): Window {
    Window(w.count + 1, Max(w.maxInFlight, inFlight), w.drop || drop, w.total + rtt)
  }

  /** Average round-trip time of a window. */
  function RTT(w: Window): int {
    if w.count == 0 then 0 else TruncDiv(w.total, w.count)
  }

  function NextUpdateTime(end: int, lastRTT: int): (t: int)
    ensures end + MIN_WINDOW <= t <= end + MAX_WINDOW
  {
    if lastRTT * 5 < MIN_WINDOW then end + MIN_WINDOW
    else if lastRTT * 5 > MAX_WINDOW then end + MAX_WINDOW
    else end + lastRTT * 5
  }

  /** Five averages, but at least half a second and at most two. */
  function Pause(lastRTT: int): (p: int)
    ensures MIN_WINDOW <= p <= MAX_WINDOW && (MIN_WINDOW <= 5 * lastRTT <= MAX_WINDOW ==> p == 5 * lastRTT)
  {
    Max(MIN_WINDOW, Min(MAX_WINDOW, 5 * lastRTT))
  }

  lemma WindowIsPause(end: int, lastRTT: int)
    ensures NextUpdateTime(end, lastRTT) == end + Pause(lastRTT)
  {
  }

  // ----- the control law

  /** What only the holder of the mutex changes. */
  datatype Tuning = Tuning(limit: int, minRTT: int, probes: int)

  const InitTuning := Tuning(MIN_LIMIT, 0, 100)

  /**
   What one closed window with a positive average brings: its end and average; the largest
   in-flight number as read for the probe; the drop flag and the largest in-flight number as read
   for the limit; the random offset of the next probe; and the square root of the limit.
   */
  datatype Update = Update(end: int, lastRTT: int, probeMax: int, drop: bool, maxInFlight: int, rnd: nat, root: real)

  /** A square root: its square is off by no more than a sixteenth. */
  predicate RootOf(root: real, limit: int) {
    root >= 0.0 && -0.0625 <= root * root - limit as real <= 0.0625
  }

  predicate Legal(t: Tuning, u: Update) {
    u.lastRTT > 0 && RootOf(u.root, t.limit) && u.rnd < 3 * t.limit
  }

  predicate Probes(t: Tuning, maxFlight: int) {
    t.probes - 1 <= 0 && (maxFlight * 2 < t.limit || maxFlight <= MIN_LIMIT)
  }

  function NextMinRTT(t: Tuning, maxFlight: int, lastRTT: int): int {
    if Probes(t, maxFlight) || t.minRTT == 0 || lastRTT < t.minRTT then lastRTT else t.minRTT
  }

  function NextProbes(t: Tuning, maxFlight: int, rnd: nat): int {
    if Probes(t, maxFlight) then 3 * t.limit + rnd else t.probes - 1
  }

  /** The target of the control law, or none when the limit is left alone. */
  datatype Target = Keep | Move(target: real)

  function Queue(t: Tuning, lastRTT: int): int {
    if lastRTT <= 0 then 0 else TruncDiv(t.limit * (lastRTT - t.minRTT), lastRTT)
  }

  function ControlLaw(limit: int, drop: bool, maxInFlight: int, queue: int, threshold: real): Target {
    if drop then Move(limit as real - threshold)
    else if maxInFlight * 2 < limit then Keep
    else if queue as real < threshold then Move(limit as real + 6.0 * threshold)
    else if queue as real < 2.0 * threshold then Move(limit as real + 3.0 * threshold)
    else if queue as real < 3.0 * threshold then Move(limit as real + threshold)
    else if queue as real > 6.0 * threshold then Move(limit as real - threshold)
    else Keep
  }

  /** Conversion of a double to int64_t: towards zero. */
  function Truncate(x: real): int {
    if x >= 0.0 then x.Floor else -((-x).Floor)
  }

  function Clamp(x: int): (y: int)
    ensures MIN_LIMIT <= y <= MAX_LIMIT
    ensures MIN_LIMIT <= x <= MAX_LIMIT ==> y == x
  {
    Max(MIN_LIMIT, Min(MAX_LIMIT, x))
  }

  function Retargeted(limit: int, drop: bool, maxInFlight: int, queue: int, threshold: real): int {
    match ControlLaw(limit, drop, maxInFlight, queue, threshold)
    case Keep => limit
    case Move(target) => Clamp(Truncate(target))
  }

  function NextLimit(t: Tuning, u: Update): int {
    Retargeted(t.limit, u.drop, u.maxInFlight, Queue(t, u.lastRTT), u.root / 2.0)
  }

  function Adjusted(t: Tuning, u: Update): Tuning {
    Tuning(NextLimit(t, u), NextMinRTT(t, u.probeMax, u.lastRTT), NextProbes(t, u.probeMax, u.rnd))
  }

  // ----- what the control law does

  /** Division that drops the fraction, described by multiplication. */
  predicate IsQuotient(a: int, b: int, q: int) {
    if a >= 0 then q * b <= a < (q + 1) * b else (q - 1) * b < a <= q * b
  }

  lemma QuotientsAgree(b: nat, q: int, r: int)
    requires q * b < r * b + b && r * b < q * b + b
    ensures q == r
  {
    var d := q - r;
    assert d * b == q * b - r * b;
    Endian.MultipleFar(d, b);
  }

  lemma TruncDivIs(a: int, b: int)
    requires b > 0
    ensures IsQuotient(a, b, TruncDiv(a, b))
  {
  }

  lemma QuotientIs(a: int, b: int, q: int)
    requires b > 0 && IsQuotient(a, b, q)
    ensures TruncDiv(a, b) == q
  {
    var r := TruncDiv(a, b);
    TruncDivIs(a, b);
    assert (q + 1) * b == q * b + b && (q - 1) * b == q * b - b;
    assert (r + 1) * b == r * b + b && (r - 1) * b == r * b - b;
    QuotientsAgree(b, q, r);
  }

  /** The whole number below `x`, or the end of the range that is nearer. */
  predicate Reaches(limit: int, x: real) {
    || x - 1.0 < limit as real <= x
    || (limit == MIN_LIMIT && x < MIN_LIMIT as real)
    || (limit == MAX_LIMIT && x > MAX_LIMIT as real)
  }

  lemma ClampReaches(x: real)
    ensures Reaches(Clamp(Truncate(x)), x)
  {
  }

  /**
   Where one update takes the limit. The queue is the part of the limit that the average exceeds
   the least round-trip time by, as a whole number; the bands are fractions of the limit's root.
   */
  predicate LimitMoves(limit: int, drop: bool, maxInFlight: int, queue: int, root: real, after: int) {
    var q := queue as real;
    if drop then Reaches(after, limit as real - root / 2.0)
    else if 2 * maxInFlight < limit then after == limit
    else if q < root / 2.0 then Reaches(after, limit as real + 3.0 * root)
    else if q < root then Reaches(after, limit as real + 1.5 * root)
    else if q < 1.5 * root then Reaches(after, limit as real + root / 2.0)
    else if q > 3.0 * root then Reaches(after, limit as real - root / 2.0)
    else after == limit
  }

  lemma RetargetMoves(limit: int, drop: bool, maxInFlight: int, queue: int, root: real)
    ensures LimitMoves(limit, drop, maxInFlight, queue, root, Retargeted(limit, drop, maxInFlight, queue, root / 2.0))
  {
    match ControlLaw(limit, drop, maxInFlight, queue, root / 2.0)
    case Keep =>
    case Move(target) => ClampReaches(target);
  }

  lemma UpdateMovesLimit(t: Tuning, u: Update, queue: int)
    requires Legal(t, u) && IsQuotient(t.limit * (u.lastRTT - t.minRTT), u.lastRTT, queue)
    ensures LimitMoves(t.limit, u.drop, u.maxInFlight, queue, u.root, Adjusted(t, u).limit)
  {
    QuotientIs(t.limit * (u.lastRTT - t.minRTT), u.lastRTT, queue);
    RetargetMoves(t.limit, u.drop, u.maxInFlight, queue, u.root);
  }

  lemma ReachesAway(limit: int, after: int, step: real)
    requires MIN_LIMIT <= limit <= MAX_LIMIT && step > 1.0
    ensures Reaches(after, limit as real + step) ==> after > limit || after == MAX_LIMIT
    ensures Reaches(after, limit as real - step) ==> after < limit || after == MIN_LIMIT
  {
  }

  lemma RootAboveTwo(root: real, limit: int)
    requires RootOf(root, limit) && limit >= MIN_LIMIT
    ensures root > 2.0
  {
    if root <= 2.0 {
      SquareMonotone(root, 2.0);
    }
  }

  lemma BandsDecide(limit: int, maxInFlight: int, queue: int, root: real, after: int)
    requires LimitMoves(limit, false, maxInFlight, queue, root, after)
    requires MIN_LIMIT <= limit <= MAX_LIMIT && root > 2.0 && 2 * maxInFlight >= limit
    ensures queue as real > 3.0 * root ==> after < limit || after == MIN_LIMIT
    ensures queue as real < 1.5 * root ==> after > limit || after == MAX_LIMIT
    ensures 1.5 * root <= queue as real <= 3.0 * root ==> after == limit
  {
    ReachesAway(limit, after, root / 2.0);
    ReachesAway(limit, after, 1.5 * root);
    ReachesAway(limit, after, 3.0 * root);
  }

  /**
   A full window without a drop: a queue above three roots lowers the limit, one below one and
   a half raises it, unless the end of the range is reached; in between the limit stays.
   */
  lemma QueueDecides(t: Tuning, u: Update, queue: int)
    requires Legal(t, u) && MIN_LIMIT <= t.limit <= MAX_LIMIT && !u.drop && 2 * u.maxInFlight >= t.limit
    requires IsQuotient(t.limit * (u.lastRTT - t.minRTT), u.lastRTT, queue)
    ensures var l := Adjusted(t, u).limit;
            && (queue as real > 3.0 * u.root ==> l < t.limit || l == MIN_LIMIT)
            && (queue as real < 1.5 * u.root ==> l > t.limit || l == MAX_LIMIT)
            && (1.5 * u.root <= queue as real <= 3.0 * u.root ==> l == t.limit)
  {
    UpdateMovesLimit(t, u, queue);
    RootAboveTwo(u.root, t.limit);
    BandsDecide(t.limit, u.maxInFlight, queue, u.root, Adjusted(t, u).limit);
  }

  /**
   The probe: after its countdown the first window with little traffic makes its own average the
   least and starts the countdown again; otherwise the least average only falls.
   */
  predicate ProbeMoves(t: Tuning, maxFlight: int, lastRTT: int, n: Tuning) {
    if t.probes <= 1 && (2 * maxFlight < t.limit || maxFlight <= 8)
    then n.minRTT == lastRTT && 3 * t.limit <= n.probes < 6 * t.limit
    else n.probes == t.probes - 1 && IsMinimum(n.minRTT, [lastRTT] + if t.minRTT == 0 then [] else [t.minRTT])
  }

  lemma UpdateMovesProbe(t: Tuning, u: Update)
    requires Legal(t, u)
    ensures ProbeMoves(t, u.probeMax, u.lastRTT, Adjusted(t, u))
  {
    assert [u.lastRTT][0] == u.lastRTT && ([u.lastRTT] + [t.minRTT])[1] == t.minRTT && ([u.lastRTT] + [t.minRTT])[0] == u.lastRTT;
  }

  // ----- what a window holds

  /** One measurement: round-trip time, in-flight number, and whether the call was dropped. */
  datatype Measured = Measured(rtt: int, inFlight: int, drop: bool)

  function AddAll(ms: seq<Measured>): Window {
    if ms == [] then Empty
    else
      var m := ms[|ms| - 1];
      Add(AddAll(ms[..|ms| - 1]), m.rtt, m.inFlight, m.drop)
  }

  function TotalOf(ms: seq<Measured>): int {
    if ms == [] then 0 else TotalOf(ms[1..]) + ms[0].rtt
  }

  lemma {:induction false} TotalSnoc(ms: seq<Measured>, m: Measured)
    ensures TotalOf(ms + [m]) == TotalOf(ms) + m.rtt
  {
    if ms == [] {
      assert (ms + [m])[1..] == [];
    } else {
      assert (ms + [m])[1..] == ms[1..] + [m];
      TotalSnoc(ms[1..], m);
    }
  }

  /** The largest of 0 and all in-flight numbers. */
  ghost predicate IsLargest(max: int, ms: seq<Measured>) {
    && max >= 0 && (max == 0 || exists i :: 0 <= i < |ms| && ms[i].inFlight == max)
    && forall i :: 0 <= i < |ms| ==> ms[i].inFlight <= max
  }

  lemma LargestSnoc(max: int, ms: seq<Measured>, m: Measured)
    requires IsLargest(max, ms)
    ensures IsLargest(Max(max, m.inFlight), ms + [m])
  {
    var more := ms + [m];
    assert more[|ms|] == m;
    if max > 0 && max >= m.inFlight {
      var i :| 0 <= i < |ms| && ms[i].inFlight == max;
      assert more[i].inFlight == max;
    }
  }

  ghost predicate SomeDrop(ms: seq<Measured>) {
    exists i :: 0 <= i < |ms| && ms[i].drop
  }

  lemma DropSnoc(ms: seq<Measured>, m: Measured)
    ensures SomeDrop(ms + [m]) <==> SomeDrop(ms) || m.drop
  {
    var more := ms + [m];
    assert more[|ms|] == m;
    if SomeDrop(ms) {
      var i :| 0 <= i < |ms| && ms[i].drop;
      assert more[i].drop;
    }
  }

  /** A window counts and adds up its measurements, and keeps the largest in-flight number and whether one was dropped. */
  lemma {:induction false} WindowIsExact(ms: seq<Measured>)
    ensures var w := AddAll(ms);
            w.count == |ms| && w.total == TotalOf(ms) && IsLargest(w.maxInFlight, ms) && (w.drop <==> SomeDrop(ms))
  {
    if ms != [] {
      var n := |ms| - 1;
      WindowIsExact(ms[..n]);
      assert ms == ms[..n] + [ms[n]];
      TotalSnoc(ms[..n], ms[n]);
      LargestSnoc(AddAll(ms[..n]).maxInFlight, ms[..n], ms[n]);
      DropSnoc(ms[..n], ms[n]);
    }
  }

  /** Its average is the sum over the number, without the fraction. */
  lemma AverageIsExact(ms: seq<Measured>)
    ensures ms == [] ==> RTT(AddAll(ms)) == 0
    ensures ms != [] ==> IsQuotient(TotalOf(ms), |ms|, RTT(AddAll(ms)))
  {
    WindowIsExact(ms);
    if ms != [] {
      TruncDivIs(TotalOf(ms), |ms|);
    }
  }

  // ----- the object

  /** One closure: the in-flight number it was acquired with, its times and its verdict. */
  datatype Done = Done(ticket: int, start: int, op: Op, end: int, rnd: nat, root: real)

  datatype Vegas = Vegas(tuning: Tuning, inFlight: int, updateTime: int, sample: Window)

  /** An undisturbed done closure. */
  function Next(v: Vegas, e: Done): Vegas {
    var v1 := v.(inFlight := v.inFlight - 1);
    if e.op.Ignore? then v1
    else
      var w := Add(v.sample, e.end - e.start, e.ticket, e.op.Drop?);
      if !(e.end > v.updateTime && w.count >= MIN_SAMPLES) then v1.(sample := w)
      else if RTT(w) <= 0 then v1.(sample := Empty)
      else Closed(v1, UpdateFrom(w, e))
  }

  /** All readings of the window at once. */
  function UpdateFrom(w: Window, e: Done): Update {
    Update(e.end, RTT(w), w.maxInFlight, w.drop, w.maxInFlight, e.rnd, e.root)
  }

  function Closed(v: Vegas, u: Update): Vegas {
    Vegas(Adjusted(v.tuning, u), v.inFlight, NextUpdateTime(u.end, u.lastRTT), Empty)
  }

  lemma FullWindowCloses(v: Vegas, e: Done, w: Window)
    requires !e.op.Ignore? && e.end > v.updateTime && w == Add(v.sample, e.end - e.start, e.ticket, e.op.Drop?)
    requires w.count >= 16 && RTT(w) > 0
    ensures var u := UpdateFrom(w, e);
            && Next(v, e) == Vegas(Adjusted(v.tuning, u), v.inFlight - 1, e.end + Pause(RTT(w)), Empty)
            && u == Update(e.end, RTT(w), w.maxInFlight, w.drop, w.maxInFlight, e.rnd, e.root)
  {
    WindowIsPause(e.end, RTT(w));
  }

  /**
   What an undisturbed closure that fills a window does: the window, its own measurement included,
   decides limit, probe and the next time, and a new one begins.
   */
  lemma FullWindowDecides(v: Vegas, e: Done, w: Window, queue: int)
    requires !e.op.Ignore? && e.end > v.updateTime && w == Add(v.sample, e.end - e.start, e.ticket, e.op.Drop?)
    requires w.count >= 16 && RTT(w) > 0 && RootOf(e.root, v.tuning.limit) && e.rnd < 3 * v.tuning.limit
    requires IsQuotient(v.tuning.limit * (RTT(w) - v.tuning.minRTT), RTT(w), queue)
    ensures var n := Next(v, e);
            && LimitMoves(v.tuning.limit, w.drop, w.maxInFlight, queue, e.root, n.tuning.limit)
            && ProbeMoves(v.tuning, w.maxInFlight, RTT(w), n.tuning)
            && n.updateTime == e.end + Pause(RTT(w)) && n.sample == Empty && n.inFlight == v.inFlight - 1
  {
    FullWindowCloses(v, e, w);
    var u := Update(e.end, RTT(w), w.maxInFlight, w.drop, w.maxInFlight, e.rnd, e.root);
    UpdateMovesLimit(v.tuning, u, queue);
    UpdateMovesProbe(v.tuning, u);
  }

  class VegasLimiter {
    var limit: int
    var inFlight: int
    var updateTime: int
    var minRTT: int
    var sample: Window
    var probes: int

    function View(): Vegas
      reads this
    {
      Vegas(Tuning(limit, minRTT, probes), inFlight, updateTime, sample)
    }

    constructor ()
      ensures View() == Vegas(InitTuning, 0, 0, Empty)
    {
      limit, inFlight, updateTime, minRTT, sample, probes := MIN_LIMIT, 0, 0, 0, Empty, 100;
    }

    method Acquire() returns (ticket: int, success: bool)
      modifies this
      ensures View() == old(View()).(inFlight := old(inFlight) + 1)
      ensures ticket == inFlight && (success <==> ticket <= limit)
    {
      inFlight := inFlight + 1;
      ticket := inFlight;
      success := ticket <= limit;
    }

    method RunDone(e: Done)
      modifies this
      ensures View() == Next(old(View()), e)
    {
      inFlight := inFlight - 1;
      if e.op == Ignore {
        return;
      }
      var s := Add(sample, e.end - e.start, e.ticket, e.op == Drop);
      sample := s;
      if e.end > updateTime && s.count >= MIN_SAMPLES {
        sample := Empty;
        var lastRTT := RTT(s);
        if lastRTT <= 0 {
          return;
        }
        Close(UpdateFrom(s, e));
      }
    }

    method Close(u: Update)
      requires sample == Empty && u.lastRTT > 0
      modifies this
      ensures View() == Closed(old(View()), u)
    {
      ghost var t := Tuning(limit, minRTT, probes);
      updateTime := NextUpdateTime(u.end, u.lastRTT);
      var queue := TruncDiv(limit * (u.lastRTT - minRTT), u.lastRTT);
      assert queue == Queue(t, u.lastRTT);
      Probe(u.probeMax, u.lastRTT, u.rnd);
      Retarget(u.drop, u.maxInFlight, queue, u.root / 2.0);
    }

    /** The probe countdown and the smallest round-trip time. */
    method Probe(maxFlight: int, lastRTT: int, rnd: nat)
      modifies this`probes, this`minRTT
      ensures var t := old(Tuning(limit, minRTT, probes));
              minRTT == NextMinRTT(t, maxFlight, lastRTT) && probes == NextProbes(t, maxFlight, rnd)
    {
      probes := probes - 1;
      if probes <= 0 {
        if maxFlight * 2 < limit || maxFlight <= MIN_LIMIT {
          probes := 3 * limit + rnd;
          minRTT := lastRTT;
        }
      }
      if minRTT == 0 || lastRTT < minRTT {
        minRTT := lastRTT;
      }
    }

    method Retarget(drop: bool, maxInFlight: int, queue: int, threshold: real)
      modifies this`limit
      ensures limit == Retargeted(old(limit), drop, maxInFlight, queue, threshold)
    {
      var newLimit;
      if drop {
        newLimit := limit as real - threshold;
      } else if maxInFlight * 2 < limit {
        return;
      } else if queue as real < threshold {
        newLimit := limit as real + 6.0 * threshold;
      } else if queue as real < 2.0 * threshold {
        newLimit := limit as real + 3.0 * threshold;
      } else if queue as real < 3.0 * threshold {
        newLimit := limit as real + threshold;
      } else if queue as real > 6.0 * threshold {
        newLimit := limit as real - threshold;
      } else {
        return;
      }
      limit := Clamp(Truncate(newLimit));
    }
  }

  // ----- histories of updates

  /** The updates applied one after the other. */
  function Replay(us: seq<Update>): Tuning {
    if us == [] then InitTuning else Adjusted(Replay(us[..|us| - 1]), us[|us| - 1])
  }

  predicate LegalHistory(us: seq<Update>) {
    var n := |us| - 1;
    us == [] || (LegalHistory(us[..n]) && Legal(Replay(us[..n]), us[n]))
  }

  lemma LegalSnoc(us: seq<Update>, u: Update)
    requires LegalHistory(us) && Legal(Replay(us), u)
    ensures LegalHistory(us + [u]) && Replay(us + [u]) == Adjusted(Replay(us), u)
  {
    assert (us + [u])[..|us|] == us;
  }

  lemma {:induction false} ReplayInRange(us: seq<Update>)
    ensures MIN_LIMIT <= Replay(us).limit <= MAX_LIMIT
  {
    if us != [] {
      ReplayInRange(us[..|us| - 1]);
    }
  }

  // ----- minRTT

  /** Averages of the windows closed so far, since and including the last probe reset. */
  function Averages(us: seq<Update>): seq<int> {
    if us == [] then []
    else
      var u, front := us[|us| - 1], us[..|us| - 1];
      (if Probes(Replay(front), u.probeMax) then [] else Averages(front)) + [u.lastRTT]
  }

  predicate IsMinimum(m: int, xs: seq<int>) {
    m in xs && forall i :: 0 <= i < |xs| ==> m <= xs[i]
  }

  /** 0 before the first window, and then the least average since the last reset. */
  predicate TracksMinimum(m: int, xs: seq<int>) {
    if xs == [] then m == 0 else IsMinimum(m, xs) && m > 0
  }

  lemma MinimumSnoc(m: int, xs: seq<int>, x: int)
    requires TracksMinimum(m, xs) && x > 0
    ensures TracksMinimum(if m == 0 || x < m then x else m, xs + [x])
  {
    assert x == (xs + [x])[|xs|];
  }

  predicate PositiveAverages(us: seq<Update>) {
    forall i :: 0 <= i < |us| ==> us[i].lastRTT > 0
  }

  lemma {:induction false} LegalIsPositive(us: seq<Update>)
    requires LegalHistory(us)
    ensures PositiveAverages(us)
  {
    if us != [] {
      LegalIsPositive(us[..|us| - 1]);
    }
  }

  lemma {:induction false} ReplayTracksMinimum(us: seq<Update>)
    requires PositiveAverages(us)
    ensures TracksMinimum(Replay(us).minRTT, Averages(us))
  {
    if us != [] {
      var u, front := us[|us| - 1], us[..|us| - 1];
      ReplayTracksMinimum(front);
      MinimumSnoc(Replay(front).minRTT, Averages(front), u.lastRTT);
      MinimumSnoc(0, [], u.lastRTT);
    }
  }

  // ----- drops bring the limit down

  lemma SquareMonotone(a: real, b: real)
    requires 0.0 <= a <= b
    ensures a * a <= b * b
  {
    assert b * b - a * a == (b - a) * (b + a);
  }

  lemma PositiveProduct(a: real, b: real)
    requires a > 0.0 && b > 0.0
    ensures a * b > 0.0
  {
  }

  lemma SquareStrict(b: real, d: real)
    requires b >= 0.0 && d > 0.0
    ensures b * b < (b + d) * (b + d)
  {
    PositiveProduct(d, d);
    if b > 0.0 { PositiveProduct(b, d); }
    assert (b + d) * (b + d) == b * b + 2.0 * (b * d) + d * d;
  }

  lemma RootMonotone(a: real, b: real)
    requires a >= 0.0 && b >= 0.0 && a * a <= b * b
    ensures a <= b
  {
    if a > b {
      SquareStrict(b, a - b);
    }
  }

  lemma QuarterStep(r: real)
    ensures (r - 0.25) * (r - 0.25) == r * r - r / 2.0 + 0.0625
  {
  }

  lemma TruncatedBelow(x: real)
    ensures Clamp(Truncate(x)) == MIN_LIMIT || Clamp(Truncate(x)) as real <= x
  {
  }

  /** A window with a drop takes half the root off the limit, down to the minimum. */
  lemma DropSubtracts(t: Tuning, u: Update)
    requires Legal(t, u) && u.drop
    ensures var l := Adjusted(t, u).limit; l == MIN_LIMIT || l as real <= t.limit as real - u.root / 2.0
  {
    TruncatedBelow(t.limit as real - u.root / 2.0);
  }

  /** `x` is at least the root of the limit. */
  predicate Under(limit: int, x: real) {
    x >= 0.0 && limit as real <= x * x
  }

  predicate Below(limit: int, x: real) {
    limit == MIN_LIMIT || Under(limit, x)
  }

  lemma RootIsLarge(root: real, limit: int)
    requires RootOf(root, limit) && limit >= MIN_LIMIT
    ensures root > 0.25
  {
    if root <= 0.25 {
      SquareMonotone(root, 0.25);
    }
  }

  lemma HalfRootLess(root: real, limit: int, l: int)
    requires RootOf(root, limit) && l as real <= limit as real - root / 2.0
    ensures l as real <= (root - 0.25) * (root - 0.25)
  {
    QuarterStep(root);
  }

  lemma DropUnder(t: Tuning, u: Update)
    requires MIN_LIMIT <= t.limit && Legal(t, u) && u.drop
    ensures Below(Adjusted(t, u).limit, u.root - 0.25)
  {
    var l := Adjusted(t, u).limit;
    DropSubtracts(t, u);
    RootIsLarge(u.root, t.limit);
    if l != MIN_LIMIT {
      HalfRootLess(u.root, t.limit, l);
    }
  }

  /** A window with a drop lowers the square root of the limit by a quarter, or reaches the minimum. */
  lemma DropLowersRootByQuarter(t: Tuning, u: Update, after: real)
    requires MIN_LIMIT <= t.limit && Legal(t, u) && u.drop
    requires after >= 0.0 && after * after == Adjusted(t, u).limit as real
    ensures Adjusted(t, u).limit == MIN_LIMIT || after <= u.root - 0.25
  {
    DropUnder(t, u);
    if Adjusted(t, u).limit != MIN_LIMIT {
      RootMonotone(after, u.root - 0.25);
    }
  }

  lemma QuarterLess(limit: int, root: real, l: int, x: real)
    requires RootOf(root, limit) && limit >= MIN_LIMIT && Under(limit, x)
    requires l as real <= limit as real - root / 2.0
    ensures Under(l, x - 0.25)
  {
    RootIsLarge(root, limit);
    if root < x {
      HalfRootLess(root, limit, l);
      SquareMonotone(root - 0.25, x - 0.25);
    } else {
      QuarterStep(x);
      if x < 0.25 {
        SquareMonotone(x, 0.25);
      }
    }
  }

  lemma DropStep(t: Tuning, u: Update, x: real)
    requires MIN_LIMIT <= t.limit && Legal(t, u) && u.drop && Below(t.limit, x)
    ensures Below(Adjusted(t, u).limit, x - 0.25)
  {
    var l := Adjusted(t, u).limit;
    DropSubtracts(t, u);
    if l != MIN_LIMIT {
      QuarterLess(t.limit, u.root, l, x);
    }
  }

  predicate AllDrop(us: seq<Update>, i: nat) {
    forall k :: i <= k < |us| ==> us[k].drop
  }

  /** `n` quarters less. */
  function Lowered(root: real, n: nat): real {
    root - n as real * 0.25
  }

  lemma OneQuarterMore(root: real, n: nat)
    ensures Lowered(root, n + 1) == Lowered(root, n) - 0.25
  {
  }

  /** From one limit to the next, every bound on the root shrinks by a quarter. */
  ghost predicate Shrinks(before: int, after: int) {
    forall x: real {:trigger Below(before, x)} :: Below(before, x) ==> Below(after, x - 0.25)
  }

  ghost predicate AllShrink(limits: seq<int>) {
    var n := |limits| - 1;
    n <= 0 || (AllShrink(limits[..n]) && Shrinks(limits[n - 1], limits[n]))
  }

  lemma {:induction false} QuartersAddUp(limits: seq<int>, root: real)
    requires limits != [] && Below(limits[0], root) && AllShrink(limits)
    ensures Below(limits[|limits| - 1], Lowered(root, |limits| - 1))
    decreases |limits|
  {
    var n := |limits| - 1;
    if n > 0 {
      QuartersAddUp(limits[..n], root);
      OneQuarterMore(root, n - 1);
    }
  }

  lemma DropShrinks(t: Tuning, u: Update)
    requires MIN_LIMIT <= t.limit && Legal(t, u) && u.drop
    ensures Shrinks(t.limit, Adjusted(t, u).limit)
  {
    forall x: real | Below(t.limit, x) ensures Below(Adjusted(t, u).limit, x - 0.25) {
      DropStep(t, u, x);
    }
  }

  lemma ShrinkSnoc(limits: seq<int>, l: int)
    requires limits != [] && AllShrink(limits) && Shrinks(limits[|limits| - 1], l)
    ensures AllShrink(limits + [l])
  {
    assert (limits + [l])[..|limits|] == limits;
  }

  /** The limits in the course of a history, from its `i`th update on. */
  ghost predicate LimitsOf(us: seq<Update>, i: nat, limits: seq<int>) {
    && i <= |us| && |limits| == |us| - i + 1 && AllShrink(limits)
    && limits[0] == Replay(us[..i]).limit && limits[|limits| - 1] == Replay(us).limit
  }

  lemma OneMoreLimit(us: seq<Update>, i: nat, limits: seq<int>, u: Update)
    requires LimitsOf(us, i, limits) && Legal(Replay(us), u) && u.drop
    ensures LimitsOf(us + [u], i, limits + [Replay(us + [u]).limit])
  {
    assert (us + [u])[..i] == us[..i] && (us + [u])[..|us|] == us;
    ReplayInRange(us);
    DropShrinks(Replay(us), u);
    ShrinkSnoc(limits, Replay(us + [u]).limit);
  }

  lemma {:induction false} LimitsShrink(us: seq<Update>, i: nat) returns (limits: seq<int>)
    requires LegalHistory(us) && i <= |us| && AllDrop(us, i)
    ensures LimitsOf(us, i, limits)
    decreases |us|
  {
    if i == |us| {
      assert us[..i] == us;
      limits := [Replay(us).limit];
    } else {
      var n := |us| - 1;
      var some := LimitsShrink(us[..n], i);
      OneMoreLimit(us[..n], i, some, us[n]);
      assert us[..n] + [us[n]] == us;
      limits := some + [Replay(us).limit];
    }
  }

  /** A row of windows with drops: the quarters add up. */
  lemma DropsAccumulate(us: seq<Update>, i: nat, root: real)
    requires LegalHistory(us) && i <= |us| && AllDrop(us, i) && Under(Replay(us[..i]).limit, root)
    ensures Below(Replay(us).limit, Lowered(root, |us| - i))
  {
    var limits := LimitsShrink(us, i);
    QuartersAddUp(limits, root);
  }

  lemma NothingUnder(limit: int, x: real)
    requires Below(limit, x) && limit >= MIN_LIMIT && x <= 0.0
    ensures limit == MIN_LIMIT
  {
    assert x == 0.0 ==> x * x == 0.0;
  }

  lemma ReplayReachesMinimum(us: seq<Update>, i: nat, root: real)
    requires LegalHistory(us) && i <= |us| && AllDrop(us, i) && Under(Replay(us[..i]).limit, root)
    requires (|us| - i) as real >= 4.0 * root
    ensures Replay(us).limit == MIN_LIMIT
  {
    DropsAccumulate(us, i, root);
    ReplayInRange(us);
    NothingUnder(Replay(us).limit, Lowered(root, |us| - i));
  }
}
