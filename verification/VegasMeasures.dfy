/**
 No measurement is lost or counted twice in the runs of `VegasRuns`: whatever sample a closure
 has loaded, and whether or not that sample has been replaced meanwhile, its call is in exactly
 one of them.
 */
module VegasMeasures {
  import opened VegasWindows
  import V = VegasRuns

  /** The closure has added its measurement to a sample. */
  predicate HasAdded(th: V.Thread) {
    !th.op.Ignore? && (th.pc.Finished? || (V.HasSample(th.pc) && !th.pc.AddTo?))
  }

  /** Only closures that add change what has been added; only they change a sample. */
  lemma StepShape(s: V.State, a: V.Action)
    requires a.Advance? && V.Enabled(s, a) && !s.threads[a.i].op.Ignore?
    ensures var t, th := V.Next(s, a), s.threads[a.i];
            && t.threads == s.threads[a.i := t.threads[a.i]]
            && (th.pc.AddTo? ==>
                  && !HasAdded(th) && HasAdded(t.threads[a.i])
                  && t.samples == s.samples[th.pc.s := Add(s.samples[th.pc.s], th.end - th.start, th.ticket, th.op.Drop?)])
            && (!th.pc.AddTo? ==>
                  && HasAdded(t.threads[a.i]) == HasAdded(th)
                  && (t.samples == s.samples || t.samples == s.samples + [Empty]))
  {
  }

  /** Whoever is inside its closure was not told to ignore the call. */
  predicate NoneIgnored(threads: seq<V.Thread>) {
    forall i :: 0 <= i < |threads| ==> (V.InClosure(threads[i].pc) ==> !threads[i].op.Ignore?)
  }

  lemma NoneIgnoredKeeps(s: V.State, a: V.Action)
    requires NoneIgnored(s.threads) && V.Enabled(s, a)
    ensures NoneIgnored(V.Next(s, a).threads)
  {
  }

  lemma {:induction false} NoneIgnoredInRun(states: seq<V.State>, acts: seq<V.Action>, k: nat)
    requires V.IsRun(states, acts) && k < |states|
    ensures NoneIgnored(states[k].threads)
  {
    if k > 0 {
      NoneIgnoredInRun(states, acts, k - 1);
      assert V.IsStep(states[k - 1], acts[k - 1], states[k]);
      NoneIgnoredKeeps(states[k - 1], acts[k - 1]);
    }
  }

  // ----- which closure went into which sample

  function MeasureOf(th: V.Thread): Measured {
    Measured(th.end - th.start, th.ticket, th.op.Drop?)
  }

  predicate Known(list: seq<nat>, n: nat) {
    forall j :: 0 <= j < |list| ==> list[j] < n
  }

  function MeasuredBy(threads: seq<V.Thread>, list: seq<nat>): seq<Measured>
    requires Known(list, |threads|)
  {
    seq(|list|, j requires 0 <= j < |list| => MeasureOf(threads[list[j]]))
  }

  /** One sample: the measurements of these closures, each of which has this sample as its home, once. */
  ghost predicate Holds(threads: seq<V.Thread>, home: seq<int>, list: seq<nat>, w: int, sample: Window) {
    && |home| == |threads| && Known(list, |threads|) && sample == AddAll(MeasuredBy(threads, list))
    && forall i :: 0 <= i < |threads| ==> multiset(list)[i] == if HasAdded(threads[i]) && home[i] == w then 1 else 0
  }

  /** Every closure that has added has one of the samples as its home. */
  predicate Homes(threads: seq<V.Thread>, home: seq<int>, n: nat) {
    |home| == |threads| && forall i :: 0 <= i < |threads| ==> (HasAdded(threads[i]) ==> 0 <= home[i] < n)
  }

  ghost predicate Accounts(s: V.State, home: seq<int>, lists: seq<seq<nat>>) {
    && |lists| == |s.samples| && Homes(s.threads, home, |s.samples|)
    && forall w :: 0 <= w < |lists| ==> Holds(s.threads, home, lists[w], w, s.samples[w])
  }

  /** A closure that goes on keeps its measurement, and one that has not added is in no list. */
  lemma HoldsStill(threads: seq<V.Thread>, home: seq<int>, list: seq<nat>, w: int, sample: Window, i: nat, th: V.Thread)
    requires Holds(threads, home, list, w, sample) && i < |threads| && HasAdded(th) == HasAdded(threads[i])
    requires HasAdded(th) ==> MeasureOf(th) == MeasureOf(threads[i])
    ensures Holds(threads[i := th], home, list, w, sample)
  {
    var after := threads[i := th];
    forall j | 0 <= j < |list| ensures MeasureOf(after[list[j]]) == MeasureOf(threads[list[j]]) {
      assert list[j] in multiset(list);
    }
    assert MeasuredBy(after, list) == MeasuredBy(threads, list);
  }

  lemma HoldsNewThread(threads: seq<V.Thread>, home: seq<int>, list: seq<nat>, w: int, sample: Window, th: V.Thread)
    requires Holds(threads, home, list, w, sample) && !HasAdded(th)
    ensures Holds(threads + [th], home + [-1], list, w, sample)
  {
    assert MeasuredBy(threads + [th], list) == MeasuredBy(threads, list);
    assert |threads| !in list;
  }

  /** Elsewhere nothing changes when closure `i` adds. */
  lemma HoldsOther(threads: seq<V.Thread>, home: seq<int>, list: seq<nat>, w: int, sample: Window, i: nat, th: V.Thread, v: int)
    requires Holds(threads, home, list, w, sample) && i < |threads| && !HasAdded(threads[i]) && HasAdded(th) && v != w
    ensures Holds(threads[i := th], home[i := v], list, w, sample)
  {
    var after := threads[i := th];
    forall j | 0 <= j < |list| ensures after[list[j]] == threads[list[j]] {
      assert list[j] in multiset(list);
    }
    assert MeasuredBy(after, list) == MeasuredBy(threads, list);
  }

  lemma HoldsMore(threads: seq<V.Thread>, home: seq<int>, list: seq<nat>, w: int, sample: Window, i: nat, th: V.Thread)
    requires Holds(threads, home, list, w, sample) && i < |threads| && !HasAdded(threads[i]) && HasAdded(th)
    ensures var m := MeasureOf(th);
            Holds(threads[i := th], home[i := w], list + [i], w, Add(sample, m.rtt, m.inFlight, m.drop))
  {
    MeasuredMore(threads, home, list, w, sample, i, th);
    AddAllSnoc(MeasuredBy(threads, list), MeasureOf(th));
  }

  lemma MeasuredMore(threads: seq<V.Thread>, home: seq<int>, list: seq<nat>, w: int, sample: Window, i: nat, th: V.Thread)
    requires Holds(threads, home, list, w, sample) && i < |threads| && !HasAdded(threads[i])
    ensures Known(list + [i], |threads|) && MeasuredBy(threads[i := th], list + [i]) == MeasuredBy(threads, list) + [MeasureOf(th)]
  {
    var after := threads[i := th];
    forall j | 0 <= j < |list| ensures after[list[j]] == threads[list[j]] {
      assert list[j] in multiset(list);
    }
  }

  lemma AddAllSnoc(ms: seq<Measured>, m: Measured)
    ensures AddAll(ms + [m]) == Add(AddAll(ms), m.rtt, m.inFlight, m.drop)
  {
    assert (ms + [m])[..|ms|] == ms;
  }

  lemma HoldsNothing(threads: seq<V.Thread>, home: seq<int>, n: nat)
    requires Homes(threads, home, n)
    ensures Holds(threads, home, [], n, Empty)
  {
  }

  /** A step of a closure other than adding. */
  lemma OtherAccounts(s: V.State, a: V.Action, home: seq<int>, lists: seq<seq<nat>>) returns (more: seq<seq<nat>>)
    requires Accounts(s, home, lists) && NoneIgnored(s.threads) && a.Advance? && V.Enabled(s, a) && !s.threads[a.i].pc.AddTo?
    ensures Accounts(V.Next(s, a), home, more)
  {
    var t, th := V.Next(s, a), s.threads[a.i];
    StepShape(s, a);
    MeasureStays(s, a);
    forall w | 0 <= w < |lists| ensures Holds(t.threads, home, lists[w], w, s.samples[w]) {
      HoldsStill(s.threads, home, lists[w], w, s.samples[w], a.i, t.threads[a.i]);
    }
    more := lists;
    if t.samples != s.samples {
      more := lists + [[]];
      HoldsNothing(t.threads, home, |lists|);
    }
  }

  lemma MeasureStays(s: V.State, a: V.Action)
    requires a.Advance? && V.Enabled(s, a)
    ensures MeasureOf(V.Next(s, a).threads[a.i]) == MeasureOf(s.threads[a.i])
  {
  }

  lemma AddAccounts(s: V.State, a: V.Action, home: seq<int>, lists: seq<seq<nat>>) returns (home': seq<int>, lists': seq<seq<nat>>)
    requires Accounts(s, home, lists) && NoneIgnored(s.threads) && a.Advance? && V.Enabled(s, a) && s.threads[a.i].pc.AddTo?
    ensures Accounts(V.Next(s, a), home', lists')
  {
    var t, th, v := V.Next(s, a), s.threads[a.i], s.threads[a.i].pc.s;
    StepShape(s, a);
    MeasureStays(s, a);
    home', lists' := home[a.i := v], lists[v := lists[v] + [a.i]];
    forall w | 0 <= w < |lists'| ensures Holds(t.threads, home', lists'[w], w, t.samples[w]) {
      if w == v {
        HoldsMore(s.threads, home, lists[w], w, s.samples[w], a.i, t.threads[a.i]);
      } else {
        HoldsOther(s.threads, home, lists[w], w, s.samples[w], a.i, t.threads[a.i], v);
      }
    }
  }

  lemma CallAccounts(s: V.State, a: V.Action, home: seq<int>, lists: seq<seq<nat>>) returns (home': seq<int>)
    requires Accounts(s, home, lists) && !a.Advance? && V.Enabled(s, a)
    ensures Accounts(V.Next(s, a), home', lists)
  {
    var t := V.Next(s, a);
    home' := if a.Increment? then home + [-1] else home;
    forall w | 0 <= w < |lists| ensures Holds(t.threads, home', lists[w], w, t.samples[w]) {
      if a.Increment? {
        HoldsNewThread(s.threads, home, lists[w], w, s.samples[w], t.threads[|s.threads|]);
      } else {
        HoldsStill(s.threads, home, lists[w], w, s.samples[w], a.i, t.threads[a.i]);
      }
    }
  }

  /**
   In every interleaving every sample ever made is exactly the window of the measurements of some
   closures, with their round-trip times, tickets and drops; and every closure that has added is
   in the list of one sample, once.
   */
  lemma {:induction false} SamplesAreExact(states: seq<V.State>, acts: seq<V.Action>, k: nat) returns (home: seq<int>, lists: seq<seq<nat>>)
    requires V.IsRun(states, acts) && k < |states|
    ensures Accounts(states[k], home, lists)
  {
    if k == 0 {
      home, lists := [], [[]];
      HoldsNothing([], [], 0);
    } else {
      var s, a := states[k - 1], acts[k - 1];
      home, lists := SamplesAreExact(states, acts, k - 1);
      NoneIgnoredInRun(states, acts, k - 1);
      assert V.IsStep(s, a, states[k]);
      if !a.Advance? {
        home := CallAccounts(s, a, home, lists);
      } else if s.threads[a.i].pc.AddTo? {
        home, lists := AddAccounts(s, a, home, lists);
      } else {
        lists := OtherAccounts(s, a, home, lists);
      }
    }
  }
}
