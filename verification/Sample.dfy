/**
 One window's sample (rate/Sample.h): a count, a sum, a drop flag, and a maximum kept with
 load and compare-exchange. The machine interleaves the atomic steps of any number of `Add`
 calls.
 */
module Samples {

  /** The next atomic operation of an `Add` call; `Compare` remembers the value it loaded. */
  datatype Pc = StoreDrop | Load | Compare(seen: int) | CountUp | AddTotal | Finished

  datatype Adding = Adding(rtt: int, inFlight: int, drop: bool, pc: Pc)

  datatype Sample = Sample(count: int, maxInFlight: int, drop: bool, total: int, adds: seq<Adding>)

  const Init := Sample(0, 0, false, 0, [])

  datatype Action = Call(rtt: int, inFlight: int, drop: bool) | Advance(i: nat)

  predicate Enabled(s: Sample, a: Action) {
    a.Advance? ==> a.i < |s.adds| && !s.adds[a.i].pc.Finished?
  }

  function Goto(s: Sample, i: nat, pc: Pc): Sample
    requires i < |s.adds|
  {
    s.(adds := s.adds[i := s.adds[i].(pc := pc)])
  }

  function Next(s: Sample, a: Action): Sample
    requires Enabled(s, a)
  {
    match a
    case Call(rtt, inFlight, drop) => s.(adds := s.adds + [Adding(rtt, inFlight, drop, StoreDrop)])
    case Advance(i) =>
      var me := s.adds[i];
      match me.pc
      case StoreDrop => Goto(s, i, Load).(drop := s.drop || me.drop)
      case Load => Goto(s, i, if s.maxInFlight < me.inFlight then Compare(s.maxInFlight) else CountUp)
      case Compare(seen) =>
        if s.maxInFlight == seen then Goto(s, i, CountUp).(maxInFlight := me.inFlight) else Goto(s, i, Load)
      case CountUp => Goto(s, i, AddTotal).(count := s.count + 1)
      case AddTotal => Goto(s, i, Finished).(total := s.total + me.rtt)
      case Finished => s
  }

  predicate IsStep(s: Sample, a: Action, t: Sample) {
    Enabled(s, a) && t == Next(s, a)
  }

  predicate IsRun(states: seq<Sample>, acts: seq<Action>) {
    && |states| == |acts| + 1 && states[0] == Init
    && forall i :: 0 <= i < |acts| ==> IsStep(states[i], acts[i], states[i + 1])
  }

  // ----- what every reachable state satisfies

  predicate PastMax(pc: Pc) { pc.CountUp? || pc.AddTotal? || pc.Finished? }

  function Sum(xs: seq<int>): int {
    if xs == [] then 0 else Sum(xs[..|xs| - 1]) + xs[|xs| - 1]
  }

  function Counted(adds: seq<Adding>): (r: seq<int>)
    ensures |r| == |adds|
  {
    seq(|adds|, i requires 0 <= i < |adds| => if adds[i].pc.AddTotal? || adds[i].pc.Finished? then 1 else 0)
  }

  function Totalled(adds: seq<Adding>): (r: seq<int>)
    ensures |r| == |adds|
  {
    seq(|adds|, i requires 0 <= i < |adds| => if adds[i].pc.Finished? then adds[i].rtt else 0)
  }

  /** The maximum is 0 or was offered; it covers every call that has left the loop, and what calls saw. */
  ghost predicate MaxOk(s: Sample) {
    && 0 <= s.maxInFlight
    && (s.maxInFlight == 0 || exists i :: 0 <= i < |s.adds| && s.adds[i].inFlight == s.maxInFlight)
    && forall i :: 0 <= i < |s.adds| ==>
         && (PastMax(s.adds[i].pc) ==> s.adds[i].inFlight <= s.maxInFlight)
         && (s.adds[i].pc.Compare? ==> s.adds[i].pc.seen < s.adds[i].inFlight && s.adds[i].pc.seen <= s.maxInFlight)
  }

  ghost predicate DropOk(s: Sample) {
    s.drop <==> exists i :: 0 <= i < |s.adds| && s.adds[i].drop && !s.adds[i].pc.StoreDrop?
  }

  ghost predicate Inv(s: Sample) {
    && MaxOk(s) && DropOk(s)
    && s.count == Sum(Counted(s.adds)) && s.total == Sum(Totalled(s.adds))
  }

  lemma {:induction false} SumUpdate(xs: seq<int>, i: nat, x: int)
    requires i < |xs|
    ensures Sum(xs[i := x]) == Sum(xs) - xs[i] + x
  {
    var last := |xs| - 1;
    if i == last {
      assert xs[i := x][..last] == xs[..last];
    } else {
      assert xs[i := x][..last] == xs[..last][i := x];
      SumUpdate(xs[..last], i, x);
    }
  }

  lemma CallKeeps(s: Sample, a: Action)
    requires Inv(s) && a.Call?
    ensures Inv(Next(s, a))
  {
    var t := Next(s, a);
    assert Counted(t.adds)[..|s.adds|] == Counted(s.adds);
    assert Totalled(t.adds)[..|s.adds|] == Totalled(s.adds);
    if s.maxInFlight != 0 {
      var i :| 0 <= i < |s.adds| && s.adds[i].inFlight == s.maxInFlight;
      assert t.adds[i].inFlight == t.maxInFlight;
    }
    forall i | 0 <= i < |s.adds| && s.adds[i].drop && !s.adds[i].pc.StoreDrop? ensures t.drop {
    }
    if s.drop {
      var i :| 0 <= i < |s.adds| && s.adds[i].drop && !s.adds[i].pc.StoreDrop?;
      assert t.adds[i].drop && !t.adds[i].pc.StoreDrop?;
    }
  }

  lemma CountedMoves(adds: seq<Adding>, i: nat, me: Adding)
    requires i < |adds|
    ensures Sum(Counted(adds[i := me])) == Sum(Counted(adds)) - Counted(adds)[i] + Counted([me])[0]
  {
    SumUpdate(Counted(adds), i, Counted([me])[0]);
    assert Counted(adds[i := me]) == Counted(adds)[i := Counted([me])[0]];
  }

  lemma TotalledMoves(adds: seq<Adding>, i: nat, me: Adding)
    requires i < |adds|
    ensures Sum(Totalled(adds[i := me])) == Sum(Totalled(adds)) - Totalled(adds)[i] + Totalled([me])[0]
  {
    SumUpdate(Totalled(adds), i, Totalled([me])[0]);
    assert Totalled(adds[i := me]) == Totalled(adds)[i := Totalled([me])[0]];
  }

  lemma AdvanceKeepsSums(s: Sample, a: Action)
    requires Inv(s) && a.Advance? && Enabled(s, a)
    ensures var t := Next(s, a); t.count == Sum(Counted(t.adds)) && t.total == Sum(Totalled(t.adds))
  {
    var t, i := Next(s, a), a.i;
    assert t.adds == s.adds[i := t.adds[i]];
    CountedMoves(s.adds, i, t.adds[i]);
    TotalledMoves(s.adds, i, t.adds[i]);
  }

  lemma AdvanceKeepsMax(s: Sample, a: Action)
    requires MaxOk(s) && a.Advance? && Enabled(s, a)
    ensures MaxOk(Next(s, a)) && s.maxInFlight <= Next(s, a).maxInFlight
  {
    var t := Next(s, a);
    if t.maxInFlight == s.maxInFlight != 0 {
      var i :| 0 <= i < |s.adds| && s.adds[i].inFlight == s.maxInFlight;
      assert t.adds[i].inFlight == t.maxInFlight;
    } else {
      assert t.adds[a.i].inFlight == s.adds[a.i].inFlight;
    }
  }

  lemma AdvanceKeepsDrop(s: Sample, a: Action)
    requires DropOk(s) && a.Advance? && Enabled(s, a)
    ensures DropOk(Next(s, a))
  {
    var t := Next(s, a);
    assert forall i :: 0 <= i < |s.adds| ==> t.adds[i].drop == s.adds[i].drop;
    assert forall i :: 0 <= i < |s.adds| && i != a.i ==> t.adds[i] == s.adds[i];
    assert !t.adds[a.i].pc.StoreDrop?;
    if s.drop {
      var i :| 0 <= i < |s.adds| && s.adds[i].drop && !s.adds[i].pc.StoreDrop?;
      assert t.adds[i].drop && !t.adds[i].pc.StoreDrop?;
    }
  }

  lemma StepKeeps(s: Sample, a: Action)
    requires Inv(s) && Enabled(s, a)
    ensures Inv(Next(s, a)) && s.maxInFlight <= Next(s, a).maxInFlight
  {
    if a.Call? {
      CallKeeps(s, a);
    } else {
      AdvanceKeepsSums(s, a);
      AdvanceKeepsMax(s, a);
      AdvanceKeepsDrop(s, a);
    }
  }

  lemma {:induction false} RunKeeps(states: seq<Sample>, acts: seq<Action>, i: nat)
    requires IsRun(states, acts) && i < |states|
    ensures forall j :: 0 <= j <= i ==> Inv(states[j])
  {
    if i > 0 {
      RunKeeps(states, acts, i - 1);
      assert IsStep(states[i - 1], acts[i - 1], states[i]);
      StepKeeps(states[i - 1], acts[i - 1]);
    }
  }

  /** The maximum never decreases in the course of a run. */
  lemma {:induction false} MaxNeverDecreases(states: seq<Sample>, acts: seq<Action>, i: nat, j: nat)
    requires IsRun(states, acts) && i <= j < |states|
    ensures states[i].maxInFlight <= states[j].maxInFlight
  {
    if i < j {
      MaxNeverDecreases(states, acts, i, j - 1);
      assert Inv(states[j - 1]) by { RunKeeps(states, acts, j - 1); }
      assert IsStep(states[j - 1], acts[j - 1], states[j]);
      StepKeeps(states[j - 1], acts[j - 1]);
    }
  }

  lemma {:induction false} SumOfOnes(xs: seq<int>)
    requires forall i :: 0 <= i < |xs| ==> xs[i] == 1
    ensures Sum(xs) == |xs|
  {
    if xs != [] {
      SumOfOnes(xs[..|xs| - 1]);
    }
  }

  function Rtts(adds: seq<Adding>): seq<int> {
    seq(|adds|, i requires 0 <= i < |adds| => adds[i].rtt)
  }

  /**
   Over all interleavings: the maximum never exceeds what was offered, and once every call has
   finished it is the maximum of 0 and all values offered, the count and the sum are exact, and
   the drop flag is set exactly if some call reported a drop.
   */
  lemma SampleIsExact(states: seq<Sample>, acts: seq<Action>, i: nat)
    requires IsRun(states, acts) && i < |states|
    ensures var s := states[i];
            && (s.maxInFlight == 0 || exists j :: 0 <= j < |s.adds| && s.adds[j].inFlight == s.maxInFlight)
            && ((forall j :: 0 <= j < |s.adds| ==> s.adds[j].pc.Finished?) ==>
                  && 0 <= s.maxInFlight
                  && (forall j :: 0 <= j < |s.adds| ==> s.adds[j].inFlight <= s.maxInFlight)
                  && s.count == |s.adds| && s.total == Sum(Rtts(s.adds))
                  && (s.drop <==> exists j :: 0 <= j < |s.adds| && s.adds[j].drop))
  {
    assert Inv(states[i]) by { RunKeeps(states, acts, i); }
    var s := states[i];
    if forall j :: 0 <= j < |s.adds| ==> s.adds[j].pc.Finished? {
      SumOfOnes(Counted(s.adds));
      assert Totalled(s.adds) == Rtts(s.adds);
      assert forall j :: 0 <= j < |s.adds| ==> PastMax(s.adds[j].pc);
    }
  }
}
