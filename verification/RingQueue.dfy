/**
 The log queue of spdlog: a ring over a fixed vector (details/circular_q.h) that overruns its
 oldest item when full, inside a monitor (details/mpmc_blocking_q.h) whose operations run one
 at a time under a mutex.
 */
module RingQueue {

  /** A bounded FIFO as a value: what the ring stands for. */
  datatype Fifo<T> = Fifo(cap: nat, items: seq<T>, overrun: nat)

  function Push<T>(q: Fifo<T>, item: T): Fifo<T> {
    if |q.items| < q.cap then q.(items := q.items + [item])
    else q.(items := (q.items + [item])[1..], overrun := q.overrun + 1)
  }

  /** The slots from `head` up to `tail`, going round the end of the vector. */
  function Window<T>(v: seq<T>, head: nat, tail: nat): seq<T>
    requires head < |v| && tail < |v|
  {
    if head <= tail then v[head..tail] else v[head..] + v[..tail]
  }

  function After(i: nat, n: nat): (j: nat)
    requires i < n
    ensures j < n
  {
    if i + 1 == n then 0 else i + 1
  }

  lemma AfterIsModulo(i: nat, n: nat)
    requires i < n
    ensures (i + 1) % n == After(i, n)
  {
    if i + 1 < n {
      SmallMod(i + 1, n);
    }
  }

  lemma SmallMod(a: nat, n: nat)
    requires a < n
    ensures a % n == a
  {
  }

  lemma WindowPush<T>(v: seq<T>, head: nat, tail: nat, item: T)
    requires head < |v| && tail < |v| && After(tail, |v|) != head
    ensures Window(v[tail := item], head, After(tail, |v|)) == Window(v, head, tail) + [item]
  {
  }

  lemma WindowOverrun<T>(v: seq<T>, head: nat, tail: nat, item: T)
    requires head < |v| && tail < |v| && After(tail, |v|) == head
    ensures Window(v[tail := item], After(head, |v|), head) == (Window(v, head, tail) + [item])[1..]
    ensures |Window(v, head, tail)| == |v| - 1
  {
  }

  lemma WindowPop<T>(v: seq<T>, head: nat, tail: nat)
    requires head < |v| && tail < |v| && head != tail
    ensures [v[head]] + Window(v, After(head, |v|), tail) == Window(v, head, tail)
  {
  }

  class CircularQ<T(0)> {
    const maxItems: nat
    var head: nat
    var tail: nat
    var v: array<T>
    var overrunCounter: nat

    ghost predicate Valid()
      reads this
    {
      0 < maxItems == v.Length && head < maxItems && tail < maxItems
    }

    ghost function Value(): Fifo<T>
      requires Valid()
      reads this, v
    {
      Fifo(maxItems - 1, Window(v[..], head, tail), overrunCounter)
    }

    /** One slot more than items: a free slot marks the queue as not overrun. */
    constructor (capacity: nat)
      ensures Valid() && fresh(v) && Value() == Fifo(capacity, [], 0)
    {
      maxItems := capacity + 1;
      v := new T[capacity + 1];
      head, tail, overrunCounter := 0, 0, 0;
    }

    method PushBack(item: T)
      requires Valid()
      modifies this, v
      ensures Valid() && v == old(v) && Value() == Push(old(Value()), item)
    {
      AfterIsModulo(tail, maxItems);
      AfterIsModulo(head, maxItems);
      ghost var before := v[..];
      if After(tail, maxItems) == head {
        WindowOverrun(before, head, tail, item);
      } else {
        WindowPush(before, head, tail, item);
      }
      v[tail] := item;
      assert v[..] == before[old(tail) := item];
      tail := (tail + 1) % maxItems;
      if tail == head {
        head := (head + 1) % maxItems;
        overrunCounter := overrunCounter + 1;
      }
    }

    method PopFront() returns (item: T)
      requires Valid() && Value().items != []
      modifies this
      ensures Valid() && v == old(v)
      ensures [item] + Value().items == old(Value()).items
      ensures Value().cap == old(Value()).cap && Value().overrun == old(Value()).overrun
    {
      AfterIsModulo(head, maxItems);
      WindowPop(v[..], head, tail);
      item := v[head];
      head := (head + 1) % maxItems;
    }

    method IsEmpty() returns (b: bool)
      requires Valid()
      ensures b <==> Value().items == []
    {
      b := tail == head;
    }

    method IsFull() returns (b: bool)
      requires Valid()
      ensures b <==> |Value().items| == Value().cap
    {
      AfterIsModulo(tail, maxItems);
      b := (tail + 1) % maxItems == head;
    }
  }

  // ----- the monitor

  /** How an item left the queue. */
  datatype Leaving<T> = Dequeued(item: T) | Overrun(item: T)

  /** The queue, all items ever entered, and all that have left, in order. */
  datatype Monitor<T> = Monitor(q: Fifo<T>, entered: seq<T>, left: seq<Leaving<T>>)

  datatype Action<T> = Enqueue(item: T) | EnqueueNoWait(item: T) | Dequeue | TimeOut

  /** The waiting operations hold their condition when they go on. */
  predicate Enabled<T>(m: Monitor<T>, a: Action<T>) {
    match a
    case Enqueue(_) => |m.q.items| != m.q.cap
    case EnqueueNoWait(_) => true
    case Dequeue => m.q.items != []
    case TimeOut => m.q.items == []
  }

  function Enter<T>(m: Monitor<T>, item: T): Monitor<T> {
    Monitor(Push(m.q, item), m.entered + [item],
            if |m.q.items| < m.q.cap then m.left else m.left + [Overrun((m.q.items + [item])[0])])
  }

  function Next<T>(m: Monitor<T>, a: Action<T>): Monitor<T>
    requires Enabled(m, a)
  {
    match a
    case Enqueue(item) => Enter(m, item)
    case EnqueueNoWait(item) => Enter(m, item)
    case Dequeue => m.(q := m.q.(items := m.q.items[1..]), left := m.left + [Dequeued(m.q.items[0])])
    case TimeOut => m
  }

  predicate IsStep<T(==)>(m: Monitor<T>, a: Action<T>, n: Monitor<T>) {
    Enabled(m, a) && n == Next(m, a)
  }

  predicate IsRun<T(==)>(cap: nat, states: seq<Monitor<T>>, acts: seq<Action<T>>) {
    && |states| == |acts| + 1 && states[0] == Monitor(Fifo(cap, [], 0), [], [])
    && forall i :: 0 <= i < |acts| ==> IsStep(states[i], acts[i], states[i + 1])
  }

  function Items<T>(ls: seq<Leaving<T>>): seq<T> {
    seq(|ls|, i requires 0 <= i < |ls| => ls[i].item)
  }

  /** What consumers received, in order. */
  function Received<T>(ls: seq<Leaving<T>>): seq<T> {
    if ls == [] then []
    else
      var l := ls[|ls| - 1];
      Received(ls[..|ls| - 1]) + if l.Dequeued? then [l.item] else []
  }

  predicate Inv<T(==)>(cap: nat, m: Monitor<T>) {
    && m.q.cap == cap && |m.q.items| <= cap
    && Items(m.left) + m.q.items == m.entered
    && |m.left| == |Received(m.left)| + m.q.overrun
  }

  lemma LeaveOne<T>(ls: seq<Leaving<T>>, l: Leaving<T>)
    ensures Items(ls + [l]) == Items(ls) + [l.item]
    ensures Received(ls + [l]) == Received(ls) + if l.Dequeued? then [l.item] else []
  {
    assert (ls + [l])[..|ls|] == ls;
  }

  lemma EnterKeeps<T>(cap: nat, m: Monitor<T>, item: T)
    requires Inv(cap, m)
    ensures Inv(cap, Enter(m, item))
  {
    var held := m.q.items + [item];
    assert Items(m.left) + held == m.entered + [item];
    if |m.q.items| == cap {
      LeaveOne(m.left, Overrun(held[0]));
      assert [held[0]] + held[1..] == held;
    }
  }

  lemma DequeueKeeps<T>(cap: nat, m: Monitor<T>)
    requires Inv(cap, m) && m.q.items != []
    ensures Inv(cap, Next(m, Dequeue))
  {
    LeaveOne(m.left, Dequeued(m.q.items[0]));
    assert [m.q.items[0]] + m.q.items[1..] == m.q.items;
  }

  lemma {:induction false} RunKeeps<T>(cap: nat, states: seq<Monitor<T>>, acts: seq<Action<T>>, i: nat)
    requires IsRun(cap, states, acts) && i < |states|
    ensures forall j :: 0 <= j <= i ==> Inv(cap, states[j])
  {
    if i > 0 {
      RunKeeps(cap, states, acts, i - 1);
      var m, a := states[i - 1], acts[i - 1];
      assert IsStep(m, a, states[i]);
      match a
      case Enqueue(item) => EnterKeeps(cap, m, item);
      case EnqueueNoWait(item) => EnterKeeps(cap, m, item);
      case Dequeue => DequeueKeeps(cap, m);
      case TimeOut =>
    }
  }

  /**
   In every interleaving: items leave in the order they entered, only the oldest being overrun;
   and entered = dequeued + held + overrun.
   */
  lemma FifoInEveryRun<T>(cap: nat, states: seq<Monitor<T>>, acts: seq<Action<T>>, i: nat)
    requires IsRun(cap, states, acts) && i < |states|
    ensures var m := states[i];
            && Items(m.left) + m.q.items == m.entered && |m.q.items| <= cap
            && |m.entered| == |Received(m.left)| + |m.q.items| + m.q.overrun
  {
    assert Inv(cap, states[i]) by { RunKeeps(cap, states, acts, i); }
  }

  lemma {:induction false} AllReceived<T>(ls: seq<Leaving<T>>)
    requires |Received(ls)| == |ls|
    ensures Received(ls) == Items(ls)
  {
    if ls != [] {
      var front := ls[..|ls| - 1];
      ReceivedAtMost(front);
      AllReceived(front);
    }
  }

  lemma {:induction false} ReceivedAtMost<T>(ls: seq<Leaving<T>>)
    ensures |Received(ls)| <= |ls|
  {
    if ls != [] {
      ReceivedAtMost(ls[..|ls| - 1]);
    }
  }

  lemma {:induction false} NoOverrun<T>(cap: nat, states: seq<Monitor<T>>, acts: seq<Action<T>>, i: nat)
    requires IsRun(cap, states, acts) && i < |states|
    requires forall j :: 0 <= j < i ==> !acts[j].EnqueueNoWait?
    ensures states[i].q.overrun == 0
  {
    if i > 0 {
      NoOverrun(cap, states, acts, i - 1);
      assert Inv(cap, states[i - 1]) by { RunKeeps(cap, states, acts, i - 1); }
      assert IsStep(states[i - 1], acts[i - 1], states[i]);
    }
  }

  /** Without enqueue_nowait nothing is lost: consumers have received exactly what is not held. */
  lemma BlockingLosesNothing<T>(cap: nat, states: seq<Monitor<T>>, acts: seq<Action<T>>, i: nat)
    requires IsRun(cap, states, acts) && i < |states|
    requires forall j :: 0 <= j < i ==> !acts[j].EnqueueNoWait?
    ensures states[i].q.overrun == 0
    ensures Received(states[i].left) + states[i].q.items == states[i].entered
  {
    assert Inv(cap, states[i]) by { RunKeeps(cap, states, acts, i); }
    NoOverrun(cap, states, acts, i);
    AllReceived(states[i].left);
  }
}
