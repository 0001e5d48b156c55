/**
 Session keys (logicserver/LogicServer.cc, generateKey): 42 bits of milliseconds, 10 bits of
 server id and 12 bits of sequence, as decimal text. The clock is a list of readings; a call
 that runs out of readings while waiting for the next millisecond is still spinning.
 */
module Snowflake {
  import opened Endian
  import opened Decimal

  const TWO42: int := 0x400_0000_0000
  const TWO22: int := 0x40_0000
  const TWO12: int := 0x1000
  const TWO10: int := 0x400

  /** The two static variables. */
  datatype Keys = Keys(last: nat, seqId: nat)

  datatype Result = Spinning | Made(keys: Keys, id: nat)

  // ----- the bits of an id

  /** `a | b` on numbers that are not negative. */
  function BitOr(a: nat, b: nat): (r: nat)
    ensures r == 0 <==> a == 0 && b == 0
    decreases a + b
  {
    if a == 0 && b == 0 then 0
    else 2 * BitOr(a / 2, b / 2) + if a % 2 == 1 || b % 2 == 1 then 1 else 0
  }

  /** `a & b` on numbers that are not negative. */
  function BitAnd(a: nat, b: nat): nat
    decreases a
  {
    if a == 0 then 0 else 2 * BitAnd(a / 2, b / 2) + if a % 2 == 1 && b % 2 == 1 then 1 else 0
  }

  function Pow2(n: nat): (p: nat)
    ensures p > 0
  {
    if n == 0 then 1 else 2 * Pow2(n - 1)
  }

  lemma {:induction false} OrZero(a: nat)
    ensures BitOr(a, 0) == a
  {
    if a > 0 {
      OrZero(a / 2);
    }
  }

  /** Shifted past the other's bits, two numbers do not overlap: or-ing them adds them. */
  lemma {:induction false} OrShifted(high: nat, n: nat, low: nat)
    requires low < Pow2(n)
    ensures BitOr(high * Pow2(n), low) == high * Pow2(n) + low
    decreases n
  {
    if n == 0 {
      OrZero(high);
    } else {
      var half := high * Pow2(n - 1);
      assert high * Pow2(n) == 2 * half;
      OrShifted(high, n - 1, low / 2);
      if half + low > 0 {
        assert BitOr(2 * half, low) == 2 * BitOr(half, low / 2) + low % 2;
      }
    }
  }

  /** Masking with n ones keeps the remainder modulo 2^n. */
  lemma {:induction false} MaskIsMod(x: nat, n: nat)
    ensures BitAnd(x, Pow2(n) - 1) == x % Pow2(n)
    decreases n, x
  {
    if n == 0 {
      AndZero(x);
    } else {
      HalfMod(x, Pow2(n - 1));
      assert (Pow2(n) - 1) / 2 == Pow2(n - 1) - 1 && (Pow2(n) - 1) % 2 == 1;
      MaskIsMod(x / 2, n - 1);
    }
  }

  lemma {:induction false} AndZero(x: nat)
    ensures BitAnd(x, 0) == 0
  {
    if x > 0 {
      AndZero(x / 2);
    }
  }

  lemma HalfMod(x: nat, p: nat)
    requires p > 0
    ensures x % (2 * p) == 2 * (x / 2 % p) + x % 2
  {
    var q, r := x / 2 / p, x / 2 % p;
    assert x / 2 == q * p + r;
    assert x == q * (2 * p) + (2 * r + x % 2);
    QuotientUnique(x, 2 * p, q, 2 * r + x % 2);
  }

  lemma Powers()
    ensures Pow2(10) == TWO10 && Pow2(12) == TWO12 && Pow2(22) == TWO22 && Pow2(42) == TWO42
  {
    assert Pow2(10) == TWO10 && Pow2(11) == 0x800 && Pow2(12) == TWO12;
    assert Pow2(20) == 0x10_0000 && Pow2(21) == 0x20_0000 && Pow2(22) == TWO22;
    assert Pow2(32) == 0x1_0000_0000 && Pow2(42) == TWO42;
  }

  /** The id as the code puts it together: masks, shifts and bitwise or. */
  function Pack(server: int, timestamp: nat, seqId: nat): nat {
    BitOr(BitOr(BitAnd(timestamp, 0x3FF_FFFF_FFFF) * TWO22, BitAnd(server % TWO32, 0x3FF) * TWO12), seqId)
  }

  /** The same id as a sum of its fields. */
  function Compose(server: int, timestamp: nat, seqId: nat): (id: nat)
    requires seqId < TWO12
    ensures id < TWO64
  {
    (timestamp % TWO42) * TWO22 + (server % TWO10) * TWO12 + seqId
  }

  lemma MaskTime(timestamp: nat)
    ensures BitAnd(timestamp, 0x3FF_FFFF_FFFF) == timestamp % TWO42
  {
    assert Pow2(42) == TWO42 by { Powers(); }
    MaskIsMod(timestamp, 42);
  }

  lemma LowBits(server: int)
    ensures server % TWO32 % TWO10 == server % TWO10
  {
  }

  lemma MaskServer(server: int)
    ensures BitAnd(server % TWO32, 0x3FF) == server % TWO10
  {
    assert Pow2(10) == TWO10 by { Powers(); }
    MaskIsMod(server % TWO32, 10);
    LowBits(server);
  }

  lemma OrFields(t: nat, s: nat, q: nat)
    requires s < TWO10 && q < TWO12
    ensures BitOr(BitOr(t * TWO22, s * TWO12), q) == t * TWO22 + s * TWO12 + q
  {
    Powers();
    OrShifted(t, 22, s * TWO12);
    var top := t * TWO10 + s;
    assert t * TWO22 + s * TWO12 == top * TWO12;
    OrShifted(top, 12, q);
  }

  /** The three fields do not overlap, so the bitwise or is their sum. */
  lemma FieldsDoNotOverlap(server: int, timestamp: nat, seqId: nat)
    requires seqId < TWO12
    ensures Pack(server, timestamp, seqId) == Compose(server, timestamp, seqId)
  {
    MaskTime(timestamp);
    MaskServer(server);
    OrFields(timestamp % TWO42, server % TWO10, seqId);
  }

  // ----- the generator

  /** First reading that differs from `last`, or none: the spin loop. */
  function NextTick(last: nat, readings: seq<nat>): (t: int)
    ensures t == -1 || (t in readings && t != last)
  {
    if readings == [] then -1 else if readings[0] != last then readings[0] else NextTick(last, readings[1..])
  }

  function Generate(server: int, k: Keys, readings: seq<nat>): (r: Result)
    ensures r.Made? ==> r.keys.seqId < TWO12 && r.id == Compose(server, r.keys.last, r.keys.seqId)
  {
    if readings == [] then Spinning
    else if readings[0] != k.last then Made(Keys(readings[0], 0), Compose(server, readings[0], 0))
    else
      var seqId := (k.seqId + 1) % TWO12;
      if seqId != 0 then Made(Keys(k.last, seqId), Compose(server, k.last, seqId))
      else
        var t := NextTick(k.last, readings[1..]);
        if t < 0 then Spinning else Made(Keys(t, 0), Compose(server, t, 0))
  }

  /** The readings the spin loop takes. */
  function Spun(last: nat, readings: seq<nat>): seq<nat> {
    if readings == [] then [] else if readings[0] != last then [readings[0]] else [last] + Spun(last, readings[1..])
  }

  /** The readings a call takes: one, or in a full millisecond as many as the spin loop needs. */
  function Taken(k: Keys, readings: seq<nat>): seq<nat> {
    if readings == [] then []
    else if readings[0] == k.last && (k.seqId + 1) % TWO12 == 0 then [readings[0]] + Spun(k.last, readings[1..])
    else [readings[0]]
  }

  class KeyGenerator {
    const server: int
    var last: nat
    var seqId: nat

    constructor (server: int, now: nat)
      ensures this.server == server && last == now && seqId == 0
    {
      this.server, last, seqId := server, now, 0;
    }

    /** Not `made`: the readings ended while the call was still spinning. */
    method GenerateKey(readings: seq<nat>) returns (made: bool, key: Bytes)
      requires seqId < TWO12
      modifies this
      ensures var r := Generate(server, old(Keys(last, seqId)), readings);
              && (made <==> r.Made?)
              && (made ==> Keys(last, seqId) == r.keys && key == ToDecimal(r.id))
              && (!made ==> last == old(last))
    {
      if readings == [] {
        return false, [];
      }
      var timestamp := readings[0];
      if last == timestamp {
        seqId := (seqId + 1) % TWO12;
        if seqId == 0 {
          var i := 1;
          while i < |readings| && readings[i] == last
            invariant 1 <= i <= |readings|
            invariant NextTick(last, readings[i..]) == NextTick(last, readings[1..])
          {
            assert readings[i..][1..] == readings[i + 1..];
            i := i + 1;
          }
          if i == |readings| {
            assert readings[i..] == [];
            return false, [];
          }
          timestamp := readings[i];
        }
      } else {
        seqId := 0;
      }
      last := timestamp;
      made := true;
      FieldsDoNotOverlap(server, timestamp, seqId);
      key := ToDecimal(Pack(server, timestamp, seqId));
    }
  }

  // ----- one id

  /** An id tells its timestamp, its server and its sequence number. */
  lemma DecodeId(server: int, timestamp: nat, seqId: nat)
    requires timestamp < TWO42 && seqId < TWO12
    ensures var id := Compose(server, timestamp, seqId);
            id / TWO22 == timestamp && id / TWO12 % TWO10 == server % TWO10 && id % TWO12 == seqId
  {
    var id, low := Compose(server, timestamp, seqId), (server % TWO10) * TWO12 + seqId;
    assert 0 <= low < TWO22;
    assert id == timestamp * TWO22 + low;
    assert id == (timestamp * TWO10 + server % TWO10) * TWO12 + seqId;
  }

  /** Equal ids have equal parts, so different servers never produce the same id. */
  lemma IdsAreUnique(s1: int, t1: nat, q1: nat, s2: int, t2: nat, q2: nat)
    requires t1 < TWO42 && q1 < TWO12 && t2 < TWO42 && q2 < TWO12
    ensures ToDecimal(Compose(s1, t1, q1)) == ToDecimal(Compose(s2, t2, q2))
            <==> t1 == t2 && s1 % TWO10 == s2 % TWO10 && q1 == q2
  {
    DecimalInjective(Compose(s1, t1, q1), Compose(s2, t2, q2));
    DecodeId(s1, t1, q1);
    DecodeId(s2, t2, q2);
  }

  lemma ComposeOrder(server: int, t1: nat, q1: nat, t2: nat, q2: nat)
    requires t1 < TWO42 && q1 < TWO12 && t2 < TWO42 && q2 < TWO12
    ensures Compose(server, t1, q1) < Compose(server, t2, q2) <==> t1 < t2 || (t1 == t2 && q1 < q2)
  {
  }

  // ----- the clock

  /** `from` followed by the readings never goes back. */
  predicate Ascends(from: nat, readings: seq<nat>)
    decreases |readings|
  {
    readings == [] || (from <= readings[0] && Ascends(readings[0], readings[1..]))
  }

  function LastOf(from: nat, readings: seq<nat>): nat {
    if readings == [] then from else readings[|readings| - 1]
  }

  lemma {:induction false} AscendsConcat(from: nat, a: seq<nat>, b: seq<nat>)
    ensures Ascends(from, a + b) <==> Ascends(from, a) && Ascends(LastOf(from, a), b)
    decreases |a|
  {
    if a == [] {
      assert a + b == b;
    } else {
      assert (a + b)[1..] == a[1..] + b;
      AscendsConcat(a[0], a[1..], b);
    }
  }

  /** The spin loop repeats the old millisecond and ends on another one. */
  lemma {:induction false} SpunAscends(last: nat, readings: seq<nat>)
    requires NextTick(last, readings) >= 0
    ensures LastOf(last, Spun(last, readings)) == NextTick(last, readings)
    ensures Ascends(last, Spun(last, readings)) <==> NextTick(last, readings) > last
    decreases |readings|
  {
    if readings[0] == last {
      SpunAscends(last, readings[1..]);
      assert Spun(last, readings)[1..] == Spun(last, readings[1..]);
    }
  }

  predicate Below(readings: seq<nat>, bound: int) {
    forall i :: 0 <= i < |readings| ==> readings[i] < bound
  }

  lemma {:induction false} NextTickBelow(last: nat, readings: seq<nat>, bound: int)
    requires Below(readings, bound) && bound > 0
    ensures NextTick(last, readings) < bound
    decreases |readings|
  {
    if readings != [] && readings[0] == last {
      NextTickBelow(last, readings[1..], bound);
    }
  }

  /** A call ends on the last reading it takes, and that is in range. */
  lemma EndsOnTaken(server: int, k: Keys, readings: seq<nat>)
    requires Below(readings, TWO42) && Generate(server, k, readings).Made?
    ensures var r := Generate(server, k, readings);
            && r.keys.last == LastOf(k.last, Taken(k, readings)) && r.keys.last < TWO42
  {
    if readings[0] == k.last && (k.seqId + 1) % TWO12 == 0 {
      SpunAscends(k.last, readings[1..]);
      NextTickBelow(k.last, readings[1..], TWO42);
    }
  }

  /**
   A call returns a larger id than the one before if and only if no reading it takes goes back
   behind the millisecond of the one before; and a call that finds its millisecond full waits for
   another one, and starts again from 0 there.
   */
  lemma GrowsIffClockDoes(server: int, k: Keys, readings: seq<nat>)
    requires k.last < TWO42 && k.seqId < TWO12 && Below(readings, TWO42)
    requires Generate(server, k, readings).Made?
    ensures var r := Generate(server, k, readings);
            && (r.id > Compose(server, k.last, k.seqId) <==> Ascends(k.last, Taken(k, readings)))
            && (readings[0] == k.last && k.seqId == TWO12 - 1 ==> r.keys.last != k.last && r.keys.seqId == 0)
  {
    var r := Generate(server, k, readings);
    EndsOnTaken(server, k, readings);
    ComposeOrder(server, k.last, k.seqId, r.keys.last, r.keys.seqId);
    if readings[0] == k.last && (k.seqId + 1) % TWO12 == 0 {
      SpunAscends(k.last, readings[1..]);
      assert Taken(k, readings)[1..] == Spun(k.last, readings[1..]);
    }
  }

  /** The id carries the last reading taken, and counts the ids of that millisecond from 0. */
  lemma IdCarriesClock(server: int, k: Keys, readings: seq<nat>)
    requires k.seqId < TWO12 && Below(readings, TWO42) && Generate(server, k, readings).Made?
    ensures var r, taken := Generate(server, k, readings), Taken(k, readings);
            && taken != [] && r.keys.last == taken[|taken| - 1]
            && r.keys.seqId == if r.keys.last == k.last then k.seqId + 1 else 0
  {
    EndsOnTaken(server, k, readings);
  }

  // ----- runs

  /** Successive calls: the variables before and after each, and the ids returned. */
  predicate IsRun(server: int, states: seq<Keys>, calls: seq<seq<nat>>, ids: seq<nat>) {
    && |states| == |calls| + 1 && |ids| == |calls| && states[0].seqId < TWO12
    && forall i :: 0 <= i < |calls| ==> Generate(server, states[i], calls[i]) == Made(states[i + 1], ids[i])
  }

  /** The clock, as far as the calls have read it. */
  function Clock(states: seq<Keys>, calls: seq<seq<nat>>): seq<nat>
    requires |states| == |calls| + 1
  {
    if calls == [] then [] else Taken(states[0], calls[0]) + Clock(states[1..], calls[1..])
  }

  /** All readings fit the 42 bits they are cut to. */
  predicate InRange(from: nat, calls: seq<seq<nat>>) {
    from < TWO42 && forall i :: 0 <= i < |calls| ==> Below(calls[i], TWO42)
  }

  predicate Increasing(xs: seq<nat>) {
    forall i :: 0 < i < |xs| ==> xs[i - 1] < xs[i]
  }

  lemma IncreasingCons(x: nat, xs: seq<nat>)
    requires xs != []
    ensures Increasing([x] + xs) <==> x < xs[0] && Increasing(xs)
  {
    var all := [x] + xs;
    if Increasing(all) {
      assert all[0] < all[1];
      forall i | 0 < i < |xs| ensures xs[i - 1] < xs[i] {
        assert all[i] < all[i + 1];
      }
    }
  }

  /** An id given before, and the ids of all calls after it. */
  lemma {:induction false} IncreaseFrom(server: int, states: seq<Keys>, calls: seq<seq<nat>>, ids: seq<nat>)
    requires IsRun(server, states, calls, ids) && InRange(states[0].last, calls)
    ensures Increasing([Compose(server, states[0].last, states[0].seqId)] + ids)
            <==> Ascends(states[0].last, Clock(states, calls))
    decreases |calls|
  {
    var k := states[0];
    var first := Compose(server, k.last, k.seqId);
    if calls != [] {
      assert Generate(server, k, calls[0]) == Made(states[1], ids[0]);
      GrowsIffClockDoes(server, k, calls[0]);
      EndsOnTaken(server, k, calls[0]);
      AscendsConcat(k.last, Taken(k, calls[0]), Clock(states[1..], calls[1..]));
      RunTail(server, states, calls, ids);
      IncreaseFrom(server, states[1..], calls[1..], ids[1..]);
      assert [ids[0]] + ids[1..] == ids;
      IncreasingCons(first, ids);
    } else {
      assert ids == [];
    }
  }

  lemma RunTail(server: int, states: seq<Keys>, calls: seq<seq<nat>>, ids: seq<nat>)
    requires IsRun(server, states, calls, ids) && InRange(states[0].last, calls) && calls != []
    ensures IsRun(server, states[1..], calls[1..], ids[1..]) && InRange(states[1].last, calls[1..])
  {
    assert Generate(server, states[0], calls[0]) == Made(states[1], ids[0]);
    EndsOnTaken(server, states[0], calls[0]);
    forall i | 0 <= i < |calls| - 1
      ensures Generate(server, states[1..][i], calls[1..][i]) == Made(states[1..][i + 1], ids[1..][i])
    {
      assert Generate(server, states[i + 1], calls[i + 1]) == Made(states[i + 2], ids[i + 1]);
    }
  }

  /**
   Any number of sequential calls: the ids returned are strictly increasing if and only if the
   clock, from the millisecond of the first id on, never went back in any reading the calls took.
   */
  lemma IdsIncreaseIffClockDoes(server: int, states: seq<Keys>, calls: seq<seq<nat>>, ids: seq<nat>)
    requires IsRun(server, states, calls, ids) && InRange(states[0].last, calls) && calls != []
    ensures Increasing(ids) <==> Ascends(states[1].last, Clock(states[1..], calls[1..]))
  {
    assert Generate(server, states[0], calls[0]) == Made(states[1], ids[0]);
    RunTail(server, states, calls, ids);
    IncreaseFrom(server, states[1..], calls[1..], ids[1..]);
    assert [ids[0]] + ids[1..] == ids;
  }

  lemma {:induction false} IncreasingFar(xs: seq<nat>, i: nat, j: nat)
    requires Increasing(xs) && i < j < |xs|
    ensures xs[i] < xs[j]
  {
    if i < j - 1 {
      IncreasingFar(xs, i, j - 1);
    }
  }

  /** On a clock that never goes back all keys are different texts, in increasing order of id. */
  lemma IdsIncrease(server: int, states: seq<Keys>, calls: seq<seq<nat>>, ids: seq<nat>, i: nat, j: nat)
    requires IsRun(server, states, calls, ids) && InRange(states[0].last, calls) && i < j < |ids|
    requires Ascends(states[0].last, Clock(states, calls))
    ensures ids[i] < ids[j] && ToDecimal(ids[i]) != ToDecimal(ids[j])
  {
    var first := Compose(server, states[0].last, states[0].seqId);
    IncreaseFrom(server, states, calls, ids);
    var all := [first] + ids;
    assert all[i + 1] == ids[i] && all[j + 1] == ids[j];
    IncreasingFar(all, i + 1, j + 1);
    DecimalInjective(ids[i], ids[j]);
  }

  /** A clock that steps back one millisecond makes an earlier id come round again. */
  lemma BackwardClockRepeats(server: int, t: nat) returns (states: seq<Keys>, calls: seq<seq<nat>>, ids: seq<nat>)
    requires t > 0
    ensures IsRun(server, states, calls, ids) && |ids| == 4 && ids[0] == ids[3]
  {
    calls := [[t], [t - 1], [t], [t]];
    states := [Keys(t, 0), Keys(t, 1), Keys(t - 1, 0), Keys(t, 0), Keys(t, 1)];
    ids := [Compose(server, t, 1), Compose(server, t - 1, 0), Compose(server, t, 0), Compose(server, t, 1)];
  }
}
