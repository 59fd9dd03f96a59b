/** The rate gate of `processKlv`: how often samples pass, over any movement of the clock. */
module RateGate {
  import opened Basics

  /** `timeNow - _time > _interval` in 64-bit unsigned arithmetic. */
  predicate Passes(interval: uint64, last: uint64, now: uint64) {
    (now - last) % TWO_64 > interval
  }

  /** Exactly when a sample passes: it is late enough, or the clock has gone back by less than the
      wrapped interval. */
  lemma PassesExactly(interval: uint64, last: uint64, now: uint64)
    ensures Passes(interval, last, now) <==> now > last + interval || (now < last && last - now < TWO_64 - interval)
  {
    if now < last {
      assert (now - last) % TWO_64 == now - last + TWO_64;
    } else {
      assert (now - last) % TWO_64 == now - last;
    }
  }

  /** With clocks of 33 bits, a sample is held back exactly when it lies in [last, last + interval]:
      a clock that has wrapped or jumped back always lets the next sample through. */
  lemma PassesWithPcrClock(interval: uint64, last: uint64, now: uint64)
    requires last < 0x2_0000_0000 && now < 0x2_0000_0000 && interval <= TWO_64 - 0x2_0000_0000
    ensures !Passes(interval, last, now) <==> last <= now <= last + interval
  {
    PassesExactly(interval, last, now);
  }

  /** One moment of a run: the clock, and whether a sample meets the gate then. */
  datatype Tick = Tick(clock: uint64, sampled: bool)

  /** The clock at the last pass, before tick `k`. */
  function LastPass(interval: uint64, last: uint64, ticks: seq<Tick>, k: nat): uint64
    requires k <= |ticks|
  {
    if k == 0 then last
    else
      var before := LastPass(interval, last, ticks, k - 1);
      var t := ticks[k - 1];
      if t.sampled && Passes(interval, before, t.clock) then t.clock else before
  }

  predicate PassesAt(interval: uint64, last: uint64, ticks: seq<Tick>, k: nat) {
    k < |ticks| && ticks[k].sampled && Passes(interval, LastPass(interval, last, ticks, k), ticks[k].clock)
  }

  /** The number of passes. */
  function Passed(interval: uint64, last: uint64, ticks: seq<Tick>): nat
    decreases |ticks|
  {
    if ticks == [] then 0
    else if ticks[0].sampled && Passes(interval, last, ticks[0].clock) then
      1 + Passed(interval, ticks[0].clock, ticks[1..])
    else Passed(interval, last, ticks[1..])
  }

  /** The total forward motion of the clock. */
  function Forward(clock: uint64, ticks: seq<Tick>): nat
    decreases |ticks|
  {
    if ticks == [] then 0
    else (if ticks[0].clock > clock then ticks[0].clock - clock else 0) + Forward(ticks[0].clock, ticks[1..])
  }

  /** How often the clock stepped back. */
  function Backward(clock: uint64, ticks: seq<Tick>): nat
    decreases |ticks|
  {
    if ticks == [] then 0
    else (if ticks[0].clock < clock then 1 else 0) + Backward(ticks[0].clock, ticks[1..])
  }

  /** Each pass uses up `interval + 1` ticks of forward motion or one backward step. */
  lemma {:induction false} RateBound(interval: uint64, clock: uint64, ticks: seq<Tick>)
    ensures Passed(interval, clock, ticks) * (interval + 1)
         <= Forward(clock, ticks) + Backward(clock, ticks) * (interval + 1)
  {
    RateBoundFrom(interval, clock, clock, false, ticks);
  }

  /** `wentBack`: the clock has stepped back since the last pass, and that step is not used up yet. */
  lemma {:induction false} RateBoundFrom(interval: uint64, last: uint64, clock: uint64, wentBack: bool, ticks: seq<Tick>)
    requires wentBack || last <= clock
    ensures Passed(interval, last, ticks) * (interval + 1)
         <= Forward(clock, ticks) + Backward(clock, ticks) * (interval + 1)
            + (if wentBack then interval + 1 else clock - last)
    decreases |ticks|
  {
    if ticks != [] {
      var now := ticks[0].clock;
      var passes := ticks[0].sampled && Passes(interval, last, now);
      PassesExactly(interval, last, now);
      var last' := if passes then now else last;
      var wentBack' := !passes && (wentBack || now < clock);
      RateBoundFrom(interval, last', now, wentBack', ticks[1..]);
      OneMore(Passed(interval, last', ticks[1..]), interval + 1);
      OneMore(Backward(now, ticks[1..]), interval + 1);
    }
  }

  lemma OneMore(n: nat, unit: nat)
    ensures (1 + n) * unit == n * unit + unit
  {
  }

  /** Between two passes with none in between, the earlier clock is what the later one is measured from. */
  lemma {:induction false} LastPassIs(interval: uint64, last: uint64, ticks: seq<Tick>, i: nat, j: nat)
    requires i < j <= |ticks| && PassesAt(interval, last, ticks, i)
    requires forall k :: i < k < j ==> !PassesAt(interval, last, ticks, k)
    ensures LastPass(interval, last, ticks, j) == ticks[i].clock
    decreases j
  {
    if i + 1 < j {
      LastPassIs(interval, last, ticks, i, j - 1);
      assert !PassesAt(interval, last, ticks, j - 1);
    }
  }

  /** Consecutive passes are more than `interval` apart unless the clock went back between them. */
  lemma {:induction false} Spacing(interval: uint64, last: uint64, ticks: seq<Tick>, i: nat, j: nat)
    requires i < j && PassesAt(interval, last, ticks, i) && PassesAt(interval, last, ticks, j)
    requires forall k :: i < k < j ==> !PassesAt(interval, last, ticks, k)
    ensures ticks[j].clock < ticks[i].clock || ticks[j].clock - ticks[i].clock > interval
  {
    LastPassIs(interval, last, ticks, i, j);
    PassesExactly(interval, ticks[i].clock, ticks[j].clock);
  }

  /** Before the first pass, the time at the start is what samples are measured from. */
  lemma {:induction false} LastPassAtStart(interval: uint64, last: uint64, ticks: seq<Tick>, j: nat)
    requires j <= |ticks| && forall k :: 0 <= k < j ==> !PassesAt(interval, last, ticks, k)
    ensures LastPass(interval, last, ticks, j) == last
    decreases j
  {
    if j > 0 {
      LastPassAtStart(interval, last, ticks, j - 1);
      assert !PassesAt(interval, last, ticks, j - 1);
    }
  }

  /** The first pass is the first sample that sees the clock outside [last, last + interval]. */
  lemma {:induction false} GreedyFromStart(interval: uint64, last: uint64, ticks: seq<Tick>, j: nat)
    requires j < |ticks| && forall k :: 0 <= k < j ==> !PassesAt(interval, last, ticks, k)
    requires last < 0x2_0000_0000 && ticks[j].clock < 0x2_0000_0000 && interval <= TWO_64 - 0x2_0000_0000
    ensures PassesAt(interval, last, ticks, j)
       <==> ticks[j].sampled && !(last <= ticks[j].clock <= last + interval)
  {
    LastPassAtStart(interval, last, ticks, j);
    PassesWithPcrClock(interval, last, ticks[j].clock);
  }

  /** The gate is greedy: a sample after a pass is held back until the clock leaves
      [pass, pass + interval], and the first sample that sees it outside passes. */
  lemma {:induction false} Greedy(interval: uint64, last: uint64, ticks: seq<Tick>, i: nat, j: nat)
    requires i < j < |ticks| && PassesAt(interval, last, ticks, i)
    requires forall k :: i < k < j ==> !PassesAt(interval, last, ticks, k)
    requires ticks[i].clock < 0x2_0000_0000 && ticks[j].clock < 0x2_0000_0000 && interval <= TWO_64 - 0x2_0000_0000
    ensures PassesAt(interval, last, ticks, j)
       <==> ticks[j].sampled && !(ticks[i].clock <= ticks[j].clock <= ticks[i].clock + interval)
  {
    LastPassIs(interval, last, ticks, i, j);
    PassesWithPcrClock(interval, ticks[i].clock, ticks[j].clock);
  }
}
