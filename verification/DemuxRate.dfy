/** The rate gate inside the demultiplexer: how far apart outputs are in the stream's own time. */
module DemuxRate {
  import opened Basics
  import opened Clock
  import opened DemuxSpec
  import opened RateGate
  import opened Delivery

  /** One tick a packet: the clock it leaves, and whether it brought a sample to the gate. */
  function Ticks(l: Library, f: Front, ps: seq<Packet>): (ticks: seq<Tick>)
    ensures |ticks| == |ps|
    decreases |ps|
  {
    if ps == [] then []
    else
      var g := FrontPacket(l, f, ps[0]).0;
      [Tick(g.clock, FrontPacket(l, f, ps[0]).1 != [])] + Ticks(l, g, ps[1..])
  }

  /** A packet brings at most one sample, stamped with the clock the packet leaves. */
  lemma AtMostOneSample(l: Library, f: Front, p: Packet)
    ensures var (g, out) := FrontPacket(l, f, p);
            out == [] || (|out| == 1 && out[0].clock == g.clock && out[0].pcr == g.pcr && out[0].data == f.sample != [])
  {
    var now := UpdateClock(f, p);
    if p.start {
      assert StartPayload(l, now, p).1 == [] || StartPayload(l, now, p) == StartPes(l, now, p);
    }
  }

  /** One packet moves the back end's time as one tick moves the gate's last pass. */
  lemma TickStep(l: Library, interval: uint64, f: Front, b: Back, p: Packet)
    ensures ProcessAll(l, interval, b, FrontPacket(l, f, p).1).time
         == (var (g, out) := FrontPacket(l, f, p);
             if out != [] && Passes(interval, b.time, g.clock) then g.clock else b.time)
  {
    AtMostOneSample(l, f, p);
    var out := FrontPacket(l, f, p).1;
    if out != [] {
      assert out[1..] == [];
      ProcessKlvKeeps(l, interval, b, out[0]);
    }
  }

  lemma {:induction false} LastPassShift(interval: uint64, last: uint64, head: Tick, more: seq<Tick>, k: nat)
    requires k <= |more|
    ensures var last' := if head.sampled && Passes(interval, last, head.clock) then head.clock else last;
            LastPass(interval, last, [head] + more, k + 1) == LastPass(interval, last', more, k)
    decreases k
  {
    if k > 0 {
      LastPassShift(interval, last, head, more, k - 1);
      assert ([head] + more)[k] == more[k - 1];
    } else {
      assert LastPass(interval, last, [head] + more, 0) == last;
    }
  }

  /** After any number of packets, the demultiplexer's time is the gate's last pass over the ticks: so
      the samples it lets through are exactly the passes of the gate. */
  lemma {:induction false} TimeIsLastPass(l: Library, interval: uint64, st: State, ps: seq<Packet>, k: nat)
    requires k <= |ps|
    ensures Run(l, interval, st, Arrivals(ps[..k])).back.time
         == LastPass(interval, st.back.time, Ticks(l, st.front, ps), k)
    decreases k
  {
    if k > 0 {
      var st' := Step(l, interval, st, Arrive(ps[0]));
      TimeIsLastPass(l, interval, st', ps[1..], k - 1);
      RunStep(l, interval, st, ps, k);
      TickStep(l, interval, st.front, st.back, ps[0]);
      var ticks := Ticks(l, st.front, ps);
      LastPassShift(interval, st.back.time, ticks[0], ticks[1..], k - 1);
      assert ticks == [ticks[0]] + ticks[1..];
      TicksMore(l, st.front, ps);
    }
  }

  lemma RunStep(l: Library, interval: uint64, st: State, ps: seq<Packet>, k: nat)
    requires 0 < k <= |ps|
    ensures Run(l, interval, st, Arrivals(ps[..k]))
         == Run(l, interval, Step(l, interval, st, Arrive(ps[0])), Arrivals(ps[1..][..k - 1]))
  {
    assert ps[..k][1..] == ps[1..][..k - 1];
    assert Arrivals(ps[..k])[1..] == Arrivals(ps[1..][..k - 1]);
  }

  lemma TicksMore(l: Library, f: Front, ps: seq<Packet>)
    requires ps != []
    ensures var (g, out) := FrontPacket(l, f, ps[0]);
            Ticks(l, f, ps)[0] == Tick(g.clock, out != []) && Ticks(l, f, ps)[1..] == Ticks(l, g, ps[1..])
  {
  }

  lemma {:induction false} TickIsClock(l: Library, f: Front, ps: seq<Packet>, k: nat)
    requires k < |ps|
    ensures Ticks(l, f, ps)[k].clock == FrontAfter(l, f, ps[..k + 1]).clock
    decreases |ps|
  {
    var g := FrontPacket(l, f, ps[0]).0;
    FrontAfterFirst(l, f, ps, k);
    TicksMore(l, f, ps);
    if k > 0 {
      TickIsClock(l, g, ps[1..], k - 1);
      assert Ticks(l, f, ps)[k] == Ticks(l, f, ps)[1..][k - 1];
    }
  }

  lemma FrontAfterFirst(l: Library, f: Front, ps: seq<Packet>, k: nat)
    requires k < |ps|
    ensures FrontAfter(l, f, ps[..k + 1]) == FrontAfter(l, FrontPacket(l, f, ps[0]).0, ps[1..][..k])
  {
    assert ps[..k + 1][1..] == ps[1..][..k];
  }

  lemma TickClocks(l: Library, f: Front, ps: seq<Packet>, k: nat)
    requires ClockShowsPcr(f) && k < |ps|
    ensures Ticks(l, f, ps)[k].clock == Clocked(PcrAfter(f.pcr, ps[..k + 1]))
  {
    TickIsClock(l, f, ps, k);
    FrontInvariants(l, f, ps[..k + 1]);
    PcrOfFront(l, f, ps[..k + 1]);
  }

  /** The true 33-bit PCR base in force after packet `k`. */
  function TrueBase(pcr: Pcr, ps: seq<Packet>, k: nat): nat
    requires k < |ps|
  {
    StandardBase(PcrAfter(pcr, ps[..k + 1]))
  }

  /** Two outputs with none in between are at least the interval apart in the stream's true PCR bases,
      unless the bases went back, although the gate reads them with their lowest bit cleared. */
  lemma {:induction false} TrueSpacing(l: Library, interval: uint64, f: Front, last: uint64, ps: seq<Packet>, i: nat, j: nat)
    requires ClockShowsPcr(f) && i < j < |ps|
    requires var ticks := Ticks(l, f, ps);
             && PassesAt(interval, last, ticks, i) && PassesAt(interval, last, ticks, j)
             && forall k :: i < k < j ==> !PassesAt(interval, last, ticks, k)
    ensures TrueBase(f.pcr, ps, j) < TrueBase(f.pcr, ps, i)
         || TrueBase(f.pcr, ps, j) - TrueBase(f.pcr, ps, i) >= interval
  {
    Spacing(interval, last, Ticks(l, f, ps), i, j);
    TickClocks(l, f, ps, i);
    TickClocks(l, f, ps, j);
    var p, q := PcrAfter(f.pcr, ps[..i + 1]), PcrAfter(f.pcr, ps[..j + 1]);
    if StandardBase(p) <= StandardBase(q) {
      BaseTimeMonotone(p, q);
    }
  }

  predicate ShowsPcr(s: Sample) {
    s.clock == Clocked(s.pcr)
  }

  /** Every sample that reaches the gate is stamped with the clock of its PCR. */
  lemma {:induction false} ReachingShowsPcr(l: Library, f: Front, on: bool, inputs: seq<Input>)
    requires ClockShowsPcr(f)
    ensures forall r <- Reaching(l, f, on, inputs) :: ShowsPcr(r.sample)
    decreases |inputs|
  {
    if inputs != [] {
      match inputs[0]
      case SetCallback(on') =>
        ReachingShowsPcr(l, f, on', inputs[1..]);
      case Arrive(p) =>
        var g, out := FrontPacket(l, f, p).0, FrontPacket(l, f, p).1;
        FrontInvariant(l, f, p);
        AtMostOneSample(l, f, p);
        MarkedShowsPcr(out, on, g);
        ReachingShowsPcr(l, g, on, inputs[1..]);
    }
  }

  lemma MarkedShowsPcr(out: seq<Sample>, on: bool, g: Front)
    requires ClockShowsPcr(g)
    requires out == [] || (|out| == 1 && out[0].clock == g.clock && out[0].pcr == g.pcr)
    ensures forall r <- Marked(out, on) :: ShowsPcr(r.sample)
  {
    if out != [] {
      assert out[1..] == [];
    }
  }

  /** Two samples are at least the interval apart in true bases, or the bases went back. */
  predicate Apart(interval: uint64, s: Sample, next: Sample) {
    || StandardBase(next.pcr) < StandardBase(s.pcr)
    || StandardBase(next.pcr) - StandardBase(s.pcr) >= interval
  }

  lemma PassIsApart(interval: uint64, s: Sample, next: Sample)
    requires ShowsPcr(s) && ShowsPcr(next) && Passes(interval, s.clock, next.clock)
    ensures Apart(interval, s, next)
  {
    PassesExactly(interval, s.clock, next.clock);
    if StandardBase(s.pcr) <= StandardBase(next.pcr) {
      BaseTimeMonotone(s.pcr, next.pcr);
    }
  }

  lemma {:induction false} AcceptedShowPcr(interval: uint64, time: uint64, rs: seq<Reached>)
    requires forall r <- rs :: ShowsPcr(r.sample)
    ensures var s := Accepted(interval, time, rs);
            s != [] ==> ShowsPcr(s[0]) && Passes(interval, time, s[0].clock)
    decreases |rs|
  {
    if rs != [] && !Passes(interval, time, rs[0].sample.clock) {
      AcceptedShowPcr(interval, time, rs[1..]);
    }
  }

  lemma {:induction false} AcceptedApart(interval: uint64, time: uint64, rs: seq<Reached>, k: nat)
    requires forall r <- rs :: ShowsPcr(r.sample)
    requires k + 1 < |Accepted(interval, time, rs)|
    ensures var s := Accepted(interval, time, rs); Apart(interval, s[k], s[k + 1])
    decreases |rs|
  {
    var first := rs[0].sample;
    if Passes(interval, time, first.clock) {
      if k == 0 {
        AcceptedShowPcr(interval, first.clock, rs[1..]);
        PassIsApart(interval, first, Accepted(interval, first.clock, rs[1..])[0]);
      } else {
        AcceptedApart(interval, first.clock, rs[1..], k - 1);
      }
    } else {
      AcceptedApart(interval, time, rs[1..], k);
    }
  }

  /** The samples a run lets through, with any changes of the callback in between: consecutive ones are
      at least the interval apart in true PCR bases, unless the bases went back. */
  lemma {:induction false} AcceptedSpacing(l: Library, interval: uint64, st: State, inputs: seq<Input>, k: nat)
    requires ClockShowsPcr(st.front)
    requires k + 1 < |Accepted(interval, st.back.time, Reaching(l, st.front, st.back.callback, inputs))|
    ensures var s := Accepted(interval, st.back.time, Reaching(l, st.front, st.back.callback, inputs));
            Apart(interval, s[k], s[k + 1])
  {
    ReachingShowsPcr(l, st.front, st.back.callback, inputs);
    AcceptedApart(interval, st.back.time, Reaching(l, st.front, st.back.callback, inputs), k);
  }

  /** What a sample is measured from: the clock at the pass numbered `i`, or the time the run starts
      with when there has been no pass yet. */
  function Since(last: uint64, ticks: seq<Tick>, i: int): uint64
    requires -1 <= i < |ticks|
  {
    if i == -1 then last else ticks[i].clock
  }

  /** The gate inside the run is greedy: before the first pass and after every pass, samples are held
      back exactly while the clock stays within the interval after the start time or that pass; a wrap
      or a jump back lets one through. */
  lemma {:induction false} GreedyInRun(l: Library, interval: uint64, f: Front, last: uint64, ps: seq<Packet>, i: int, j: nat)
    requires ClockShowsPcr(f) && -1 <= i < j < |ps|
    requires last < 0x2_0000_0000 && interval <= TWO_64 - 0x2_0000_0000
    requires i >= 0 ==> PassesAt(interval, last, Ticks(l, f, ps), i)
    requires forall k :: i < k < j ==> !PassesAt(interval, last, Ticks(l, f, ps), k)
    ensures var ticks := Ticks(l, f, ps);
            var since := Since(last, ticks, i);
            (PassesAt(interval, last, ticks, j)
             <==> ticks[j].sampled && !(since <= ticks[j].clock <= since + interval))
  {
    TickClocks(l, f, ps, j);
    if i == -1 {
      GreedyFromStart(interval, last, Ticks(l, f, ps), j);
    } else {
      TickClocks(l, f, ps, i);
      Greedy(interval, last, Ticks(l, f, ps), i, j);
    }
  }

  /** The accepted samples of a run are as many as the passes of the gate. */
  lemma {:induction false} AcceptedArePasses(l: Library, interval: uint64, f: Front, on: bool, time: uint64, inputs: seq<Input>)
    ensures |Accepted(interval, time, Reaching(l, f, on, inputs))| == Passed(interval, time, Ticks(l, f, PacketsOf(inputs)))
    decreases |inputs|
  {
    if inputs != [] {
      var more := inputs[1..];
      match inputs[0]
      case SetCallback(on') =>
        AcceptedArePasses(l, interval, f, on', time, more);
        assert [] + PacketsOf(more) == PacketsOf(more);
      case Arrive(p) =>
        var g, out := FrontPacket(l, f, p).0, FrontPacket(l, f, p).1;
        AtMostOneSample(l, f, p);
        var tick := Tick(g.clock, out != []);
        var passes := tick.sampled && Passes(interval, time, g.clock);
        var time' := if passes then g.clock else time;
        AcceptedArePasses(l, interval, g, on, time', more);
        assert PacketsOf(inputs)[1..] == PacketsOf(more);
        AcceptedStep(interval, time, out, on, g.clock, Reaching(l, g, on, more));
        assert Ticks(l, f, PacketsOf(inputs)) == [tick] + Ticks(l, g, PacketsOf(more));
        PassedStep(interval, time, tick, Ticks(l, g, PacketsOf(more)));
    }
  }

  lemma PassedStep(interval: uint64, time: uint64, tick: Tick, more: seq<Tick>)
    ensures Passed(interval, time, [tick] + more)
         == if tick.sampled && Passes(interval, time, tick.clock) then 1 + Passed(interval, tick.clock, more)
            else Passed(interval, time, more)
  {
    assert ([tick] + more)[1..] == more;
  }

  lemma AcceptedStep(interval: uint64, time: uint64, out: seq<Sample>, on: bool, clock: uint64, more: seq<Reached>)
    requires out == [] || (|out| == 1 && out[0].clock == clock)
    ensures |Accepted(interval, time, Marked(out, on) + more)|
         == if out != [] && Passes(interval, time, clock) then 1 + |Accepted(interval, clock, more)|
            else |Accepted(interval, time, more)|
  {
    if out == [] {
      assert Marked(out, on) + more == more;
    } else {
      assert out[1..] == [];
      assert Marked(out, on) == [Reached(out[0], on)];
      assert (Marked(out, on) + more)[1..] == more;
    }
  }

  /** Over a whole run from the start, each accepted sample uses up `interval + 1` ticks of the clock's
      forward motion or one of its backward steps. */
  lemma {:induction false} RunRate(l: Library, interval: uint64, inputs: seq<Input>)
    ensures var ticks := Ticks(l, INITIAL_FRONT, PacketsOf(inputs));
            (|Accepted(interval, 0, Reaching(l, INITIAL_FRONT, false, inputs))| * (interval + 1)
             <= Forward(0, ticks) + Backward(0, ticks) * (interval + 1))
  {
    AcceptedArePasses(l, interval, INITIAL_FRONT, false, 0, inputs);
    RateBound(interval, 0, Ticks(l, INITIAL_FRONT, PacketsOf(inputs)));
  }
}
