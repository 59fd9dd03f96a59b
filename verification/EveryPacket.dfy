/** What a single packet does to the sample in any run from the start, from the packets alone; also when
    several PIDs carry KLV, and when the PAT lists them. */
module EveryPacket {
  import opened Basics
  import opened Clock
  import opened KlvParser
  import opened DemuxSpec
  import opened Reassembly
  import opened ProgramLearning
  import opened Delivery
  import opened WholeRuns

  /** The packet closes the sample and starts a new one: it is a start packet with a valid PES header, of a
      PID announced as KLV that the PAT does not list. */
  ghost predicate StartsSample(l: Library, before: seq<Packet>, p: Packet) {
    && p.start && l.pes(p.payload).length > 0
    && AnnouncedKlv(l, before, p.pid) && p.pid !in FirstPat(l, before)
  }

  /** The packet adds to the sample: it is no start packet, and its PID has been announced as KLV, at the
      latest by this packet; whether the PAT lists the PID does not matter. */
  ghost predicate AddsToSample(l: Library, before: seq<Packet>, p: Packet) {
    !p.start && AnnouncedKlv(l, before + [p], p.pid)
  }

  lemma SampleStep(l: Library, f: Front, p: Packet)
    requires IsKlva(f, p.pid) ==> f.pat != map[]
    ensures var (g, out) := FrontPacket(l, f, p);
            var opens := p.start && l.pes(p.payload).length > 0 && IsKlva(f, p.pid) && p.pid !in f.pat;
            && g.sample == (if opens then p.payload[l.pes(p.payload).length..]
                            else if !p.start && IsKlva(g, p.pid) then f.sample + p.payload else f.sample)
            && out == if opens && f.sample != [] then [Sample(f.sample, l.pes(p.payload).streamId, g.pcr, g.clock)] else []
  {
    var now := UpdateClock(f, p);
    if p.start && p.pid !in f.pat && !(p.pid == 0 && f.pat == map[]) {
      assert StartPayload(l, now, p) == StartPes(l, now, p);
    }
  }

  lemma StateStep(l: Library, interval: uint64, st: State, p: Packet, starts: bool, adds: bool)
    requires IsKlva(st.front, p.pid) ==> st.front.pat != map[]
    requires starts <==> p.start && l.pes(p.payload).length > 0 && IsKlva(st.front, p.pid) && p.pid !in st.front.pat
    requires adds <==> !p.start && IsKlva(Step(l, interval, st, Arrive(p)).front, p.pid)
    ensures var end := Step(l, interval, st, Arrive(p));
            var header := l.pes(p.payload);
            && end.front.sample == (if starts then p.payload[header.length..]
                                    else if adds then st.front.sample + p.payload else st.front.sample)
            && end.back == if starts && st.front.sample != []
                           then ProcessKlv(l, interval, st.back,
                                           Sample(st.front.sample, header.streamId, end.front.pcr, end.front.clock))
                           else st.back
  {
    SampleStep(l, st.front, p);
    ProcessOne(l, interval, st.back, FrontPacket(l, st.front, p).1);
  }

  lemma ProcessOne(l: Library, interval: uint64, b: Back, out: seq<Sample>)
    requires |out| <= 1
    ensures ProcessAll(l, interval, b, out) == if out == [] then b else ProcessKlv(l, interval, b, out[0])
  {
    if out != [] {
      assert out[1..] == [];
      assert ProcessAll(l, interval, ProcessKlv(l, interval, b, out[0]), []) == ProcessKlv(l, interval, b, out[0]);
    }
  }

  lemma PacketsAfter(a: seq<Input>, p: Packet)
    ensures PacketsOf(a + [Arrive(p)]) == PacketsOf(a) + [p]
    decreases |a|
  {
    if a == [] {
      assert [] + [Arrive(p)] == [Arrive(p)] && [Arrive(p)][1..] == [];
    } else {
      assert (a + [Arrive(p)])[1..] == a[1..] + [Arrive(p)];
      PacketsAfter(a[1..], p);
      match a[0]
      case Arrive(q) => Assoc3([q], PacketsOf(a[1..]), [p]);
      case SetCallback(on) =>
    }
  }

  /** What is known of a PID when a packet of it arrives. */
  lemma KnownHere(l: Library, interval: uint64, a: seq<Input>, pid: nat)
    ensures var f := Run(l, interval, INITIAL_STATE, a).front;
            && f.pat == FirstPat(l, PacketsOf(a))
            && (IsKlva(f, pid) <==> AnnouncedKlv(l, PacketsOf(a), pid))
            && (IsKlva(f, pid) ==> f.pat != map[])
  {
    KlvPids(l, interval, a, pid);
    if AnnouncedKlv(l, PacketsOf(a), pid) {
      NothingWithoutPat(l, PacketsOf(a), pid);
    }
  }

  /** In every run from the start, whatever PIDs carry KLV: a packet replaces the sample, adds to it or
      leaves it alone; and processKlv is given the old sample exactly when a packet replaces one that is
      not empty, with the stream id of its own header and the clock it leaves. */
  lemma {:induction false} PacketInRun(l: Library, interval: uint64, a: seq<Input>, p: Packet)
    ensures var st := Run(l, interval, INITIAL_STATE, a);
            var end := Run(l, interval, INITIAL_STATE, a + [Arrive(p)]);
            var header := l.pes(p.payload);
            var starts := StartsSample(l, PacketsOf(a), p);
            && end.front.sample == (if starts then p.payload[header.length..]
                                    else if AddsToSample(l, PacketsOf(a), p) then st.front.sample + p.payload
                                    else st.front.sample)
            && end.back == if starts && st.front.sample != []
                           then ProcessKlv(l, interval, st.back,
                                           Sample(st.front.sample, header.streamId, end.front.pcr, end.front.clock))
                           else st.back
  {
    KnownHere(l, interval, a, p.pid);
    KnownHere(l, interval, a + [Arrive(p)], p.pid);
    PacketsAfter(a, p);
    LastStep(l, interval, a, p);
    StateStep(l, interval, Run(l, interval, INITIAL_STATE, a), p,
              StartsSample(l, PacketsOf(a), p), AddsToSample(l, PacketsOf(a), p));
  }

  lemma {:induction false} ListedBefore(l: Library, a: seq<Input>, b: seq<Input>)
    requires OnlyListed(l, PacketsOf(a + b))
    ensures OnlyListed(l, PacketsOf(a))
  {
    forall pid: nat | AnnouncedKlv(l, PacketsOf(a), pid) ensures pid in FirstPat(l, PacketsOf(a)) {
      AnnouncedStays(l, a, b, pid);
      NothingWithoutPat(l, PacketsOf(a), pid);
    }
  }

  ghost predicate OnlyListed(l: Library, ps: seq<Packet>) {
    forall pid: nat :: AnnouncedKlv(l, ps, pid) ==> pid in FirstPat(l, ps)
  }

  /** A PID that the PAT lists never has a sample closed: a run that announces no other PIDs as KLV delivers
      and counts nothing. */
  lemma {:induction false} ListedPidsAreSilent(l: Library, interval: uint64, inputs: seq<Input>)
    requires OnlyListed(l, PacketsOf(inputs))
    ensures Run(l, interval, INITIAL_STATE, inputs).back == INITIAL_BACK.(callback := CallbackAfter(false, inputs))
    decreases |inputs|
  {
    BackOfRun(l, interval, INITIAL_STATE, inputs);
    if inputs != [] {
      var a, i := inputs[..|inputs| - 1], inputs[|inputs| - 1];
      assert inputs == a + [i];
      ListedBefore(l, a, [i]);
      ListedPidsAreSilent(l, interval, a);
      LastInput(l, interval, a, i);
    }
  }

  lemma LastInput(l: Library, interval: uint64, a: seq<Input>, i: Input)
    requires OnlyListed(l, PacketsOf(a))
    ensures var st := Run(l, interval, INITIAL_STATE, a);
            var end := Run(l, interval, INITIAL_STATE, a + [i]);
            end.back == st.back.(callback := end.back.callback)
  {
    match i
    case Arrive(p) =>
      PacketInRun(l, interval, a, p);
    case SetCallback(on) =>
      RunAppend(l, interval, INITIAL_STATE, a, [i]);
      assert [i][1..] == [];
  }

  // ----- Every run

  /** The packets that start or add to the sample in a run, each with the PCR in force once it has arrived and
      whether a callback is set then; `before` are the packets before the run. */
  ghost function KlvStream(l: Library, before: seq<Packet>, pcr: Pcr, on: bool, inputs: seq<Input>): seq<Stamped>
    decreases |inputs|
  {
    if inputs == [] then []
    else match inputs[0]
      case Arrive(p) =>
        (if StartsSample(l, before, p) || AddsToSample(l, before, p) then [Stamped(p, PcrNow(pcr, p), on)] else [])
        + KlvStream(l, before + [p], PcrNow(pcr, p), on, inputs[1..])
      case SetCallback(on') => KlvStream(l, before, pcr, on', inputs[1..])
  }

  lemma EffectInRun(l: Library, a: seq<Input>, p: Packet)
    ensures var f := Run(l, 0, INITIAL_STATE, a).front;
            var ofStream := StartsSample(l, PacketsOf(a), p) || AddsToSample(l, PacketsOf(a), p);
            && Effect(l, f, ofStream, p, FrontPacket(l, f, p).0, FrontPacket(l, f, p).1)
            && FrontPacket(l, f, p).0 == Run(l, 0, INITIAL_STATE, a + [Arrive(p)]).front
  {
    var f := Run(l, 0, INITIAL_STATE, a).front;
    KnownHere(l, 0, a, p.pid);
    KnownHere(l, 0, a + [Arrive(p)], p.pid);
    PacketsAfter(a, p);
    LastStep(l, 0, a, p);
    SampleStep(l, f, p);
  }

  lemma {:induction false} ReachingInRun(l: Library, a: seq<Input>, on: bool, inputs: seq<Input>)
    ensures var f := Run(l, 0, INITIAL_STATE, a).front;
            Accounts(l, f.sample, KlvStream(l, PacketsOf(a), f.pcr, on, inputs), Reaching(l, f, on, inputs),
                     FrontAfter(l, f, PacketsOf(inputs)).sample)
    decreases |inputs|
  {
    var f := Run(l, 0, INITIAL_STATE, a).front;
    if inputs == [] {
      assert f.sample + [] == f.sample;
    } else {
      var more := PacketsOf(inputs[1..]);
      match inputs[0]
      case SetCallback(on') =>
        assert [] + more == more;
        ReachingInRun(l, a, on', inputs[1..]);
      case Arrive(p) =>
        assert PacketsOf(inputs)[1..] == more;
        var g := FrontPacket(l, f, p).0;
        EffectInRun(l, a, p);
        PacketsAfter(a, p);
        PacketPcr(f, p);
        ClockAfter(l, 0, a + [Arrive(p)]);
        ReachingInRun(l, a + [Arrive(p)], on, inputs[1..]);
        PacketStep(l, f, StartsSample(l, PacketsOf(a), p) || AddsToSample(l, PacketsOf(a), p), p, g,
                   FrontPacket(l, f, p).1, on, KlvStream(l, PacketsOf(a) + [p], g.pcr, on, inputs[1..]),
                   Reaching(l, g, on, inputs[1..]), FrontAfter(l, g, more).sample);
    }
  }

  /** Every run from the start, with any number of PIDs carrying KLV, listed in the PAT or not: what is
      delivered, counted and left pending are the segments of the packets that start or add to the sample,
      each closed by the start packet after it, gated, taken apart, parsed and put out. */
  lemma {:induction false} EveryRun(l: Library, interval: uint64, inputs: seq<Input>)
    ensures var stream := KlvStream(l, [], [0, 0, 0, 0, 0, 0], false, inputs);
            var segments := Segments(l, stream);
            var closed := Closed(l, segments, Openers(l, stream));
            var jobs := Work(l, interval, 0, closed);
            var end := Run(l, interval, INITIAL_STATE, inputs);
            && end.back.delivered == Trees(l, LOCAL_SET, jobs)
            && end.back.readCount == |jobs| == Sum(PieceCounts(l, Accepted(interval, 0, closed)))
            && end.front.sample == segments[|segments| - 1]
  {
    var stream := KlvStream(l, [], [0, 0, 0, 0, 0, 0], false, inputs);
    ReachingInRun(l, [], false, inputs);
    NothingPending(Segments(l, stream));
    FrontOfRun(l, interval, INITIAL_STATE, inputs);
    BackOfRun(l, interval, INITIAL_STATE, inputs);
    Delivered(l, interval, INITIAL_BACK, Reaching(l, INITIAL_FRONT, false, inputs));
    WorkCount(l, interval, 0, Reaching(l, INITIAL_FRONT, false, inputs));
  }
}
