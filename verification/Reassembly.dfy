/** The samples the front end cuts out of a run, against a specification by segments. */
module Reassembly {
  import opened Basics
  import opened Clock
  import opened PmtProxy
  import opened DemuxSpec

  /** A packet, with the PCR in force once it has arrived and whether a callback is set then. */
  datatype Stamped = Stamped(packet: Packet, pcr: Pcr, heard: bool)

  function Stamp(pcr: Pcr, on: bool, inputs: seq<Input>): seq<Stamped>
    decreases |inputs|
  {
    if inputs == [] then []
    else match inputs[0]
      case Arrive(p) => [Stamped(p, PcrNow(pcr, p), on)] + Stamp(PcrNow(pcr, p), on, inputs[1..])
      case SetCallback(on') => Stamp(pcr, on', inputs[1..])
  }

  function OnPid(pid: nat, ss: seq<Stamped>): seq<Stamped> {
    if ss == [] then []
    else (if ss[0].packet.pid == pid then [ss[0]] else []) + OnPid(pid, ss[1..])
  }

  /** A start packet whose PES header parses. */
  predicate Opens(l: Library, p: Packet) {
    p.start && l.pes(p.payload).length > 0
  }

  function Openers(l: Library, ss: seq<Stamped>): seq<Stamped> {
    if ss == [] then []
    else (if Opens(l, ss[0].packet) then [ss[0]] else []) + Openers(l, ss[1..])
  }

  /** The bytes of the stream, cut in front of every opener: an opener contributes its payload after
      the PES header, a continuation its whole payload, any other start packet nothing. */
  function Segments(l: Library, ss: seq<Stamped>): (segments: seq<seq<byte>>)
    ensures |segments| == |Openers(l, ss)| + 1
  {
    if ss == [] then [[]]
    else
      var p := ss[0].packet;
      var more := Segments(l, ss[1..]);
      if Opens(l, p) then [[], p.payload[l.pes(p.payload).length..] + more[0]] + more[1..]
      else if !p.start then [p.payload + more[0]] + more[1..]
      else more
  }

  /** Each segment is closed by the opener after it, which also gives it its stream id and clock; empty
      segments are dropped. */
  function Closed(l: Library, segments: seq<seq<byte>>, openers: seq<Stamped>): seq<Reached>
    requires |segments| == |openers| + 1
  {
    if openers == [] then []
    else (if segments[0] == [] then [] else [Closing(l, segments[0], openers[0])])
         + Closed(l, segments[1..], openers[1..])
  }

  /** The sample that an opener makes of the bytes before it. */
  function Closing(l: Library, bytes: seq<byte>, opener: Stamped): Reached {
    Reached(Sample(bytes, l.pes(opener.packet.payload).streamId, opener.pcr, Clocked(opener.pcr)), opener.heard)
  }

  /** The segments of a run when some bytes are already pending. */
  function Pending(bytes: seq<byte>, segments: seq<seq<byte>>): (r: seq<seq<byte>>)
    requires segments != []
    ensures |r| == |segments|
  {
    [bytes + segments[0]] + segments[1..]
  }

  /** The PID's mapping is known, and the PID is not one of the PAT's. */
  predicate Known(f: Front, pid: nat) {
    f.pat != map[] && pid !in f.pat && IsKlva(f, pid)
  }

  predicate OnlyKlva(f: Front, pid: nat) {
    forall other <- f.program.pids :: f.program.pids[other] == KLVA ==> other == pid
  }

  lemma OnlyKlvaBefore(f: Front, g: Front, pid: nat)
    requires Keeps(f, g) && OnlyKlva(g, pid)
    ensures OnlyKlva(f, pid)
  {
  }

  /** What one packet does to the pending sample and what it emits, when it is of the stream or not. */
  ghost predicate Effect(l: Library, f: Front, ofStream: bool, p: Packet, g: Front, out: seq<Sample>) {
    if !ofStream then g.sample == f.sample && out == []
    else if Opens(l, p) then
      && g.sample == p.payload[l.pes(p.payload).length..]
      && out == if f.sample == [] then [] else [Sample(f.sample, l.pes(p.payload).streamId, g.pcr, g.clock)]
    else out == [] && g.sample == f.sample + if p.start then [] else p.payload
  }

  /** A packet of another PID leaves the sample alone and emits nothing. */
  lemma OtherPid(l: Library, f: Front, pid: nat, p: Packet)
    requires Known(f, pid) && p.pid != pid && OnlyKlva(FrontPacket(l, f, p).0, pid) && OnlyKlva(f, pid)
    ensures FrontPacket(l, f, p).0.sample == f.sample && FrontPacket(l, f, p).1 == []
  {
    var g := UpdateClock(f, p);
    if p.start {
      assert !IsKlva(g, p.pid);
    } else {
      assert !IsKlva(Payload(l, g, p), p.pid);
    }
  }

  lemma PacketEffect(l: Library, f: Front, pid: nat, p: Packet)
    requires Known(f, pid) && OnlyKlva(FrontPacket(l, f, p).0, pid) && OnlyKlva(f, pid)
    ensures Effect(l, f, p.pid == pid, p, FrontPacket(l, f, p).0, FrontPacket(l, f, p).1)
  {
    if p.pid != pid {
      OtherPid(l, f, pid, p);
    } else {
      var now := UpdateClock(f, p);
      if p.start {
        assert StartPayload(l, now, p) == StartPes(l, now, p);
        assert f.sample + [] == f.sample;
      }
    }
  }

  lemma OnPidStep(pid: nat, head: Stamped, more: seq<Stamped>)
    ensures OnPid(pid, [head] + more) == (if head.packet.pid == pid then [head] else []) + OnPid(pid, more)
  {
    assert ([head] + more)[1..] == more;
  }

  /** The specification's account of some packets of the PID, with some bytes already pending. */
  ghost predicate Accounts(l: Library, pending: seq<byte>, ss: seq<Stamped>, reached: seq<Reached>, left: seq<byte>) {
    var segments := Pending(pending, Segments(l, ss));
    reached == Closed(l, segments, Openers(l, ss)) && left == segments[|segments| - 1]
  }

  function Body(l: Library, p: Packet): seq<byte>
    requires Opens(l, p)
  {
    p.payload[l.pes(p.payload).length..]
  }

  lemma OpenerUnfolds(l: Library, head: Stamped, more: seq<Stamped>)
    requires Opens(l, head.packet)
    ensures Openers(l, [head] + more) == [head] + Openers(l, more)
    ensures Segments(l, [head] + more) == [[]] + Pending(Body(l, head.packet), Segments(l, more))
  {
    assert ([head] + more)[1..] == more;
  }

  lemma ClosedUnfolds(l: Library, bytes: seq<byte>, segments: seq<seq<byte>>, head: Stamped, openers: seq<Stamped>)
    requires |segments| == |openers| + 1
    ensures Closed(l, [bytes] + segments, [head] + openers)
         == (if bytes == [] then [] else [Closing(l, bytes, head)]) + Closed(l, segments, openers)
  {
    assert ([bytes] + segments)[1..] == segments && ([head] + openers)[1..] == openers;
  }

  /** An opener closes the pending bytes and starts a new segment. */
  lemma OpenerStep(l: Library, pending: seq<byte>, head: Stamped, more: seq<Stamped>, reached: seq<Reached>, left: seq<byte>)
    requires Opens(l, head.packet) && Accounts(l, Body(l, head.packet), more, reached, left)
    ensures var out := if pending == [] then [] else [Closing(l, pending, head)];
            Accounts(l, pending, [head] + more, out + reached, left)
  {
    OpenerUnfolds(l, head, more);
    var after := Pending(Body(l, head.packet), Segments(l, more));
    ClosedUnfolds(l, pending, after, head, Openers(l, more));
    assert Pending(pending, [[]] + after) == [pending] + after by {
      assert ([[]] + after)[1..] == after;
      assert pending + [] == pending;
    }
  }

  /** Any other packet of the PID adds its bytes, if any, to the pending ones. */
  lemma ContinuationStep(l: Library, pending: seq<byte>, head: Stamped, more: seq<Stamped>, reached: seq<Reached>, left: seq<byte>)
    requires !Opens(l, head.packet)
    requires Accounts(l, pending + if head.packet.start then [] else head.packet.payload, more, reached, left)
    ensures Accounts(l, pending, [head] + more, reached, left)
  {
    var ss := [head] + more;
    assert ss[1..] == more;
    var bytes := if head.packet.start then [] else head.packet.payload;
    var tail := Segments(l, more);
    Assoc3(pending, bytes, tail[0]);
    assert Openers(l, ss) == Openers(l, more);
    assert Segments(l, ss) == [bytes + tail[0]] + tail[1..] by {
      assert [] + tail[0] == tail[0];
      assert [tail[0]] + tail[1..] == tail;
    }
    assert Segments(l, ss)[1..] == tail[1..];
    assert Pending(pending, Segments(l, ss)) == Pending(pending + bytes, tail);
  }

  /** What one packet does, in the specification's terms. */
  lemma PacketStep(l: Library, f: Front, ofStream: bool, p: Packet, g: Front, out: seq<Sample>, on: bool,
                   more: seq<Stamped>, reached: seq<Reached>, left: seq<byte>)
    requires ClockShowsPcr(g) && Effect(l, f, ofStream, p, g, out)
    requires Accounts(l, g.sample, more, reached, left)
    ensures Accounts(l, f.sample, (if ofStream then [Stamped(p, g.pcr, on)] else []) + more, Marked(out, on) + reached, left)
  {
    var head := Stamped(p, g.pcr, on);
    MarkedOne(out, on);
    assert [] + reached == reached;
    assert [] + more == more;
    if ofStream {
      if Opens(l, p) {
        OpenerStep(l, f.sample, head, more, reached, left);
      } else {
        ContinuationStep(l, f.sample, head, more, reached, left);
      }
    }
  }

  lemma MarkedOne(out: seq<Sample>, on: bool)
    ensures |out| == 1 ==> Marked(out, on) == [Reached(out[0], on)]
  {
    if |out| == 1 {
      assert out[1..] == [];
    }
  }

  /** What is assumed of a run still holds after its first packet, whose effect is thus known. */
  lemma StillKnown(l: Library, f: Front, pid: nat, p: Packet, more: seq<Packet>)
    requires ClockShowsPcr(f) && Known(f, pid) && OnlyKlva(FrontAfter(l, FrontPacket(l, f, p).0, more), pid)
    ensures var (g, out) := FrontPacket(l, f, p);
            ClockShowsPcr(g) && Known(g, pid) && g.pcr == PcrNow(f.pcr, p) && Effect(l, f, p.pid == pid, p, g, out)
  {
    var g := FrontPacket(l, f, p).0;
    PacketPcr(f, p);
    FrontInvariant(l, f, p);
    FrontInvariants(l, g, more);
    OnlyKlvaBefore(g, FrontAfter(l, g, more), pid);
    OnlyKlvaBefore(f, g, pid);
    PacketEffect(l, f, pid, p);
  }

  lemma {:induction false} ReachingFrom(l: Library, f: Front, on: bool, pid: nat, inputs: seq<Input>)
    requires ClockShowsPcr(f) && Known(f, pid) && OnlyKlva(FrontAfter(l, f, PacketsOf(inputs)), pid)
    ensures Accounts(l, f.sample, OnPid(pid, Stamp(f.pcr, on, inputs)), Reaching(l, f, on, inputs),
                     FrontAfter(l, f, PacketsOf(inputs)).sample)
    decreases |inputs|
  {
    if inputs == [] {
      assert f.sample + [] == f.sample;
    } else {
      var more := PacketsOf(inputs[1..]);
      match inputs[0]
      case SetCallback(on') =>
        assert [] + more == more;
        ReachingFrom(l, f, on', pid, inputs[1..]);
      case Arrive(p) =>
        assert PacketsOf(inputs)[1..] == more;
        var g := FrontPacket(l, f, p).0;
        StillKnown(l, f, pid, p, more);
        ReachingFrom(l, g, on, pid, inputs[1..]);
        var stamps := Stamp(g.pcr, on, inputs[1..]);
        OnPidStep(pid, Stamped(p, g.pcr, on), stamps);
        PacketStep(l, f, p.pid == pid, p, g, FrontPacket(l, f, p).1, on, OnPid(pid, stamps),
                   Reaching(l, g, on, inputs[1..]), FrontAfter(l, g, more).sample);
    }
  }

  /** The packets of the PID in a run from some state, stamped. */
  function Stream(st: State, pid: nat, inputs: seq<Input>): seq<Stamped> {
    OnPid(pid, Stamp(st.front.pcr, st.back.callback, inputs))
  }

  /** The segments of that stream, the first one continuing what is pending in the state. */
  function SegmentsOf(l: Library, st: State, pid: nat, inputs: seq<Input>): seq<seq<byte>> {
    Pending(st.front.sample, Segments(l, Stream(st, pid, inputs)))
  }

  /** The run's state knows one KLV PID, and no other PID becomes one in the run. */
  predicate OneKlvPid(l: Library, interval: uint64, st: State, pid: nat, inputs: seq<Input>) {
    ClockShowsPcr(st.front) && Known(st.front, pid) && OnlyKlva(Run(l, interval, st, inputs).front, pid)
  }

  /** For every run in which one known PID carries KLV, whatever else arrives in between: the back end
      has handled exactly the closed segments of that PID's packets, and the last segment is pending. */
  lemma {:induction false} Reassembled(l: Library, interval: uint64, st: State, pid: nat, inputs: seq<Input>)
    requires OneKlvPid(l, interval, st, pid, inputs)
    ensures var segments := SegmentsOf(l, st, pid, inputs);
            var end := Run(l, interval, st, inputs);
            && end.front.sample == segments[|segments| - 1]
            && end.back == HandleAll(l, interval, st.back, Closed(l, segments, Openers(l, Stream(st, pid, inputs))))
                           .(callback := CallbackAfter(st.back.callback, inputs))
  {
    FrontOfRun(l, interval, st, inputs);
    BackOfRun(l, interval, st, inputs);
    ReachingFrom(l, st.front, st.back.callback, pid, inputs);
  }
}
