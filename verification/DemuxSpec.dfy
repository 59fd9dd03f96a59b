/** The transport-stream demultiplexer as a state machine over packets: a front end that learns the
    program and cuts the KLV stream into samples, and a back end that gates samples and delivers trees. */
module DemuxSpec {
  import opened Basics
  import opened PropertyTree
  import opened Clock
  import opened PmtProxy
  import opened KlvParser
  import RateGate

  // ----- The packet and the parsing libraries

  datatype AdaptationField = AdaptationField(length: nat, pcrFlag: bool, pcr: Pcr)

  /** A transport packet: `control` is its adaptation_field_control, `payload` its data bytes. */
  datatype Packet = Packet(pid: nat, start: bool, control: byte, adaptation: AdaptationField, payload: seq<byte>)

  /** What parsing a PES header gives: the bytes it took, 0 when it failed, and the stream id. */
  datatype PesHeader = PesHeader(length: nat, streamId: byte)

  /** The parsers of the mp2tp and klvp libraries, as functions of the bytes they are given. */
  datatype RawLibrary = RawLibrary(
    pat: seq<byte> -> map<nat, nat>,            // PID to program number
    pmt: seq<byte> -> Option<Table>,            // None while the section is not complete
    pes: seq<byte> -> PesHeader,
    cells: seq<byte> -> seq<seq<byte>>,         // the data of each metadata AU cell
    klv: seq<byte> -> seq<Event>)               // the callbacks the KLV parser raises

  ghost predicate IsLibrary(l: RawLibrary) {
    forall d :: l.pes(d).length <= |d|
  }

  type Library = l: RawLibrary | IsLibrary(l)
    ghost witness RawLibrary(d => map[], d => None, d => PesHeader(0, 0), d => [], d => [])

  const METADATA_STREAM: byte := 0xFC
  const PRIVATE_STREAM_1: byte := 0xBD

  // ----- The front end

  datatype Front = Front(
    pat: map<nat, nat>,
    pmt: seq<byte>,        // the program map section gathered so far
    program: Program,
    sample: seq<byte>,     // the KLV sample gathered so far
    pcr: Pcr,
    clock: uint64)

  /** A sample as it reaches `processKlv`: its bytes, with the clock and the stream id found there. */
  datatype Sample = Sample(data: seq<byte>, streamId: byte, pcr: Pcr, clock: uint64)

  const ZERO_PCR: Pcr := [0, 0, 0, 0, 0, 0]

  const INITIAL_FRONT := Front(map[], [], INITIAL, [], ZERO_PCR, 0)

  function PcrOf(p: Packet): Option<Pcr> {
    if (p.control == 0x02 || p.control == 0x03) && p.adaptation.length > 0 && p.adaptation.pcrFlag
    then Some(p.adaptation.pcr) else None
  }

  function Clocked(pcr: Pcr): (c: uint64)
    ensures c < 0x2_0000_0000
  {
    ExactError(pcr);
    BaseTimeOf(pcr)
  }

  function Timed(f: Front, pcr: Option<Pcr>): (g: Front)
    ensures g == f.(pcr := g.pcr, clock := g.clock)
  {
    match pcr
    case None => f
    case Some(fields) => f.(pcr := fields, clock := Clocked(fields))
  }

  /** What `updateSystemClock` does. */
  function UpdateClock(f: Front, p: Packet): Front {
    Timed(f, PcrOf(p))
  }

  predicate IsKlva(f: Front, pid: nat) {
    Lookup(f.program.pids, pid) == KLVA
  }

  function GatherPmt(l: Library, f: Front, section: seq<byte>): (g: Front)
    ensures g.pat == f.pat && g.sample == f.sample && g.pcr == f.pcr && g.clock == f.clock
  {
    match l.pmt(section)
    case None => f.(pmt := section)
    case Some(table) => f.(pmt := section, program := Updated(f.program, table))
  }

  /** A start packet of some elementary stream. */
  function StartPes(l: Library, f: Front, p: Packet): (r: (Front, seq<Sample>))
    ensures r.0 == f.(sample := r.0.sample)
  {
    var pes := l.pes(p.payload);
    if pes.length > 0 && IsKlva(f, p.pid) then
      (f.(sample := p.payload[pes.length..]),
       if f.sample != [] then [Sample(f.sample, pes.streamId, f.pcr, f.clock)] else [])
    else (f, [])
  }

  function StartPayload(l: Library, f: Front, p: Packet): (r: (Front, seq<Sample>))
    ensures r.0.pcr == f.pcr && r.0.clock == f.clock
  {
    if p.pid == 0 && f.pat == map[] then (f.(pat := l.pat(p.payload)), [])
    else if p.pid in f.pat then (if f.pat[p.pid] != 0 then GatherPmt(l, f, p.payload) else f, [])
    else StartPes(l, f, p)
  }

  function Payload(l: Library, f: Front, p: Packet): (g: Front)
    ensures g.pat == f.pat && g.pcr == f.pcr && g.clock == f.clock
  {
    var g := if p.pid in f.pat && f.pat[p.pid] != 0 then GatherPmt(l, f, f.pmt + p.payload) else f;
    if IsKlva(g, p.pid) then g.(sample := g.sample + p.payload) else g
  }

  /** One packet: the front end's new state, and the sample that reaches `processKlv`, if any. */
  function FrontPacket(l: Library, f: Front, p: Packet): (r: (Front, seq<Sample>))
    ensures r.0.pcr == UpdateClock(f, p).pcr && r.0.clock == UpdateClock(f, p).clock
  {
    var g := UpdateClock(f, p);
    if p.start then StartPayload(l, g, p) else (Payload(l, g, p), [])
  }

  /** The front end after a run of packets. */
  function FrontAfter(l: Library, f: Front, ps: seq<Packet>): Front
    decreases |ps|
  {
    if ps == [] then f else FrontAfter(l, FrontPacket(l, f, ps[0]).0, ps[1..])
  }

  // ----- The back end

  datatype Back = Back(
    time: uint64,          // the clock at the last sample that passed the gate
    readCount: nat,
    parser: Parser,
    callback: bool,        // a callback is set
    delivered: seq<Tree>)  // what the callback has been given

  const INITIAL_BACK := Back(0, 0, INITIAL_PARSER, false, [])

  function OutputSet(b: Back): Back {
    b.(readCount := b.readCount + 1,
       delivered := if b.callback then b.delivered + [b.parser.klvSet] else b.delivered,
       parser := Cleared(b.parser))
  }

  function Deliver(l: Library, b: Back, unit: seq<byte>): Back {
    OutputSet(b.(parser := OnEvents(b.parser, l.klv(unit))))
  }

  function DeliverAll(l: Library, b: Back, units: seq<seq<byte>>): Back {
    if units == [] then b
    else Deliver(l, DeliverAll(l, b, units[..|units| - 1]), units[|units| - 1])
  }

  /** What is parsed of a sample: its AU cells, or the whole sample when it is not or turns out not to
      be wrapped, or nothing for other stream ids. */
  function Units(l: Library, s: Sample): seq<seq<byte>> {
    if s.streamId == METADATA_STREAM && l.cells(s.data) != [] then l.cells(s.data)
    else if s.streamId == METADATA_STREAM || s.streamId == PRIVATE_STREAM_1 then [s.data]
    else []
  }

  function ProcessKlv(l: Library, interval: uint64, b: Back, s: Sample): Back {
    if RateGate.Passes(interval, b.time, s.clock) then DeliverAll(l, b.(time := s.clock), Units(l, s)) else b
  }

  function ProcessAll(l: Library, interval: uint64, b: Back, samples: seq<Sample>): Back
    decreases |samples|
  {
    if samples == [] then b
    else ProcessAll(l, interval, ProcessKlv(l, interval, b, samples[0]), samples[1..])
  }

  // ----- The whole machine

  datatype State = State(front: Front, back: Back)

  const INITIAL_STATE := State(INITIAL_FRONT, INITIAL_BACK)

  /** What the program does with a demultiplexer: feed it a packet, or set or reset the callback. */
  datatype Input = Arrive(packet: Packet) | SetCallback(on: bool)

  function Step(l: Library, interval: uint64, st: State, i: Input): State {
    match i
    case Arrive(p) =>
      var (f, samples) := FrontPacket(l, st.front, p);
      State(f, ProcessAll(l, interval, st.back, samples))
    case SetCallback(on) => st.(back := st.back.(callback := on))
  }

  function Run(l: Library, interval: uint64, st: State, inputs: seq<Input>): State
    decreases |inputs|
  {
    if inputs == [] then st else Run(l, interval, Step(l, interval, st, inputs[0]), inputs[1..])
  }

  lemma {:induction false} RunAppend(l: Library, interval: uint64, st: State, a: seq<Input>, b: seq<Input>)
    ensures Run(l, interval, st, a + b) == Run(l, interval, Run(l, interval, st, a), b)
    decreases |a|
  {
    if a == [] {
      assert a + b == b;
    } else {
      assert (a + b)[1..] == a[1..] + b;
      RunAppend(l, interval, Step(l, interval, st, a[0]), a[1..], b);
    }
  }

  // ----- A run, seen from its two ends

  /** The packets among the inputs. */
  function PacketsOf(inputs: seq<Input>): seq<Packet> {
    if inputs == [] then []
    else (match inputs[0] case Arrive(p) => [p] case SetCallback(_) => []) + PacketsOf(inputs[1..])
  }

  function Arrivals(ps: seq<Packet>): seq<Input> {
    if ps == [] then [] else [Arrive(ps[0])] + Arrivals(ps[1..])
  }

  /** Whether a callback is set after some inputs. */
  function CallbackAfter(on: bool, inputs: seq<Input>): bool
    decreases |inputs|
  {
    if inputs == [] then on
    else CallbackAfter(match inputs[0] case Arrive(_) => on case SetCallback(on') => on', inputs[1..])
  }

  /** A sample that reaches `processKlv`, and whether a callback is set then. */
  datatype Reached = Reached(sample: Sample, heard: bool)

  function Marked(samples: seq<Sample>, heard: bool): seq<Reached> {
    if samples == [] then [] else [Reached(samples[0], heard)] + Marked(samples[1..], heard)
  }

  /** Everything that reaches `processKlv` in a run. */
  function Reaching(l: Library, f: Front, on: bool, inputs: seq<Input>): seq<Reached>
    decreases |inputs|
  {
    if inputs == [] then []
    else match inputs[0]
      case Arrive(p) => Marked(FrontPacket(l, f, p).1, on) + Reaching(l, FrontPacket(l, f, p).0, on, inputs[1..])
      case SetCallback(on') => Reaching(l, f, on', inputs[1..])
  }

  /** The back end, fed with what reaches it. */
  function HandleAll(l: Library, interval: uint64, b: Back, rs: seq<Reached>): Back
    decreases |rs|
  {
    if rs == [] then b
    else HandleAll(l, interval, ProcessKlv(l, interval, b.(callback := rs[0].heard), rs[0].sample), rs[1..])
  }

  lemma {:induction false} HandleAllAppend(l: Library, interval: uint64, b: Back, x: seq<Reached>, y: seq<Reached>)
    ensures HandleAll(l, interval, b, x + y) == HandleAll(l, interval, HandleAll(l, interval, b, x), y)
    decreases |x|
  {
    if x == [] {
      assert x + y == y;
    } else {
      assert (x + y)[1..] == x[1..] + y;
      HandleAllAppend(l, interval, ProcessKlv(l, interval, b.(callback := x[0].heard), x[0].sample), x[1..], y);
    }
  }

  lemma {:induction false} DeliverAllKeeps(l: Library, b: Back, units: seq<seq<byte>>)
    ensures DeliverAll(l, b, units).time == b.time && DeliverAll(l, b, units).callback == b.callback
  {
    if units != [] {
      DeliverAllKeeps(l, b, units[..|units| - 1]);
    }
  }

  lemma ProcessKlvKeeps(l: Library, interval: uint64, b: Back, s: Sample)
    ensures ProcessKlv(l, interval, b, s).callback == b.callback
    ensures ProcessKlv(l, interval, b, s).time == if RateGate.Passes(interval, b.time, s.clock) then s.clock else b.time
  {
    DeliverAllKeeps(l, b.(time := s.clock), Units(l, s));
  }

  lemma {:induction false} HandleMarked(l: Library, interval: uint64, b: Back, samples: seq<Sample>)
    ensures HandleAll(l, interval, b, Marked(samples, b.callback)) == ProcessAll(l, interval, b, samples)
    ensures ProcessAll(l, interval, b, samples).callback == b.callback
    decreases |samples|
  {
    if samples != [] {
      ProcessKlvKeeps(l, interval, b, samples[0]);
      assert b.(callback := b.callback) == b;
      assert Marked(samples, b.callback)[1..] == Marked(samples[1..], b.callback);
      HandleMarked(l, interval, ProcessKlv(l, interval, b, samples[0]), samples[1..]);
    }
  }

  /** Every run's front end is the front end fed with its packets. */
  lemma {:induction false} FrontOfRun(l: Library, interval: uint64, st: State, inputs: seq<Input>)
    ensures Run(l, interval, st, inputs).front == FrontAfter(l, st.front, PacketsOf(inputs))
    decreases |inputs|
  {
    if inputs != [] {
      var more := PacketsOf(inputs[1..]);
      FrontOfRun(l, interval, Step(l, interval, st, inputs[0]), inputs[1..]);
      match inputs[0]
      case Arrive(p) => assert ([p] + more)[1..] == more;
      case SetCallback(on) => assert [] + more == more;
    }
  }

  /** Every run's back end is the back end fed with what reaches it. */
  lemma {:induction false} BackOfRun(l: Library, interval: uint64, st: State, inputs: seq<Input>)
    ensures Run(l, interval, st, inputs).back
         == HandleAll(l, interval, st.back, Reaching(l, st.front, st.back.callback, inputs))
            .(callback := CallbackAfter(st.back.callback, inputs))
    decreases |inputs|
  {
    if inputs != [] {
      var st' := Step(l, interval, st, inputs[0]);
      BackOfRun(l, interval, st', inputs[1..]);
      match inputs[0]
      case Arrive(p) =>
        var samples := FrontPacket(l, st.front, p).1;
        HandleMarked(l, interval, st.back, samples);
        HandleAllAppend(l, interval, st.back, Marked(samples, st.back.callback),
                        Reaching(l, st'.front, st.back.callback, inputs[1..]));
      case SetCallback(on) =>
    }
  }

  // ----- Invariants

  /** The system clock always shows the last PCR. */
  predicate ClockShowsPcr(f: Front) {
    f.clock == Clocked(f.pcr)
  }

  /** A PAT once learned and a PID once classified stay as they are. */
  ghost predicate Keeps(f: Front, g: Front) {
    && (f.pat != map[] ==> g.pat == f.pat)
    && forall pid <- f.program.pids :: pid in g.program.pids && g.program.pids[pid] == f.program.pids[pid]
  }

  lemma GatherKeeps(l: Library, f: Front, section: seq<byte>)
    ensures Keeps(f, GatherPmt(l, f, section)) && (ClockShowsPcr(f) ==> ClockShowsPcr(GatherPmt(l, f, section)))
  {
    match l.pmt(section)
    case None =>
    case Some(table) =>
      if f.program.version != table.version {
        forall pid | pid in f.program.pids
          ensures pid in Updated(f.program, table).pids && Updated(f.program, table).pids[pid] == f.program.pids[pid]
        {
          InsertAllKeeps(f.program.pids, table.entries, pid);
        }
      }
  }

  lemma StartKeeps(l: Library, f: Front, p: Packet)
    ensures Keeps(f, StartPayload(l, f, p).0) && (ClockShowsPcr(f) ==> ClockShowsPcr(StartPayload(l, f, p).0))
  {
    if p.pid == 0 && f.pat == map[] {
    } else if p.pid in f.pat {
      GatherKeeps(l, f, p.payload);
    } else {
      assert StartPes(l, f, p).0.program == f.program;
    }
  }

  lemma PayloadKeeps(l: Library, f: Front, p: Packet)
    ensures Keeps(f, Payload(l, f, p)) && (ClockShowsPcr(f) ==> ClockShowsPcr(Payload(l, f, p)))
  {
    GatherKeeps(l, f, f.pmt + p.payload);
  }

  lemma FrontInvariant(l: Library, f: Front, p: Packet)
    requires ClockShowsPcr(f)
    ensures ClockShowsPcr(FrontPacket(l, f, p).0) && Keeps(f, FrontPacket(l, f, p).0)
  {
    var g := UpdateClock(f, p);
    StartKeeps(l, g, p);
    PayloadKeeps(l, g, p);
    KeepsTransitive(f, g, FrontPacket(l, f, p).0);
  }

  lemma {:induction false} FrontInvariants(l: Library, f: Front, ps: seq<Packet>)
    requires ClockShowsPcr(f)
    ensures ClockShowsPcr(FrontAfter(l, f, ps)) && Keeps(f, FrontAfter(l, f, ps))
    decreases |ps|
  {
    if ps != [] {
      var g := FrontPacket(l, f, ps[0]).0;
      FrontInvariant(l, f, ps[0]);
      FrontInvariants(l, g, ps[1..]);
      KeepsTransitive(f, g, FrontAfter(l, g, ps[1..]));
    }
  }

  lemma KeepsTransitive(f: Front, g: Front, h: Front)
    requires Keeps(f, g) && Keeps(g, h)
    ensures Keeps(f, h)
  {
  }

  /** Over any run, the system clock shows the last PCR, a PAT once learned stays, and a classified PID
      stays as it is. */
  lemma RunInvariants(l: Library, interval: uint64, st: State, inputs: seq<Input>)
    requires ClockShowsPcr(st.front)
    ensures ClockShowsPcr(Run(l, interval, st, inputs).front) && Keeps(st.front, Run(l, interval, st, inputs).front)
  {
    FrontOfRun(l, interval, st, inputs);
    FrontInvariants(l, st.front, PacketsOf(inputs));
  }

  // ----- The PCR in force

  /** The packet carries a PCR, by section 2.4.3 of ISO/IEC 13818-1: the adaptation bit of its two-bit
      adaptation_field_control is set, the field is not empty, and its PCR flag is set. */
  predicate CarriesPcr(p: Packet) {
    p.control < 4 && p.control / 2 % 2 == 1 && p.adaptation.length > 0 && p.adaptation.pcrFlag
  }

  function CarriedPcr(p: Packet): Option<Pcr> {
    if CarriesPcr(p) then Some(p.adaptation.pcr) else None
  }

  function PcrNow(pcr: Pcr, p: Packet): Pcr {
    if CarriesPcr(p) then p.adaptation.pcr else pcr
  }

  lemma PacketPcr(f: Front, p: Packet)
    ensures UpdateClock(f, p).pcr == PcrNow(f.pcr, p)
    ensures PcrOf(p) == CarriedPcr(p)
  {
    assert p.control < 4 && p.control / 2 % 2 == 1 <==> p.control == 2 || p.control == 3;
  }

  /** The PCR in force after some packets: the last one carried, if any was. */
  function PcrAfter(pcr: Pcr, ps: seq<Packet>): Pcr
    decreases |ps|
  {
    if ps == [] then pcr else PcrAfter(PcrNow(pcr, ps[0]), ps[1..])
  }

  lemma {:induction false} PcrOfFront(l: Library, f: Front, ps: seq<Packet>)
    ensures FrontAfter(l, f, ps).pcr == PcrAfter(f.pcr, ps)
    decreases |ps|
  {
    if ps != [] {
      PacketPcr(f, ps[0]);
      PcrOfFront(l, FrontPacket(l, f, ps[0]).0, ps[1..]);
    }
  }

  /** Packet `k` is the last to carry a PCR. */
  predicate LastCarrier(ps: seq<Packet>, k: nat) {
    k < |ps| && CarriesPcr(ps[k]) && forall j :: k < j < |ps| ==> !CarriesPcr(ps[j])
  }

  lemma {:induction false} PcrAfterLast(pcr: Pcr, ps: seq<Packet>)
    ensures forall k: nat :: LastCarrier(ps, k) ==> PcrAfter(pcr, ps) == ps[k].adaptation.pcr
    ensures (forall k :: 0 <= k < |ps| ==> !CarriesPcr(ps[k])) ==> PcrAfter(pcr, ps) == pcr
    decreases |ps|
  {
    if ps != [] {
      var more := ps[1..];
      PcrAfterLast(PcrNow(pcr, ps[0]), more);
      forall k: nat | LastCarrier(ps, k) ensures PcrAfter(pcr, ps) == ps[k].adaptation.pcr {
        if k > 0 {
          assert LastCarrier(more, k - 1);
        }
      }
    }
  }

  /** After any run from the start the clock shows the last PCR that was carried, its base rounded down to
      even; and 0 if none was. */
  lemma {:induction false} LastPcr(l: Library, interval: uint64, inputs: seq<Input>)
    ensures var ps := PacketsOf(inputs);
            var f := Run(l, interval, INITIAL_STATE, inputs).front;
            && (forall k: nat :: LastCarrier(ps, k) ==> f.pcr == ps[k].adaptation.pcr)
            && ((forall k :: 0 <= k < |ps| ==> !CarriesPcr(ps[k])) ==> f.pcr == [0, 0, 0, 0, 0, 0] && f.clock == 0)
            && f.clock == StandardBase(f.pcr) - StandardBase(f.pcr) % 2
  {
    var ps := PacketsOf(inputs);
    ClockAtStart();
    FrontOfRun(l, interval, INITIAL_STATE, inputs);
    FrontInvariants(l, INITIAL_FRONT, ps);
    PcrOfFront(l, INITIAL_FRONT, ps);
    PcrAfterLast(ZERO_PCR, ps);
    ExactError(FrontAfter(l, INITIAL_FRONT, ps).pcr);
  }

  lemma ClockAtStart()
    ensures ClockShowsPcr(INITIAL_FRONT)
  {
  }
}
