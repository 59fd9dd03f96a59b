/** What the back end counts and delivers over a whole run. */
module Delivery {
  import opened Basics
  import opened PropertyTree
  import opened KlvParser
  import opened DemuxSpec
  import opened Reassembly
  import RateGate

  // ----- Jobs

  /** A piece of a sample that is parsed and put out, and whether a callback is set when it is. */
  datatype Job = Job(unit: seq<byte>, heard: bool)

  /** How many pieces of a sample are parsed: each of its AU cells if it is one of a metadata stream
      (stream id 0xFC) that has any, the whole sample if it is another of those or one of a private
      stream (0xBD), and none for any other stream id. */
  function PieceCount(l: Library, s: Sample): nat {
    if s.streamId == 0xFC && l.cells(s.data) != [] then |l.cells(s.data)|
    else if s.streamId == 0xFC || s.streamId == 0xBD then 1
    else 0
  }

  function Piece(l: Library, s: Sample, k: nat): seq<byte>
    requires k < PieceCount(l, s)
  {
    if s.streamId == 0xFC && l.cells(s.data) != [] then l.cells(s.data)[k] else s.data
  }

  function Pieces(l: Library, s: Sample): seq<seq<byte>> {
    seq(PieceCount(l, s), k requires 0 <= k < PieceCount(l, s) => Piece(l, s, k))
  }

  lemma UnitsArePieces(l: Library, s: Sample)
    ensures Units(l, s) == Pieces(l, s)
  {
    assert |Units(l, s)| == PieceCount(l, s);
    forall k | 0 <= k < PieceCount(l, s) ensures Units(l, s)[k] == Piece(l, s, k) {
    }
  }

  function Jobs(units: seq<seq<byte>>, heard: bool): (jobs: seq<Job>)
    ensures |jobs| == |units|
  {
    if units == [] then [] else Jobs(units[..|units| - 1], heard) + [Job(units[|units| - 1], heard)]
  }

  /** The samples that pass the gate. */
  function Accepted(interval: uint64, time: uint64, rs: seq<Reached>): seq<Sample>
    decreases |rs|
  {
    if rs == [] then []
    else if RateGate.Passes(interval, time, rs[0].sample.clock) then
      [rs[0].sample] + Accepted(interval, rs[0].sample.clock, rs[1..])
    else Accepted(interval, time, rs[1..])
  }

  /** The jobs that come of what reaches the gate: the pieces of the accepted samples, in order. */
  function Work(l: Library, interval: uint64, time: uint64, rs: seq<Reached>): seq<Job>
    decreases |rs|
  {
    if rs == [] then []
    else
      var s := rs[0].sample;
      if RateGate.Passes(interval, time, s.clock) then
        Jobs(Pieces(l, s), rs[0].heard) + Work(l, interval, s.clock, rs[1..])
      else Work(l, interval, time, rs[1..])
  }

  function PieceCounts(l: Library, samples: seq<Sample>): seq<nat> {
    if samples == [] then [] else [PieceCount(l, samples[0])] + PieceCounts(l, samples[1..])
  }

  /** The number of jobs is the sum, over the accepted samples, of what each contributes. */
  lemma {:induction false} WorkCount(l: Library, interval: uint64, time: uint64, rs: seq<Reached>)
    ensures |Work(l, interval, time, rs)| == Sum(PieceCounts(l, Accepted(interval, time, rs)))
    decreases |rs|
  {
    if rs != [] {
      var s := rs[0].sample;
      if RateGate.Passes(interval, time, s.clock) {
        WorkCount(l, interval, s.clock, rs[1..]);
        var more := Accepted(interval, s.clock, rs[1..]);
        assert ([s] + more)[1..] == more;
        assert PieceCounts(l, [s] + more)[1..] == PieceCounts(l, more);
      } else {
        WorkCount(l, interval, time, rs[1..]);
      }
    }
  }

  // ----- What the jobs leave behind

  function TypeAfterJobs(l: Library, t: SetType, jobs: seq<Job>): SetType {
    if jobs == [] then t
    else TypeAfter(TypeAfterJobs(l, t, jobs[..|jobs| - 1]), l.klv(jobs[|jobs| - 1].unit))
  }

  /** The trees given to the callback: each job heard gives the reference output of its own parse. */
  function Trees(l: Library, t: SetType, jobs: seq<Job>): seq<Tree> {
    if jobs == [] then []
    else
      var k := |jobs| - 1;
      Trees(l, t, jobs[..k])
      + if jobs[k].heard then [Output(TypeAfterJobs(l, t, jobs[..k]), l.klv(jobs[k].unit))] else []
  }

  function Heard(jobs: seq<Job>, heard: bool): (n: nat) {
    if jobs == [] then 0
    else Heard(jobs[..|jobs| - 1], heard) + if jobs[|jobs| - 1].heard == heard then 1 else 0
  }

  lemma {:induction false} JobsAppend(l: Library, t: SetType, a: seq<Job>, b: seq<Job>)
    ensures TypeAfterJobs(l, t, a + b) == TypeAfterJobs(l, TypeAfterJobs(l, t, a), b)
    ensures Trees(l, t, a + b) == Trees(l, t, a) + Trees(l, TypeAfterJobs(l, t, a), b)
    decreases |b|
  {
    if b == [] {
      assert a + b == a;
    } else {
      assert (a + b)[..|a + b| - 1] == a + b[..|b| - 1];
      JobsAppend(l, t, a, b[..|b| - 1]);
    }
  }

  /** The back end has done some jobs since it was at `b`. */
  ghost predicate Did(l: Library, b: Back, b': Back, jobs: seq<Job>) {
    && IsClear(b'.parser)
    && b'.parser.setType == TypeAfterJobs(l, b.parser.setType, jobs)
    && b'.readCount == b.readCount + |jobs|
    && b'.delivered == b.delivered + Trees(l, b.parser.setType, jobs)
  }

  lemma DidAppend(l: Library, b: Back, b': Back, b'': Back, x: seq<Job>, y: seq<Job>)
    requires Did(l, b, b', x) && Did(l, b', b'', y)
    ensures Did(l, b, b'', x + y)
  {
    JobsAppend(l, b.parser.setType, x, y);
    Assoc3(b.delivered, Trees(l, b.parser.setType, x), Trees(l, b'.parser.setType, y));
  }

  lemma DeliverDoes(l: Library, b: Back, unit: seq<byte>)
    requires IsClear(b.parser)
    ensures Did(l, b, Deliver(l, b, unit), [Job(unit, b.callback)])
    ensures Deliver(l, b, unit).time == b.time && Deliver(l, b, unit).callback == b.callback
  {
    ParseFromClear(b.parser, l.klv(unit));
    var jobs := [Job(unit, b.callback)];
    assert jobs[..0] == [];
    assert Trees(l, b.parser.setType, jobs) == if b.callback then [Output(b.parser.setType, l.klv(unit))] else [];
  }

  lemma {:induction false} DeliverAllDoes(l: Library, b: Back, units: seq<seq<byte>>)
    requires IsClear(b.parser)
    ensures var b' := DeliverAll(l, b, units);
            Did(l, b, b', Jobs(units, b.callback)) && b'.time == b.time && b'.callback == b.callback
    decreases |units|
  {
    if units == [] {
      assert b.delivered + [] == b.delivered;
    } else {
      var k := |units| - 1;
      var b' := DeliverAll(l, b, units[..k]);
      DeliverAllDoes(l, b, units[..k]);
      DeliverDoes(l, b', units[k]);
      DidAppend(l, b, b', DeliverAll(l, b, units), Jobs(units[..k], b.callback), [Job(units[k], b.callback)]);
    }
  }

  lemma HandleDoes(l: Library, interval: uint64, b: Back, r: Reached)
    requires IsClear(b.parser)
    ensures var b' := ProcessKlv(l, interval, b.(callback := r.heard), r.sample);
            if RateGate.Passes(interval, b.time, r.sample.clock)
            then Did(l, b, b', Jobs(Pieces(l, r.sample), r.heard)) && b'.time == r.sample.clock
            else b' == b.(callback := r.heard)
  {
    UnitsArePieces(l, r.sample);
    DeliverAllDoes(l, b.(callback := r.heard, time := r.sample.clock), Units(l, r.sample));
  }

  /** Whatever reaches the gate, from a cleared parser: the number of reads is the number of jobs, and the
      callback gets the reference output of every job it hears, in order. The parser is cleared again
      at the end, so nothing leaks from one output into a later one. */
  lemma {:induction false} Delivered(l: Library, interval: uint64, b: Back, rs: seq<Reached>)
    requires IsClear(b.parser)
    ensures Did(l, b, HandleAll(l, interval, b, rs), Work(l, interval, b.time, rs))
    decreases |rs|
  {
    if rs == [] {
      assert b.delivered + [] == b.delivered;
    } else {
      var r := rs[0];
      var b' := ProcessKlv(l, interval, b.(callback := r.heard), r.sample);
      HandleDoes(l, interval, b, r);
      Delivered(l, interval, b', rs[1..]);
      if RateGate.Passes(interval, b.time, r.sample.clock) {
        DidAppend(l, b, b', HandleAll(l, interval, b', rs[1..]), Jobs(Pieces(l, r.sample), r.heard),
                  Work(l, interval, r.sample.clock, rs[1..]));
      }
    }
  }

  /** The type of the last set begun in some pieces. */
  function TypeAfterUnits(l: Library, t: SetType, units: seq<seq<byte>>): SetType {
    if units == [] then t
    else TypeAfter(TypeAfterUnits(l, t, units[..|units| - 1]), l.klv(units[|units| - 1]))
  }

  /** The reference output of each piece, parsed after those before it. */
  function OutputsOf(l: Library, t: SetType, units: seq<seq<byte>>): (trees: seq<Tree>)
    ensures |trees| == |units|
  {
    seq(|units|, k requires 0 <= k < |units| => Output(TypeAfterUnits(l, t, units[..k]), l.klv(units[k])))
  }

  lemma OutputsLast(l: Library, t: SetType, more: seq<seq<byte>>, unit: seq<byte>)
    ensures OutputsOf(l, t, more + [unit]) == OutputsOf(l, t, more) + [Output(TypeAfterUnits(l, t, more), l.klv(unit))]
  {
    var units := more + [unit];
    assert units[..|more|] == more;
    forall k | 0 <= k < |more| ensures OutputsOf(l, t, units)[k] == OutputsOf(l, t, more)[k] {
      assert units[..k] == more[..k];
    }
  }

  lemma JobLast(l: Library, t: SetType, jobs: seq<Job>, job: Job)
    ensures TypeAfterJobs(l, t, jobs + [job]) == TypeAfter(TypeAfterJobs(l, t, jobs), l.klv(job.unit))
    ensures Trees(l, t, jobs + [job])
         == Trees(l, t, jobs) + if job.heard then [Output(TypeAfterJobs(l, t, jobs), l.klv(job.unit))] else []
  {
    assert (jobs + [job])[..|jobs|] == jobs;
  }

  /** What the jobs of some pieces leave behind. */
  ghost predicate Leave(l: Library, t: SetType, units: seq<seq<byte>>, heard: bool) {
    && TypeAfterJobs(l, t, Jobs(units, heard)) == TypeAfterUnits(l, t, units)
    && Trees(l, t, Jobs(units, heard)) == if heard then OutputsOf(l, t, units) else []
  }

  lemma NoPieces(l: Library, t: SetType, heard: bool)
    ensures Leave(l, t, [], heard)
  {
  }

  lemma OneMorePiece(l: Library, t: SetType, more: seq<seq<byte>>, unit: seq<byte>, heard: bool)
    requires Leave(l, t, more, heard)
    ensures Leave(l, t, more + [unit], heard)
  {
    assert (more + [unit])[..|more|] == more;
    JobLast(l, t, Jobs(more, heard), Job(unit, heard));
    OutputsLast(l, t, more, unit);
  }

  lemma LastPiece(units: seq<seq<byte>>)
    requires units != []
    ensures units == units[..|units| - 1] + [units[|units| - 1]]
  {
  }

  lemma {:induction false} PiecesLeave(l: Library, t: SetType, units: seq<seq<byte>>, heard: bool)
    ensures Leave(l, t, units, heard)
    decreases |units|
  {
    if units == [] {
      NoPieces(l, t, heard);
    } else {
      var more, unit := units[..|units| - 1], units[|units| - 1];
      LastPiece(units);
      PiecesLeave(l, t, more, heard);
      OneMorePiece(l, t, more, unit, heard);
    }
  }

  /** What a sample that passes the gate adds: as many reads as it has pieces; and with a callback set the
      reference output of each piece, parsed after those before it, in order. */
  lemma {:induction false} AcceptedSample(l: Library, interval: uint64, b: Back, s: Sample)
    requires IsClear(b.parser) && RateGate.Passes(interval, b.time, s.clock)
    ensures var b' := ProcessKlv(l, interval, b, s);
            && b'.readCount == b.readCount + PieceCount(l, s)
            && b'.delivered == b.delivered + if b.callback then OutputsOf(l, b.parser.setType, Pieces(l, s)) else []
  {
    HandleDoes(l, interval, b, Reached(s, b.callback));
    assert b.(callback := b.callback) == b;
    PiecesLeave(l, b.parser.setType, Pieces(l, s), b.callback);
  }

  lemma {:induction false} TreesAreHeard(l: Library, t: SetType, jobs: seq<Job>)
    ensures |Trees(l, t, jobs)| == Heard(jobs, true)
    ensures |jobs| == Heard(jobs, true) + Heard(jobs, false)
    decreases |jobs|
  {
    if jobs != [] {
      TreesAreHeard(l, t, jobs[..|jobs| - 1]);
    }
  }

  /** The reads of a whole run are conserved: they are the units of the accepted samples, and they are
      the trees the callback got together with the outputs made while no callback was set. */
  lemma {:induction false} ReadsConserved(l: Library, interval: uint64, inputs: seq<Input>)
    ensures var rs := Reaching(l, INITIAL_FRONT, false, inputs);
            var jobs := Work(l, interval, 0, rs);
            var end := Run(l, interval, INITIAL_STATE, inputs).back;
            && end.readCount == Sum(PieceCounts(l, Accepted(interval, 0, rs)))
            && end.readCount == |end.delivered| + Heard(jobs, false)
            && end.delivered == Trees(l, LOCAL_SET, jobs)
  {
    var rs := Reaching(l, INITIAL_FRONT, false, inputs);
    var jobs := Work(l, interval, 0, rs);
    BackOfRun(l, interval, INITIAL_STATE, inputs);
    Delivered(l, interval, INITIAL_BACK, rs);
    WorkCount(l, interval, 0, rs);
    TreesAreHeard(l, LOCAL_SET, jobs);
    assert INITIAL_BACK.delivered + Trees(l, LOCAL_SET, jobs) == Trees(l, LOCAL_SET, jobs);
  }

  /** End to end, for a run in which one known PID carries KLV: what is delivered and counted is a
      function of that PID's packets, the clock and the callback alone. The segments between its openers
      are gated, taken apart, parsed and put out, each on its own. */
  lemma {:induction false} DeliveredSegments(l: Library, interval: uint64, st: State, pid: nat, inputs: seq<Input>)
    requires OneKlvPid(l, interval, st, pid, inputs) && IsClear(st.back.parser)
    ensures var closed := Closed(l, SegmentsOf(l, st, pid, inputs), Openers(l, Stream(st, pid, inputs)));
            var jobs := Work(l, interval, st.back.time, closed);
            var end := Run(l, interval, st, inputs).back;
            && end.delivered == st.back.delivered + Trees(l, st.back.parser.setType, jobs)
            && end.readCount == st.back.readCount + |jobs|
            && |jobs| == Sum(PieceCounts(l, Accepted(interval, st.back.time, closed)))
  {
    var closed := Closed(l, SegmentsOf(l, st, pid, inputs), Openers(l, Stream(st, pid, inputs)));
    Reassembled(l, interval, st, pid, inputs);
    Delivered(l, interval, st.back, closed);
    WorkCount(l, interval, st.back.time, closed);
  }
}
