/** Whole runs from the start in which one PID carries KLV: what comes out, as a function of the inputs. */
module WholeRuns {
  import opened Basics
  import opened KlvParser
  import opened DemuxSpec
  import opened Reassembly
  import opened ProgramTables
  import opened ProgramLearning
  import opened Delivery
  import PmtProxy

  /** The packets make the PID known as one that carries KLV, and the PAT does not list it. */
  ghost predicate LearnsKlv(l: Library, ps: seq<Packet>, pid: nat) {
    FirstPat(l, ps) != map[] && pid !in FirstPat(l, ps) && AnnouncedKlv(l, ps, pid)
  }

  ghost predicate OnlyAnnounced(l: Library, ps: seq<Packet>, pid: nat) {
    forall other :: AnnouncedKlv(l, ps, other) ==> other == pid
  }

  lemma KnownOfRun(l: Library, interval: uint64, inputs: seq<Input>, pid: nat)
    ensures Known(Run(l, interval, INITIAL_STATE, inputs).front, pid) <==> LearnsKlv(l, PacketsOf(inputs), pid)
  {
    KlvPids(l, interval, inputs, pid);
  }

  lemma OnlyOfRun(l: Library, interval: uint64, inputs: seq<Input>, pid: nat)
    ensures OnlyKlva(Run(l, interval, INITIAL_STATE, inputs).front, pid) <==> OnlyAnnounced(l, PacketsOf(inputs), pid)
  {
    var end := Run(l, interval, INITIAL_STATE, inputs).front;
    forall other: nat
      ensures IsKlva(end, other) <==> AnnouncedKlv(l, PacketsOf(inputs), other)
    {
      KlvPids(l, interval, inputs, other);
    }
    if OnlyAnnounced(l, PacketsOf(inputs), pid) {
      forall other | other in end.program.pids && end.program.pids[other] == PmtProxy.KLVA ensures other == pid {
        assert IsKlva(end, other);
      }
    }
  }

  /** In a run from the start, cut anywhere, the state at the cut knows one KLV PID for the remainder
      exactly when the packets before the cut announce it and those of the whole run announce no other. */
  lemma {:induction false} OneKlvPidOfRun(l: Library, interval: uint64, a: seq<Input>, b: seq<Input>, pid: nat)
    ensures OneKlvPid(l, interval, Run(l, interval, INITIAL_STATE, a), pid, b)
       <==> LearnsKlv(l, PacketsOf(a), pid) && OnlyAnnounced(l, PacketsOf(a + b), pid)
  {
    ClockAfter(l, interval, a);
    KnownOfRun(l, interval, a, pid);
    OnlyAtEnd(l, interval, a, b, pid);
    KnownAndOnly(l, interval, Run(l, interval, INITIAL_STATE, a), pid, b,
                 LearnsKlv(l, PacketsOf(a), pid), OnlyAnnounced(l, PacketsOf(a + b), pid));
  }

  lemma ClockAfter(l: Library, interval: uint64, inputs: seq<Input>)
    ensures ClockShowsPcr(Run(l, interval, INITIAL_STATE, inputs).front)
  {
    ClockAtStart();
    FrontOfRun(l, interval, INITIAL_STATE, inputs);
    FrontInvariants(l, INITIAL_FRONT, PacketsOf(inputs));
  }

  lemma OnlyAtEnd(l: Library, interval: uint64, a: seq<Input>, b: seq<Input>, pid: nat)
    ensures OnlyKlva(Run(l, interval, Run(l, interval, INITIAL_STATE, a), b).front, pid)
       <==> OnlyAnnounced(l, PacketsOf(a + b), pid)
  {
    RunAppend(l, interval, INITIAL_STATE, a, b);
    OnlyOfRun(l, interval, a + b, pid);
  }

  lemma KnownAndOnly(l: Library, interval: uint64, st: State, pid: nat, inputs: seq<Input>, known: bool, only: bool)
    requires ClockShowsPcr(st.front)
    requires Known(st.front, pid) <==> known
    requires OnlyKlva(Run(l, interval, st, inputs).front, pid) <==> only
    ensures OneKlvPid(l, interval, st, pid, inputs) <==> known && only
  {
  }

  // ----- Nothing happens before a PID carries KLV

  ghost predicate NoKlva(f: Front) {
    forall pid: nat :: !IsKlva(f, pid)
  }

  /** A packet that does not itself turn its PID into one that carries KLV leaves the sample alone. */
  lemma QuietPacket(l: Library, f: Front, p: Packet)
    requires NoKlva(f) && (p.start || !IsKlva(FrontPacket(l, f, p).0, p.pid))
    ensures FrontPacket(l, f, p).0.sample == f.sample && FrontPacket(l, f, p).1 == []
  {
    var now := UpdateClock(f, p);
    if p.start {
      assert !IsKlva(f, p.pid) && !IsKlva(now, p.pid);
    }
  }

  lemma NoKlvaBefore(f: Front, g: Front)
    requires Keeps(f, g) && NoKlva(g)
    ensures NoKlva(f)
  {
    forall pid: nat ensures !IsKlva(f, pid) {
      assert !IsKlva(g, pid);
    }
  }

  lemma {:induction false} Quiet(l: Library, f: Front, on: bool, inputs: seq<Input>)
    requires ClockShowsPcr(f) && NoKlva(FrontAfter(l, f, PacketsOf(inputs)))
    ensures FrontAfter(l, f, PacketsOf(inputs)).sample == f.sample
    ensures Reaching(l, f, on, inputs) == []
    decreases |inputs|
  {
    if inputs != [] {
      var more := PacketsOf(inputs[1..]);
      match inputs[0]
      case SetCallback(on') =>
        assert [] + more == more;
        Quiet(l, f, on', inputs[1..]);
      case Arrive(p) =>
        assert PacketsOf(inputs)[1..] == more;
        var g := FrontPacket(l, f, p).0;
        QuietStep(l, f, p, more);
        Quiet(l, g, on, inputs[1..]);
    }
  }

  lemma QuietStep(l: Library, f: Front, p: Packet, more: seq<Packet>)
    requires ClockShowsPcr(f) && NoKlva(FrontAfter(l, FrontPacket(l, f, p).0, more))
    ensures ClockShowsPcr(FrontPacket(l, f, p).0)
    ensures FrontPacket(l, f, p).0.sample == f.sample && FrontPacket(l, f, p).1 == []
  {
    var g := FrontPacket(l, f, p).0;
    FrontInvariant(l, f, p);
    FrontInvariants(l, g, more);
    NoKlvaBefore(g, FrontAfter(l, g, more));
    NoKlvaBefore(f, g);
    QuietPacket(l, f, p);
  }

  /** Only a program map packet can turn its own PID into one that carries KLV. */
  lemma OnlyTablesTeach(l: Library, f: Front, p: Packet)
    requires !p.start && !IsKlva(f, p.pid) && !IsPmtPid(f.pat, p.pid)
    ensures !IsKlva(FrontPacket(l, f, p).0, p.pid)
  {
  }

  /** The packet that makes the PID known leaves the sample alone too. */
  lemma LearningPacket(l: Library, f: Front, p: Packet, pid: nat)
    requires NoKlva(f) && Known(FrontPacket(l, f, p).0, pid) && OnlyKlva(FrontPacket(l, f, p).0, pid)
    ensures FrontPacket(l, f, p).0.sample == f.sample && FrontPacket(l, f, p).1 == []
  {
    if !p.start && p.pid == pid {
      assert FrontPacket(l, f, p).0.pat == f.pat;
      assert !IsKlva(f, p.pid);
    }
    if !p.start && p.pid != pid {
      assert !IsKlva(FrontPacket(l, f, p).0, p.pid);
    } else if !p.start {
      OnlyTablesTeach(l, f, p);
    }
    QuietPacket(l, f, p);
  }

  lemma {:induction false} QuietRun(l: Library, interval: uint64, inputs: seq<Input>)
    requires forall pid :: !AnnouncedKlv(l, PacketsOf(inputs), pid)
    ensures var st := Run(l, interval, INITIAL_STATE, inputs);
            && ClockShowsPcr(st.front) && NoKlva(st.front) && st.front.sample == []
            && st.front.pcr == PcrAfter(ZERO_PCR, PacketsOf(inputs))
            && st.back == INITIAL_BACK.(callback := CallbackAfter(false, inputs))
  {
    var st := Run(l, interval, INITIAL_STATE, inputs);
    forall pid: nat ensures !IsKlva(st.front, pid) {
      KlvPids(l, interval, inputs, pid);
    }
    ClockAtStart();
    ClockAfter(l, interval, inputs);
    FrontOfRun(l, interval, INITIAL_STATE, inputs);
    BackOfRun(l, interval, INITIAL_STATE, inputs);
    PcrOfFront(l, INITIAL_FRONT, PacketsOf(inputs));
    Quiet(l, INITIAL_FRONT, false, inputs);
  }

  /** The last packet of `a + [p]` is the first to make any PID known as one that carries KLV. */
  ghost predicate Learning(l: Library, a: seq<Input>, p: Packet, pid: nat) {
    && (forall other :: !AnnouncedKlv(l, PacketsOf(a), other))
    && LearnsKlv(l, PacketsOf(a + [Arrive(p)]), pid)
  }

  lemma {:induction false} StateWhenLearned(l: Library, interval: uint64, a: seq<Input>, p: Packet, pid: nat)
    requires Learning(l, a, p, pid)
    requires OnlyKlva(Run(l, interval, INITIAL_STATE, a + [Arrive(p)]).front, pid)
    ensures var head := a + [Arrive(p)];
            var st := Run(l, interval, INITIAL_STATE, head);
            && st.front.sample == [] && st.front.pcr == PcrAfter(ZERO_PCR, PacketsOf(head))
            && st.back == INITIAL_BACK.(callback := CallbackAfter(false, head))
  {
    var head := a + [Arrive(p)];
    var before := Run(l, interval, INITIAL_STATE, a);
    QuietRun(l, interval, a);
    KnownOfRun(l, interval, head, pid);
    LastStep(l, interval, a, p);
    LearningPacket(l, before.front, p, pid);
    FrontOfRun(l, interval, INITIAL_STATE, head);
    PcrOfFront(l, INITIAL_FRONT, PacketsOf(head));
    BackOfRun(l, interval, INITIAL_STATE, head);
  }

  lemma LastStep(l: Library, interval: uint64, a: seq<Input>, p: Packet)
    ensures Run(l, interval, INITIAL_STATE, a + [Arrive(p)])
         == Step(l, interval, Run(l, interval, INITIAL_STATE, a), Arrive(p))
  {
    RunAppend(l, interval, INITIAL_STATE, a, [Arrive(p)]);
    assert [Arrive(p)][1..] == [];
  }

  // ----- Where a run learns its KLV PID

  /** What some inputs announce stays announced, and so does the PAT they bring. */
  lemma AnnouncedStays(l: Library, a: seq<Input>, b: seq<Input>, pid: nat)
    ensures AnnouncedKlv(l, PacketsOf(a), pid) ==> AnnouncedKlv(l, PacketsOf(a + b), pid)
    ensures FirstPat(l, PacketsOf(a)) != map[] ==> FirstPat(l, PacketsOf(a + b)) == FirstPat(l, PacketsOf(a))
  {
    LearnedStays(l, a, b, pid);
    KlvPids(l, 0, a, pid);
    KlvPids(l, 0, a + b, pid);
  }

  lemma LearnedStays(l: Library, a: seq<Input>, b: seq<Input>, pid: nat)
    ensures var f, g := Run(l, 0, INITIAL_STATE, a).front, Run(l, 0, INITIAL_STATE, a + b).front;
            (IsKlva(f, pid) ==> IsKlva(g, pid)) && (f.pat != map[] ==> g.pat == f.pat)
  {
    var st := Run(l, 0, INITIAL_STATE, a);
    ClockAfter(l, 0, a);
    RunAppend(l, 0, INITIAL_STATE, a, b);
    RunInvariants(l, 0, st, b);
  }

  lemma NothingWithoutPat(l: Library, ps: seq<Packet>, pid: nat)
    requires AnnouncedKlv(l, ps, pid)
    ensures FirstPat(l, ps) != map[]
  {
    if FirstPat(l, ps) == map[] {
      NoPmtPackets(AfterPat(l, ps));
    }
  }

  lemma {:induction false} NoPmtPackets(ps: seq<Packet>)
    ensures PmtPackets(map[], ps) == []
  {
    if ps != [] {
      NoPmtPackets(ps[1..]);
    }
  }

  ghost predicate LearnsAt(l: Library, inputs: seq<Input>, k: nat, pid: nat) {
    k < |inputs| && inputs[k].Arrive? && Learning(l, inputs[..k], inputs[k].packet, pid)
  }

  /** A run that announces one PID as KLV, which its PAT does not list, learns it at one of its packets. */
  lemma {:induction false} LearningPoint(l: Library, inputs: seq<Input>, pid: nat)
    requires AnnouncedKlv(l, PacketsOf(inputs), pid) && OnlyAnnounced(l, PacketsOf(inputs), pid)
    requires pid !in FirstPat(l, PacketsOf(inputs))
    ensures exists k :: LearnsAt(l, inputs, k, pid)
    decreases |inputs|
  {
    if inputs == [] {
      NothingAnnounced(l, pid);
    } else {
      var n := |inputs| - 1;
      var a, i := inputs[..n], inputs[n];
      assert inputs == a + [i];
      OnlyBefore(l, a, [i], pid);
      if AnnouncedKlv(l, PacketsOf(a), pid) {
        NothingWithoutPat(l, PacketsOf(a), pid);
        AnnouncedStays(l, a, [i], pid);
        LearningPoint(l, a, pid);
        var k :| LearnsAt(l, a, k, pid);
        LearnsAtLonger(l, a, i, k, pid);
      } else {
        LastLearns(l, a, i, pid);
      }
    }
  }

  lemma OnlyBefore(l: Library, a: seq<Input>, b: seq<Input>, pid: nat)
    requires OnlyAnnounced(l, PacketsOf(a + b), pid)
    ensures OnlyAnnounced(l, PacketsOf(a), pid)
  {
    forall other | AnnouncedKlv(l, PacketsOf(a), other) ensures other == pid {
      AnnouncedStays(l, a, b, other);
    }
  }

  lemma LearnsAtLonger(l: Library, a: seq<Input>, i: Input, k: nat, pid: nat)
    requires LearnsAt(l, a, k, pid)
    ensures LearnsAt(l, a + [i], k, pid)
  {
    assert (a + [i])[..k] == a[..k];
  }

  lemma LastLearns(l: Library, a: seq<Input>, i: Input, pid: nat)
    requires OnlyAnnounced(l, PacketsOf(a), pid) && !AnnouncedKlv(l, PacketsOf(a), pid)
    requires AnnouncedKlv(l, PacketsOf(a + [i]), pid) && pid !in FirstPat(l, PacketsOf(a + [i]))
    ensures LearnsAt(l, a + [i], |a|, pid)
  {
    NothingWithoutPat(l, PacketsOf(a + [i]), pid);
    assert (a + [i])[..|a|] == a;
    if i.SetCallback? {
      SameAnnounced(a, i.on);
    }
  }

  lemma NothingAnnounced(l: Library, pid: nat)
    ensures !AnnouncedKlv(l, [], pid)
  {
  }

  lemma {:induction false} SameAnnounced(a: seq<Input>, on: bool)
    ensures PacketsOf(a + [SetCallback(on)]) == PacketsOf(a)
  {
    if a == [] {
      assert a + [SetCallback(on)] == [SetCallback(on)];
      assert [SetCallback(on)][1..] == [];
    } else {
      assert (a + [SetCallback(on)])[1..] == a[1..] + [SetCallback(on)];
      SameAnnounced(a[1..], on);
    }
  }

  // ----- From the first packet to the last

  /** The PID's packets among `b`, stamped, in a run that starts with `head`. */
  function StreamFrom(head: seq<Input>, pid: nat, b: seq<Input>): seq<Stamped> {
    OnPid(pid, Stamp(PcrAfter(ZERO_PCR, PacketsOf(head)), CallbackAfter(false, head), b))
  }

  /** What has come out at the end of a run in which `head` makes the PID known: the segments of that PID's
      packets after `head`, gated, taken apart, parsed and put out; the last one is pending. */
  ghost predicate CameOut(l: Library, interval: uint64, head: seq<Input>, b: seq<Input>, pid: nat, end: State) {
    var stream := StreamFrom(head, pid, b);
    var segments := Segments(l, stream);
    var closed := Closed(l, segments, Openers(l, stream));
    var jobs := Work(l, interval, 0, closed);
    && end.back.delivered == Trees(l, LOCAL_SET, jobs)
    && end.back.readCount == |jobs| == Sum(PieceCounts(l, Accepted(interval, 0, closed)))
    && end.front.sample == segments[|segments| - 1]
  }

  lemma {:induction false} FromLearning(l: Library, interval: uint64, a: seq<Input>, p: Packet, b: seq<Input>, pid: nat)
    requires Learning(l, a, p, pid) && OnlyAnnounced(l, PacketsOf(a + [Arrive(p)] + b), pid)
    ensures CameOut(l, interval, a + [Arrive(p)], b, pid, Run(l, interval, INITIAL_STATE, a + [Arrive(p)] + b))
  {
    var head := a + [Arrive(p)];
    var st := Run(l, interval, INITIAL_STATE, head);
    OneKlvPidOfRun(l, interval, head, b, pid);
    RunInvariants(l, interval, st, b);
    OnlyKlvaBefore(st.front, Run(l, interval, st, b).front, pid);
    StateWhenLearned(l, interval, a, p, pid);
    RunAppend(l, interval, INITIAL_STATE, head, b);
    NothingPending(Segments(l, StreamFrom(head, pid, b)));
    Reassembled(l, interval, st, pid, b);
    DeliveredSegments(l, interval, st, pid, b);
  }

  /** Every run from the start whose packets announce no PID as KLV but one, which the PAT does not list:
      it delivers, counts and leaves pending the segments of that PID's packets after the packet that
      announced it, and nothing else; and nothing at all when none announced it. */
  lemma {:induction false} FromTheStart(l: Library, interval: uint64, inputs: seq<Input>, pid: nat)
    requires OnlyAnnounced(l, PacketsOf(inputs), pid) && pid !in FirstPat(l, PacketsOf(inputs))
    ensures var end := Run(l, interval, INITIAL_STATE, inputs);
            if AnnouncedKlv(l, PacketsOf(inputs), pid)
            then exists k :: LearnsAt(l, inputs, k, pid) && CameOut(l, interval, inputs[..k + 1], inputs[k + 1..], pid, end)
            else end.back.delivered == [] && end.back.readCount == 0 && end.front.sample == []
  {
    if AnnouncedKlv(l, PacketsOf(inputs), pid) {
      LearningPoint(l, inputs, pid);
      var k :| LearnsAt(l, inputs, k, pid);
      CameOutFrom(l, interval, inputs, k, pid);
    } else {
      QuietRun(l, interval, inputs);
    }
  }

  lemma CameOutFrom(l: Library, interval: uint64, inputs: seq<Input>, k: nat, pid: nat)
    requires OnlyAnnounced(l, PacketsOf(inputs), pid) && LearnsAt(l, inputs, k, pid)
    ensures CameOut(l, interval, inputs[..k + 1], inputs[k + 1..], pid, Run(l, interval, INITIAL_STATE, inputs))
  {
    SplitAt(inputs, k);
    FromLearning(l, interval, inputs[..k], inputs[k].packet, inputs[k + 1..], pid);
  }

  lemma SplitAt(inputs: seq<Input>, k: nat)
    requires k < |inputs|
    ensures inputs[..k + 1] == inputs[..k] + [inputs[k]]
    ensures inputs == inputs[..k] + [inputs[k]] + inputs[k + 1..]
  {
  }

  lemma NothingPending(segments: seq<seq<byte>>)
    requires segments != []
    ensures Pending([], segments) == segments
  {
    assert [] + segments[0] == segments[0];
  }
}
