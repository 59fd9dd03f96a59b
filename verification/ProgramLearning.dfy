/** What the demultiplexer knows about the program after any run from the start. */
module ProgramLearning {
  import opened Basics
  import opened PmtProxy
  import opened DemuxSpec
  import opened ProgramTables

  predicate BringsPat(l: Library, p: Packet) {
    p.start && p.pid == 0 && l.pat(p.payload) != map[]
  }

  /** The first program association table of a run that lists anything. */
  function FirstPat(l: Library, ps: seq<Packet>): map<nat, nat> {
    if ps == [] then map[]
    else if BringsPat(l, ps[0]) then l.pat(ps[0].payload)
    else FirstPat(l, ps[1..])
  }

  /** The packets after the one that brought it. */
  function AfterPat(l: Library, ps: seq<Packet>): seq<Packet> {
    if ps == [] then []
    else if BringsPat(l, ps[0]) then ps[1..]
    else AfterPat(l, ps[1..])
  }

  /** The tables that come out of a series of program map packets: a start packet begins a section, any
      other adds to it, and each packet that leaves a complete section gives a table. */
  function Parsed(l: Library, section: seq<byte>, ps: seq<Packet>): seq<Table>
    decreases |ps|
  {
    if ps == [] then []
    else
      var now := if ps[0].start then ps[0].payload else section + ps[0].payload;
      (match l.pmt(now) case Some(table) => [table] case None => []) + Parsed(l, now, ps[1..])
  }

  /** All the tables seen in a run from the start. */
  function TablesSeen(l: Library, ps: seq<Packet>): seq<Table> {
    Parsed(l, [], PmtPackets(FirstPat(l, ps), AfterPat(l, ps)))
  }

  lemma ParsedStep(l: Library, f: Front, p: Packet, more: seq<Packet>)
    requires IsPmtPid(f.pat, p.pid)
    ensures var g := TablesAfter(l, f, p);
            UpdatedAll(f.program, Parsed(l, f.pmt, [p] + more)) == UpdatedAll(g.program, Parsed(l, g.pmt, more))
  {
    assert ([p] + more)[1..] == more;
    var g := TablesAfter(l, f, p);
    match l.pmt(g.pmt)
    case None =>
      assert [] + Parsed(l, g.pmt, more) == Parsed(l, g.pmt, more);
    case Some(table) =>
      assert ([table] + Parsed(l, g.pmt, more))[1..] == Parsed(l, g.pmt, more);
  }

  /** Once there is a PAT, the program follows from the tables alone, and the PAT stays. */
  lemma {:induction false} ProgramFollowsTables(l: Library, f: Front, ps: seq<Packet>)
    requires f.pat != map[]
    ensures FrontAfter(l, f, ps).pat == f.pat
    ensures FrontAfter(l, f, ps).program == UpdatedAll(f.program, Parsed(l, f.pmt, PmtPackets(f.pat, ps)))
    decreases |ps|
  {
    if ps != [] {
      var g := FrontPacket(l, f, ps[0]).0;
      PacketTables(l, f, ps[0]);
      ProgramFollowsTables(l, g, ps[1..]);
      var more := PmtPackets(f.pat, ps[1..]);
      if IsPmtPid(f.pat, ps[0].pid) {
        ParsedStep(l, f, ps[0], more);
      } else {
        assert [] + more == more;
      }
    }
  }

  /** Before there is a PAT, a packet changes the tables only by bringing one. */
  lemma BeforePat(l: Library, f: Front, p: Packet)
    requires f.pat == map[]
    ensures SameTables(FrontPacket(l, f, p).0, f.(pat := if p.start && p.pid == 0 then l.pat(p.payload) else map[]))
  {
    var g := UpdateClock(f, p);
    if p.start && p.pid != 0 {
      assert StartPayload(l, g, p) == StartPes(l, g, p);
    }
  }

  lemma {:induction false} LearnedFrom(l: Library, f: Front, ps: seq<Packet>)
    requires f.pat == map[]
    ensures FrontAfter(l, f, ps).pat == FirstPat(l, ps)
    ensures FrontAfter(l, f, ps).program
         == UpdatedAll(f.program, Parsed(l, f.pmt, PmtPackets(FirstPat(l, ps), AfterPat(l, ps))))
    decreases |ps|
  {
    if ps != [] {
      BeforePat(l, f, ps[0]);
      var g := FrontPacket(l, f, ps[0]).0;
      if BringsPat(l, ps[0]) {
        ProgramFollowsTables(l, g, ps[1..]);
      } else {
        LearnedFrom(l, g, ps[1..]);
      }
    }
  }

  /** In any run, once there is a PAT, the program is what the tables that parse make of it, in order. */
  lemma {:induction false} ProgramOfRun(l: Library, interval: uint64, st: State, inputs: seq<Input>)
    requires st.front.pat != map[]
    ensures var end := Run(l, interval, st, inputs).front;
            && end.pat == st.front.pat
            && end.program == UpdatedAll(st.front.program,
                                         Parsed(l, st.front.pmt, PmtPackets(st.front.pat, PacketsOf(inputs))))
  {
    FrontOfRun(l, interval, st, inputs);
    ProgramFollowsTables(l, st.front, PacketsOf(inputs));
  }

  /** The first entry to announce the PID, among the tables whose version differed from the table
      before, announces it as KLV. */
  ghost predicate AnnouncedKlv(l: Library, ps: seq<Packet>, pid: nat) {
    var e := Effective(NO_VERSION, TablesSeen(l, ps));
    exists k: nat :: Announces(e, k, pid) && Classify(e[k]) == Some(KLVA) && forall j: nat :: j < k ==> !Announces(e, j, pid)
  }

  /** After any run from the start: the PAT is the first one that lists anything; and a PID carries KLV
      exactly when its first effective announcement says so. */
  lemma {:induction false} KlvPids(l: Library, interval: uint64, inputs: seq<Input>, pid: nat)
    ensures Run(l, interval, INITIAL_STATE, inputs).front.pat == FirstPat(l, PacketsOf(inputs))
    ensures IsKlva(Run(l, interval, INITIAL_STATE, inputs).front, pid) <==> AnnouncedKlv(l, PacketsOf(inputs), pid)
  {
    var ps := PacketsOf(inputs);
    FrontOfRun(l, interval, INITIAL_STATE, inputs);
    LearnedFrom(l, INITIAL_FRONT, ps);
    KlvHistory(l, ps, pid);
  }

  lemma KlvHistory(l: Library, ps: seq<Packet>, pid: nat)
    ensures Lookup(UpdatedAll(INITIAL, TablesSeen(l, ps)).pids, pid) == KLVA <==> AnnouncedKlv(l, ps, pid)
  {
    var e := Effective(NO_VERSION, TablesSeen(l, ps));
    History(TablesSeen(l, ps), pid);
    if Lookup(UpdatedAll(INITIAL, TablesSeen(l, ps)).pids, pid) == KLVA {
      var k: nat :| Announces(e, k, pid);
      var first := FirstAnnouncement(e, pid, k);
    }
  }
}
