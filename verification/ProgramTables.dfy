/** The program map tables depend on the packets that carry them alone, however those are cut. */
module ProgramTables {
  import opened Basics
  import opened PmtProxy
  import opened DemuxSpec

  function Payloads(ps: seq<Packet>): seq<byte> {
    if ps == [] then [] else ps[0].payload + Payloads(ps[1..])
  }

  /** The PID carries program map sections: the PAT lists it under a program other than 0. */
  predicate IsPmtPid(pat: map<nat, nat>, pid: nat) {
    pid in pat && pat[pid] != 0
  }

  /** The packets of the PIDs that carry program map sections. */
  function PmtPackets(pat: map<nat, nat>, ps: seq<Packet>): seq<Packet> {
    if ps == [] then []
    else (if IsPmtPid(pat, ps[0].pid) then [ps[0]] else []) + PmtPackets(pat, ps[1..])
  }

  predicate SameTables(f: Front, g: Front) {
    f.pat == g.pat && f.pmt == g.pmt && f.program == g.program
  }

  /** What a packet does to the tables, on its own. */
  function TablesAfter(l: Library, f: Front, p: Packet): Front {
    if !IsPmtPid(f.pat, p.pid) then f
    else GatherPmt(l, f, if p.start then p.payload else f.pmt + p.payload)
  }

  lemma PacketTables(l: Library, f: Front, p: Packet)
    requires f.pat != map[]
    ensures SameTables(FrontPacket(l, f, p).0, TablesAfter(l, f, p))
  {
    var g := UpdateClock(f, p);
    if p.start {
      StartTables(l, g, p);
    } else {
      PayloadTables(l, g, p);
    }
    GatherAgrees(l, f, g, if p.start then p.payload else f.pmt + p.payload);
  }

  lemma GatherAgrees(l: Library, f: Front, g: Front, section: seq<byte>)
    requires SameTables(f, g)
    ensures SameTables(GatherPmt(l, f, section), GatherPmt(l, g, section))
  {
  }

  lemma StartTables(l: Library, f: Front, p: Packet)
    requires f.pat != map[] && p.start
    ensures SameTables(StartPayload(l, f, p).0, TablesAfter(l, f, p))
  {
    if p.pid !in f.pat {
      assert StartPayload(l, f, p) == StartPes(l, f, p);
    }
  }

  lemma PayloadTables(l: Library, f: Front, p: Packet)
    requires f.pat != map[] && !p.start
    ensures SameTables(Payload(l, f, p), TablesAfter(l, f, p))
  {
  }

  /** Packets of other PIDs, wherever they fall, have no influence on the tables. */
  lemma {:induction false} TablesProjection(l: Library, f: Front, g: Front, ps: seq<Packet>)
    requires f.pat != map[] && SameTables(f, g)
    ensures SameTables(FrontAfter(l, f, ps), FrontAfter(l, g, PmtPackets(f.pat, ps)))
    decreases |ps|
  {
    if ps != [] {
      var p := ps[0];
      var more := PmtPackets(f.pat, ps[1..]);
      PacketTables(l, f, p);
      PacketTables(l, g, p);
      var f' := FrontPacket(l, f, p).0;
      if IsPmtPid(f.pat, p.pid) {
        assert ([p] + more)[1..] == more;
        TablesProjection(l, f', FrontPacket(l, g, p).0, ps[1..]);
      } else {
        assert [] + more == more;
        TablesProjection(l, f', g, ps[1..]);
      }
    }
  }

  /** Two runs with the same program map packets, whatever else arrives, leave the same tables. */
  lemma {:induction false} SameProgramPackets(l: Library, interval: uint64, st: State, xs: seq<Input>, ys: seq<Input>)
    requires st.front.pat != map[]
    requires PmtPackets(st.front.pat, PacketsOf(xs)) == PmtPackets(st.front.pat, PacketsOf(ys))
    ensures SameTables(Run(l, interval, st, xs).front, Run(l, interval, st, ys).front)
  {
    FrontOfRun(l, interval, st, xs);
    FrontOfRun(l, interval, st, ys);
    TablesProjection(l, st.front, st.front, PacketsOf(xs));
    TablesProjection(l, st.front, st.front, PacketsOf(ys));
  }

  // ----- Program 0

  /** The PAT lists the PID under program 0: it carries network information, not a program map. */
  predicate IsNetworkPid(pat: map<nat, nat>, pid: nat) {
    pid in pat && pat[pid] == 0
  }

  /** In every state, a packet of program 0 leaves the PAT, the section and the program as they are. */
  lemma NetworkPacket(l: Library, f: Front, p: Packet)
    requires IsNetworkPid(f.pat, p.pid)
    ensures SameTables(FrontPacket(l, f, p).0, f)
  {
    PacketTables(l, f, p);
  }

  function WithoutNetwork(pat: map<nat, nat>, inputs: seq<Input>): seq<Input> {
    if inputs == [] then []
    else (if inputs[0].Arrive? && IsNetworkPid(pat, inputs[0].packet.pid) then [] else [inputs[0]])
         + WithoutNetwork(pat, inputs[1..])
  }

  lemma {:induction false} NetworkIsNoProgram(pat: map<nat, nat>, inputs: seq<Input>)
    ensures PmtPackets(pat, PacketsOf(WithoutNetwork(pat, inputs))) == PmtPackets(pat, PacketsOf(inputs))
  {
    if inputs != [] {
      var rest := WithoutNetwork(pat, inputs[1..]);
      NetworkIsNoProgram(pat, inputs[1..]);
      PmtPacketsFirst(pat, inputs[0], inputs[1..]);
      assert inputs == [inputs[0]] + inputs[1..];
      if inputs[0].Arrive? && IsNetworkPid(pat, inputs[0].packet.pid) {
        assert [] + rest == rest;
      } else {
        PmtPacketsFirst(pat, inputs[0], rest);
      }
    }
  }

  lemma PmtPacketsFirst(pat: map<nat, nat>, i: Input, more: seq<Input>)
    ensures PmtPackets(pat, PacketsOf([i] + more))
         == (if i.Arrive? && IsPmtPid(pat, i.packet.pid) then [i.packet] else []) + PmtPackets(pat, PacketsOf(more))
  {
    assert ([i] + more)[1..] == more;
    match i
    case Arrive(p) =>
      assert ([p] + PacketsOf(more))[1..] == PacketsOf(more);
    case SetCallback(on) =>
      assert [] + PacketsOf(more) == PacketsOf(more);
      assert [] + PmtPackets(pat, PacketsOf(more)) == PmtPackets(pat, PacketsOf(more));
  }

  /** In every run, deleting all packets of program 0 leaves the same PAT, section and program. */
  lemma {:induction false} NetworkIgnored(l: Library, interval: uint64, st: State, inputs: seq<Input>)
    ensures SameTables(Run(l, interval, st, WithoutNetwork(st.front.pat, inputs)).front, Run(l, interval, st, inputs).front)
  {
    if st.front.pat == map[] {
      NothingDeleted(inputs);
    } else {
      NetworkIsNoProgram(st.front.pat, inputs);
      SameProgramPackets(l, interval, st, WithoutNetwork(st.front.pat, inputs), inputs);
    }
  }

  lemma {:induction false} NothingDeleted(inputs: seq<Input>)
    ensures WithoutNetwork(map[], inputs) == inputs
  {
    if inputs != [] {
      NothingDeleted(inputs[1..]);
      assert inputs == [inputs[0]] + inputs[1..];
    }
  }

  // ----- Sections in several packets

  /** A section gathered so far is incomplete, and stays so until the last packet completes it. */
  predicate CompletedBy(l: Library, section: seq<byte>, more: seq<Packet>, table: Table)
    decreases |more|
  {
    if more == [] then l.pmt(section) == Some(table)
    else l.pmt(section) == None && CompletedBy(l, section + more[0].payload, more[1..], table)
  }

  lemma PayloadsFirst(section: seq<byte>, ps: seq<Packet>)
    requires ps != []
    ensures section + ps[0].payload + Payloads(ps[1..]) == section + Payloads(ps)
  {
    Assoc3(section, ps[0].payload, Payloads(ps[1..]));
  }

  lemma {:induction false} CompletedWhole(l: Library, section: seq<byte>, more: seq<Packet>, table: Table)
    requires CompletedBy(l, section, more, table)
    ensures l.pmt(section + Payloads(more)) == Some(table)
    decreases |more|
  {
    if more == [] {
      assert section + [] == section;
    } else {
      CompletedWhole(l, section + more[0].payload, more[1..], table);
      PayloadsFirst(section, more);
    }
  }

  /** While a section is incomplete, its continuation packets only gather it. */
  lemma {:induction false} GatherContinuations(l: Library, f: Front, pid: nat, more: seq<Packet>, table: Table)
    requires f.pat != map[] && IsPmtPid(f.pat, pid) && more != []
    requires forall p <- more :: p.pid == pid && !p.start
    requires CompletedBy(l, f.pmt + more[0].payload, more[1..], table)
    ensures SameTables(FrontAfter(l, f, more),
                       f.(pmt := f.pmt + Payloads(more), program := Updated(f.program, table)))
    decreases |more|
  {
    var p := more[0];
    assert p in more && forall q <- more[1..] :: q in more;
    var g := FrontPacket(l, f, p).0;
    PacketTables(l, f, p);
    PayloadsFirst(f.pmt, more);
    if |more| == 1 {
      assert more[1..] == [] && f.pmt + p.payload + [] == f.pmt + p.payload;
      assert FrontAfter(l, f, more) == g;
    } else {
      assert SameTables(g, f.(pmt := f.pmt + p.payload));
      GatherContinuations(l, g, pid, more[1..], table);
    }
  }

  /** A program map table has the same effect in one packet or spread over many, with any packets of
      other PIDs in between, provided its parser rejects every part that ends at a packet boundary and
      accepts the whole section. */
  lemma {:induction false} SplitSection(l: Library, interval: uint64, st: State, inputs: seq<Input>,
                                        start: Packet, more: seq<Packet>, table: Table)
    requires st.front.pat != map[] && PmtPackets(st.front.pat, PacketsOf(inputs)) == [start] + more
    requires IsPmtPid(st.front.pat, start.pid) && start.start && forall p <- more :: p.pid == start.pid && !p.start
    requires CompletedBy(l, start.payload, more, table)
    ensures var whole := start.(payload := start.payload + Payloads(more));
            SameTables(Run(l, interval, st, inputs).front, Run(l, interval, st, [Arrive(whole)]).front)
    ensures Run(l, interval, st, inputs).front.program == Updated(st.front.program, table)
  {
    var f := st.front;
    var whole := start.(payload := start.payload + Payloads(more));
    CompletedWhole(l, start.payload, more, table);
    PacketTables(l, f, whole);
    FrontOfRun(l, interval, st, inputs);
    OneArrival(l, interval, st, whole);
    TablesProjection(l, f, f, PacketsOf(inputs));
    SectionRun(l, f, start, more, table);
  }

  lemma OneArrival(l: Library, interval: uint64, st: State, p: Packet)
    ensures Run(l, interval, st, [Arrive(p)]).front == FrontPacket(l, st.front, p).0
  {
    FrontOfRun(l, interval, st, [Arrive(p)]);
    assert PacketsOf([Arrive(p)]) == [p];
    assert FrontAfter(l, st.front, [p]) == FrontAfter(l, FrontPacket(l, st.front, p).0, []);
  }

  lemma SectionRun(l: Library, f: Front, start: Packet, more: seq<Packet>, table: Table)
    requires f.pat != map[] && IsPmtPid(f.pat, start.pid) && start.start
    requires forall p <- more :: p.pid == start.pid && !p.start
    requires CompletedBy(l, start.payload, more, table)
    ensures SameTables(FrontAfter(l, f, [start] + more),
                       f.(pmt := start.payload + Payloads(more), program := Updated(f.program, table)))
  {
    PacketTables(l, f, start);
    var g := FrontPacket(l, f, start).0;
    assert ([start] + more)[1..] == more;
    if more == [] {
      assert start.payload + [] == start.payload;
    } else {
      assert SameTables(g, f.(pmt := start.payload));
      GatherContinuations(l, g, start.pid, more, table);
    }
  }
}
