/** Cutting a PES unit of any PID differently, when its packets follow each other. */
module ContiguousUnits {
  import opened Basics
  import Clock
  import opened DemuxSpec
  import opened ProgramTables

  /** Continuation packets of one PID that carry no PCR. */
  predicate Continues(pid: nat, ps: seq<Packet>) {
    forall p <- ps :: p.pid == pid && !p.start && !CarriesPcr(p)
  }

  /** A start packet and continuation packets of an elementary stream's PID, whose PES header lies
      within the start packet. */
  predicate IsUnit(l: Library, f: Front, start: Packet, more: seq<Packet>) {
    && start.start && start.pid !in f.pat && !(start.pid == 0 && f.pat == map[])
    && l.pes(start.payload).length > 0
    && Continues(start.pid, more)
  }

  /** The state with more bytes in the pending sample. */
  function Fed(st: State, bytes: seq<byte>): State {
    st.(front := st.front.(sample := st.front.sample + bytes))
  }

  lemma ContinuationPacket(l: Library, interval: uint64, st: State, p: Packet)
    requires !p.start && !CarriesPcr(p) && p.pid !in st.front.pat
    ensures Step(l, interval, st, Arrive(p))
         == if IsKlva(st.front, p.pid) then Fed(st, p.payload) else st
  {
    PacketPcr(st.front, p);
    assert FrontPacket(l, st.front, p) == (Payload(l, st.front, p), []);
  }

  lemma {:induction false} ContinuationPackets(l: Library, interval: uint64, st: State, pid: nat, ps: seq<Packet>)
    requires Continues(pid, ps) && pid !in st.front.pat
    ensures Run(l, interval, st, Arrivals(ps))
         == if IsKlva(st.front, pid) then Fed(st, Payloads(ps)) else st
    decreases |ps|
  {
    if ps == [] {
      assert st.front.sample + [] == st.front.sample;
    } else {
      assert ps[0] in ps && forall p <- ps[1..] :: p in ps;
      ContinuationPacket(l, interval, st, ps[0]);
      var st' := Step(l, interval, st, Arrive(ps[0]));
      assert Arrivals(ps)[1..] == Arrivals(ps[1..]);
      ContinuationPackets(l, interval, st', pid, ps[1..]);
      Assoc3(st.front.sample, ps[0].payload, Payloads(ps[1..]));
    }
  }

  /** What a whole PES unit does, given its PID, clock, header and bytes. */
  function AfterUnit(l: Library, interval: uint64, st: State, pid: nat, pcr: Option<Clock.Pcr>,
                     header: PesHeader, bytes: seq<byte>): State
    requires header.length <= |bytes|
  {
    var f := Timed(st.front, pcr);
    if !IsKlva(f, pid) then st.(front := f)
    else
      var out := if f.sample != [] then [Sample(f.sample, header.streamId, f.pcr, f.clock)] else [];
      State(f.(sample := bytes[header.length..]), ProcessAll(l, interval, st.back, out))
  }

  lemma UnitStart(l: Library, interval: uint64, st: State, start: Packet)
    requires IsUnit(l, st.front, start, [])
    ensures Step(l, interval, st, Arrive(start))
         == AfterUnit(l, interval, st, start.pid, CarriedPcr(start), l.pes(start.payload), start.payload)
  {
    PacketPcr(st.front, start);
    var f := UpdateClock(st.front, start);
    assert FrontPacket(l, st.front, start) == StartPes(l, f, start);
  }

  /** Bytes that follow the start packet's are as good as bytes in it. */
  lemma FedUnit(l: Library, interval: uint64, st: State, pid: nat, pcr: Option<Clock.Pcr>,
                header: PesHeader, bytes: seq<byte>, more: seq<byte>)
    requires header.length <= |bytes| && pid !in st.front.pat
    ensures var st' := AfterUnit(l, interval, st, pid, pcr, header, bytes);
            && st'.front.pat == st.front.pat
            && AfterUnit(l, interval, st, pid, pcr, header, bytes + more)
               == if IsKlva(st'.front, pid) then Fed(st', more) else st'
  {
    assert (bytes + more)[header.length..] == bytes[header.length..] + more;
  }

  lemma UnitRun(l: Library, interval: uint64, st: State, start: Packet, more: seq<Packet>)
    requires IsUnit(l, st.front, start, more)
    ensures Run(l, interval, st, Arrivals([start] + more))
         == AfterUnit(l, interval, st, start.pid, CarriedPcr(start), l.pes(start.payload), start.payload + Payloads(more))
  {
    UnitStart(l, interval, st, start);
    var header := l.pes(start.payload);
    var st' := AfterUnit(l, interval, st, start.pid, CarriedPcr(start), header, start.payload);
    FedUnit(l, interval, st, start.pid, CarriedPcr(start), header, start.payload, Payloads(more));
    FirstArrival(l, interval, st, start, more);
    ContinuationPackets(l, interval, st', start.pid, more);
  }

  lemma FirstArrival(l: Library, interval: uint64, st: State, start: Packet, more: seq<Packet>)
    ensures Run(l, interval, st, Arrivals([start] + more))
         == Run(l, interval, Step(l, interval, st, Arrive(start)), Arrivals(more))
  {
    assert ([start] + more)[1..] == more;
    assert Arrivals([start] + more)[1..] == Arrivals(more);
  }

  /** Two ways of cutting the same PES unit into packets. */
  predicate SamePackets(l: Library, a: Packet, more: seq<Packet>, b: Packet, more': seq<Packet>) {
    && a.pid == b.pid && CarriedPcr(a) == CarriedPcr(b)
    && l.pes(a.payload) == l.pes(b.payload)
    && a.payload + Payloads(more) == b.payload + Payloads(more')
  }

  /** How a unit is cut makes no difference to any run it occurs in, when its packets follow each other
      and only the first may carry a PCR. The PID need not be known, nor the only one that carries KLV. */
  lemma {:induction false} ContiguousUnit(l: Library, interval: uint64, st: State, before: seq<Input>,
                                          a: Packet, more: seq<Packet>, b: Packet, more': seq<Packet>, after: seq<Input>)
    requires var f := Run(l, interval, st, before).front; IsUnit(l, f, a, more) && IsUnit(l, f, b, more')
    requires SamePackets(l, a, more, b, more')
    ensures Run(l, interval, st, before + Arrivals([a] + more) + after)
         == Run(l, interval, st, before + Arrivals([b] + more') + after)
  {
    var st' := Run(l, interval, st, before);
    var x, y := Arrivals([a] + more), Arrivals([b] + more');
    RunAppend(l, interval, st, before + x, after);
    RunAppend(l, interval, st, before + y, after);
    RunAppend(l, interval, st, before, x);
    RunAppend(l, interval, st, before, y);
    SameRun(l, interval, st', a, more, b, more');
  }

  lemma SameRun(l: Library, interval: uint64, st: State, a: Packet, more: seq<Packet>, b: Packet, more': seq<Packet>)
    requires IsUnit(l, st.front, a, more) && IsUnit(l, st.front, b, more') && SamePackets(l, a, more, b, more')
    ensures Run(l, interval, st, Arrivals([a] + more)) == Run(l, interval, st, Arrivals([b] + more'))
  {
    UnitRun(l, interval, st, a, more);
    UnitRun(l, interval, st, b, more');
  }
}
