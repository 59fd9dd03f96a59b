/** Packets that are none of the demultiplexer's business leave no trace. */
module NonInterference {
  import opened Basics
  import opened DemuxSpec

  /** The packet carries no PCR, is not the PAT awaited, and its PID neither carries program map
      sections nor is mapped to KLV. */
  predicate Inert(f: Front, p: Packet) {
    && !CarriesPcr(p)
    && !(p.start && p.pid == 0 && f.pat == map[])
    && !(p.pid in f.pat && f.pat[p.pid] != 0)
    && !IsKlva(f, p.pid)
  }

  lemma InertStep(l: Library, interval: uint64, st: State, p: Packet)
    requires Inert(st.front, p)
    ensures Step(l, interval, st, Arrive(p)) == st
  {
    PacketPcr(st.front, p);
    if p.start && p.pid !in st.front.pat {
      assert StartPayload(l, st.front, p) == StartPes(l, st.front, p);
    }
  }

  /** The inputs that are not marked for deletion. */
  function Keep(inputs: seq<Input>, marked: seq<bool>): seq<Input>
    requires |inputs| == |marked|
  {
    if inputs == [] then []
    else (if marked[0] then [] else [inputs[0]]) + Keep(inputs[1..], marked[1..])
  }

  /** Every marked input is a packet that is inert when it arrives. */
  predicate MarksInert(l: Library, interval: uint64, st: State, inputs: seq<Input>, marked: seq<bool>)
    requires |inputs| == |marked|
    decreases |inputs|
  {
    inputs == [] || (
      && (marked[0] ==> inputs[0].Arrive? && Inert(st.front, inputs[0].packet))
      && MarksInert(l, interval, Step(l, interval, st, inputs[0]), inputs[1..], marked[1..]))
  }

  /** Deleting any inert packets from a run changes neither its state nor what it delivers. */
  lemma {:induction false} Deletion(l: Library, interval: uint64, st: State, inputs: seq<Input>, marked: seq<bool>)
    requires |inputs| == |marked| && MarksInert(l, interval, st, inputs, marked)
    ensures Run(l, interval, st, Keep(inputs, marked)) == Run(l, interval, st, inputs)
    decreases |inputs|
  {
    if inputs != [] {
      var more := Keep(inputs[1..], marked[1..]);
      if marked[0] {
        InertStep(l, interval, st, inputs[0].packet);
        assert [] + more == more;
        Deletion(l, interval, st, inputs[1..], marked[1..]);
      } else {
        assert ([inputs[0]] + more)[1..] == more;
        Deletion(l, interval, Step(l, interval, st, inputs[0]), inputs[1..], marked[1..]);
      }
    }
  }
}
