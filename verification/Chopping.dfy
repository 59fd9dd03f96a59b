/** What does not depend on how the multiplexer cuts the KLV stream into packets. */
module Chopping {
  import opened Basics
  import opened DemuxSpec
  import opened ProgramTables
  import opened Reassembly

  /** Openers that close their segments alike. */
  predicate AlikeOpeners(l: Library, a: seq<Stamped>, b: seq<Stamped>) {
    |a| == |b| && forall k :: 0 <= k < |a| ==> AlikeOpener(l, a[k], b[k])
  }

  predicate AlikeOpener(l: Library, a: Stamped, b: Stamped) {
    && l.pes(a.packet.payload).streamId == l.pes(b.packet.payload).streamId
    && a.pcr == b.pcr && a.heard == b.heard
  }

  /** Two streams with the same bytes between their openers, however cut into packets. */
  predicate SameStream(l: Library, ss: seq<Stamped>, tt: seq<Stamped>) {
    Segments(l, ss) == Segments(l, tt) && AlikeOpeners(l, Openers(l, ss), Openers(l, tt))
  }

  lemma {:induction false} ClosedAgrees(l: Library, segments: seq<seq<byte>>, a: seq<Stamped>, b: seq<Stamped>)
    requires |segments| == |a| + 1 && AlikeOpeners(l, a, b)
    ensures Closed(l, segments, a) == Closed(l, segments, b)
    decreases |a|
  {
    if a != [] {
      assert AlikeOpener(l, a[0], b[0]);
      forall k | 0 <= k < |a[1..]| ensures AlikeOpener(l, a[1..][k], b[1..][k]) {
        assert AlikeOpener(l, a[k + 1], b[k + 1]);
      }
      ClosedAgrees(l, segments[1..], a[1..], b[1..]);
    }
  }

  /** What a run's state depends on besides the KLV stream. */
  predicate SameSurroundings(st: State, xs: seq<Input>, ys: seq<Input>) {
    && PmtPackets(st.front.pat, PacketsOf(xs)) == PmtPackets(st.front.pat, PacketsOf(ys))
    && PcrAfter(st.front.pcr, PacketsOf(xs)) == PcrAfter(st.front.pcr, PacketsOf(ys))
    && CallbackAfter(st.back.callback, xs) == CallbackAfter(st.back.callback, ys)
  }

  lemma SameFronts(l: Library, interval: uint64, st: State, xs: seq<Input>, ys: seq<Input>)
    requires ClockShowsPcr(st.front) && st.front.pat != map[] && SameSurroundings(st, xs, ys)
    ensures var f, g := Run(l, interval, st, xs).front, Run(l, interval, st, ys).front;
            SameTables(f, g) && f.pcr == g.pcr && f.clock == g.clock
  {
    SameProgramPackets(l, interval, st, xs, ys);
    RunInvariants(l, interval, st, xs);
    RunInvariants(l, interval, st, ys);
    FrontOfRun(l, interval, st, xs);
    FrontOfRun(l, interval, st, ys);
    PcrOfFront(l, st.front, PacketsOf(xs));
    PcrOfFront(l, st.front, PacketsOf(ys));
  }

  /** How the stream of the one KLV PID is cut into packets, and what arrives between them, makes no
      difference: two runs whose streams have the same segments, closed at the same clocks, leave the
      same back end and the same bytes pending; and the same whole state when they also agree on the
      program map packets, the last PCR and the last callback. */
  lemma {:induction false} ChoppingIsIrrelevant(l: Library, interval: uint64, st: State, pid: nat,
                                                xs: seq<Input>, ys: seq<Input>)
    requires OneKlvPid(l, interval, st, pid, xs) && OneKlvPid(l, interval, st, pid, ys)
    requires SameStream(l, Stream(st, pid, xs), Stream(st, pid, ys))
    ensures var x, y := Run(l, interval, st, xs), Run(l, interval, st, ys);
            && x.front.sample == y.front.sample
            && x.back == y.back.(callback := x.back.callback)
            && (SameSurroundings(st, xs, ys) ==> x == y)
  {
    Reassembled(l, interval, st, pid, xs);
    Reassembled(l, interval, st, pid, ys);
    ClosedAgrees(l, SegmentsOf(l, st, pid, xs), Openers(l, Stream(st, pid, xs)), Openers(l, Stream(st, pid, ys)));
    if SameSurroundings(st, xs, ys) {
      SameFronts(l, interval, st, xs, ys);
    }
  }

  // ----- Cutting one PES unit differently

  function Bytes(ss: seq<Stamped>): seq<byte> {
    if ss == [] then [] else ss[0].packet.payload + Bytes(ss[1..])
  }

  predicate Continuations(ss: seq<Stamped>) {
    forall s <- ss :: !s.packet.start
  }

  lemma ContinuationUnfolds(l: Library, head: Stamped, rest: seq<Stamped>)
    requires !head.packet.start
    ensures Openers(l, [head] + rest) == Openers(l, rest)
    ensures Segments(l, [head] + rest) == Pending(head.packet.payload, Segments(l, rest))
  {
    assert ([head] + rest)[1..] == rest;
  }

  lemma PendingTwice(a: seq<byte>, b: seq<byte>, segments: seq<seq<byte>>)
    requires segments != []
    ensures Pending(a, Pending(b, segments)) == Pending(a + b, segments)
    ensures Pending([], segments) == segments
  {
    Assoc3(a, b, segments[0]);
    assert [] + segments[0] == segments[0];
    assert Pending(b, segments)[1..] == segments[1..];
  }

  lemma {:induction false} ContinuationSegments(l: Library, more: seq<Stamped>, rest: seq<Stamped>)
    requires Continuations(more)
    ensures Openers(l, more + rest) == Openers(l, rest)
    ensures Segments(l, more + rest) == Pending(Bytes(more), Segments(l, rest))
    decreases |more|
  {
    if more == [] {
      assert more + rest == rest;
      PendingTwice([], [], Segments(l, rest));
    } else {
      assert more[0] in more && forall s <- more[1..] :: s in more;
      assert more + rest == [more[0]] + (more[1..] + rest);
      ContinuationSegments(l, more[1..], rest);
      ContinuationUnfolds(l, more[0], more[1..] + rest);
      PendingTwice(more[0].packet.payload, Bytes(more[1..]), Segments(l, rest));
    }
  }

  lemma UnitSegments(l: Library, a: Stamped, more: seq<Stamped>, rest: seq<Stamped>)
    requires Opens(l, a.packet) && Continuations(more)
    ensures Openers(l, [a] + more + rest) == [a] + Openers(l, rest)
    ensures Segments(l, [a] + more + rest) == [[]] + Pending(Body(l, a.packet) + Bytes(more), Segments(l, rest))
  {
    assert [a] + more + rest == [a] + (more + rest);
    OpenerUnfolds(l, a, more + rest);
    ContinuationSegments(l, more, rest);
    PendingTwice(Body(l, a.packet), Bytes(more), Segments(l, rest));
  }

  /** Two ways of cutting a PES unit: the header lies within each start packet, and the bytes are the same. */
  predicate SameUnit(l: Library, a: Stamped, more: seq<Stamped>, b: Stamped, more': seq<Stamped>) {
    && Opens(l, a.packet) && Opens(l, b.packet) && Continuations(more) && Continuations(more')
    && l.pes(a.packet.payload) == l.pes(b.packet.payload) && a.pcr == b.pcr && a.heard == b.heard
    && a.packet.payload + Bytes(more) == b.packet.payload + Bytes(more')
  }

  lemma SameUnitStream(l: Library, a: Stamped, more: seq<Stamped>, b: Stamped, more': seq<Stamped>, rest: seq<Stamped>)
    requires SameUnit(l, a, more, b, more')
    ensures SameStream(l, [a] + more + rest, [b] + more' + rest)
  {
    UnitSegments(l, a, more, rest);
    UnitSegments(l, b, more', rest);
    SameBody(l, a, more, b, more');
    AlikeAfter(l, a, b, Openers(l, rest), Openers(l, rest));
  }

  lemma SameBody(l: Library, a: Stamped, more: seq<Stamped>, b: Stamped, more': seq<Stamped>)
    requires SameUnit(l, a, more, b, more')
    ensures Body(l, a.packet) + Bytes(more) == Body(l, b.packet) + Bytes(more')
  {
    var n := l.pes(a.packet.payload).length;
    assert Body(l, a.packet) + Bytes(more) == (a.packet.payload + Bytes(more))[n..];
    assert Body(l, b.packet) + Bytes(more') == (b.packet.payload + Bytes(more'))[n..];
  }

  lemma AlikeAfter(l: Library, a: Stamped, b: Stamped, ss: seq<Stamped>, tt: seq<Stamped>)
    requires AlikeOpener(l, a, b) && AlikeOpeners(l, ss, tt)
    ensures AlikeOpeners(l, [a] + ss, [b] + tt)
  {
    forall k | 0 <= k < |[a] + ss| ensures AlikeOpener(l, ([a] + ss)[k], ([b] + tt)[k]) {
      if k > 0 {
        assert AlikeOpener(l, ss[k - 1], tt[k - 1]);
      }
    }
  }

  lemma SameStreamAfter(l: Library, head: Stamped, ss: seq<Stamped>, tt: seq<Stamped>)
    requires SameStream(l, ss, tt)
    ensures SameStream(l, [head] + ss, [head] + tt)
  {
    assert ([head] + ss)[1..] == ss && ([head] + tt)[1..] == tt;
    AlikeAfter(l, head, head, Openers(l, ss), Openers(l, tt));
    if !Opens(l, head.packet) {
      assert Openers(l, [head] + ss) == Openers(l, ss) && Openers(l, [head] + tt) == Openers(l, tt);
    }
  }

  lemma FirstApart(before: seq<Stamped>, rest: seq<Stamped>)
    requires before != []
    ensures [before[0]] + (before[1..] + rest) == before + rest
  {
  }

  lemma {:induction false} SameStreamBehind(l: Library, before: seq<Stamped>, ss: seq<Stamped>, tt: seq<Stamped>)
    requires SameStream(l, ss, tt)
    ensures SameStream(l, before + ss, before + tt)
    decreases |before|
  {
    if before == [] {
      assert before + ss == ss;
      assert before + tt == tt;
    } else {
      SameStreamBehind(l, before[1..], ss, tt);
      SameStreamAfter(l, before[0], before[1..] + ss, before[1..] + tt);
      FirstApart(before, ss);
      FirstApart(before, tt);
    }
  }

  /** Cutting one unit of a stream differently leaves the same stream, wherever the unit stands and
      whatever arrives between its packets; so does cutting any number of units, one after the other. */
  lemma {:induction false} RecutUnit(l: Library, before: seq<Stamped>, a: Stamped, more: seq<Stamped>,
                                     b: Stamped, more': seq<Stamped>, after: seq<Stamped>)
    requires SameUnit(l, a, more, b, more')
    ensures SameStream(l, before + ([a] + more + after), before + ([b] + more' + after))
  {
    SameUnitStream(l, a, more, b, more', after);
    SameStreamBehind(l, before, [a] + more + after, [b] + more' + after);
  }

  /** Two runs that differ in how one PES unit of the KLV PID is cut into packets, with any packets of
      other PIDs in between, end in the same state. */
  lemma {:induction false} RecutRuns(l: Library, interval: uint64, st: State, pid: nat, xs: seq<Input>, ys: seq<Input>,
                                     before: seq<Stamped>, a: Stamped, more: seq<Stamped>,
                                     b: Stamped, more': seq<Stamped>, after: seq<Stamped>)
    requires OneKlvPid(l, interval, st, pid, xs) && OneKlvPid(l, interval, st, pid, ys)
    requires Stream(st, pid, xs) == before + ([a] + more + after)
    requires Stream(st, pid, ys) == before + ([b] + more' + after)
    requires SameUnit(l, a, more, b, more') && SameSurroundings(st, xs, ys)
    ensures Run(l, interval, st, xs) == Run(l, interval, st, ys)
  {
    RecutUnit(l, before, a, more, b, more', after);
    ChoppingIsIrrelevant(l, interval, st, pid, xs, ys);
  }
}
