/** The reading loop of src/main.cpp: buffer after buffer, the callback set once the first has been read. */
module MainLoop {
  import opened Basics
  import opened DemuxSpec
  import opened Mpeg2TsDecoder

  function BufferInputs(packets: seq<Packet>): seq<Input> {
    Arrivals(packets) + [SetCallback(true)]
  }

  /** What the loop does with the demultiplexer, given the packets that each buffer completes. */
  function MainInputs(buffers: seq<seq<Packet>>): seq<Input> {
    if buffers == [] then []
    else MainInputs(buffers[..|buffers| - 1]) + BufferInputs(buffers[|buffers| - 1])
  }

  lemma {:induction false} PacketsAppend(a: seq<Input>, b: seq<Input>)
    ensures PacketsOf(a + b) == PacketsOf(a) + PacketsOf(b)
  {
    if a == [] {
      assert a + b == b;
    } else {
      assert (a + b)[1..] == a[1..] + b;
      PacketsAppend(a[1..], b);
      Assoc3(PacketsOf([a[0]]), PacketsOf(a[1..]), PacketsOf(b));
      FirstPacket(a[0], a[1..]);
      FirstPacket(a[0], a[1..] + b);
      assert a == [a[0]] + a[1..] && a + b == [a[0]] + (a[1..] + b);
    }
  }

  lemma FirstPacket(i: Input, more: seq<Input>)
    ensures PacketsOf([i] + more) == PacketsOf([i]) + PacketsOf(more)
  {
    assert ([i] + more)[1..] == more && [i][1..] == [];
  }

  lemma {:induction false} PacketsOfArrivals(ps: seq<Packet>)
    ensures PacketsOf(Arrivals(ps)) == ps
  {
    if ps != [] {
      PacketsOfArrivals(ps[1..]);
      assert Arrivals(ps)[1..] == Arrivals(ps[1..]);
      assert ps == [ps[0]] + ps[1..];
    }
  }

  lemma {:induction false} ConcatLast<T>(more: seq<seq<T>>, last: seq<T>)
    ensures Concat(more + [last]) == Concat(more) + last
  {
    if more == [] {
      assert ([last])[1..] == [] && more + [last] == [last];
      assert last + [] == last && [] + last == last;
    } else {
      assert (more + [last])[1..] == more[1..] + [last];
      ConcatLast(more[1..], last);
      Assoc3(more[0], Concat(more[1..]), last);
    }
  }

  /** The loop feeds the packets of all buffers, in order; and a callback is set once there has been one. */
  lemma {:induction false} MainPackets(buffers: seq<seq<Packet>>)
    ensures PacketsOf(MainInputs(buffers)) == Concat(buffers)
    ensures CallbackAfter(false, MainInputs(buffers)) <==> buffers != []
    decreases |buffers|
  {
    if buffers != [] {
      var more, last := buffers[..|buffers| - 1], buffers[|buffers| - 1];
      MainPackets(more);
      PacketsAppend(MainInputs(more), BufferInputs(last));
      BufferPackets(last);
      ConcatLast(more, last);
      assert buffers == more + [last];
      CallbackAppend(false, MainInputs(more), BufferInputs(last));
      CallbackAppend(CallbackAfter(false, MainInputs(more)), Arrivals(last), [SetCallback(true)]);
      assert [SetCallback(true)][1..] == [];
    }
  }

  lemma BufferPackets(packets: seq<Packet>)
    ensures PacketsOf(BufferInputs(packets)) == packets
  {
    PacketsAppend(Arrivals(packets), [SetCallback(true)]);
    PacketsOfArrivals(packets);
    assert [SetCallback(true)][1..] == [];
  }

  lemma {:induction false} CallbackAppend(on: bool, a: seq<Input>, b: seq<Input>)
    ensures CallbackAfter(on, a + b) == CallbackAfter(CallbackAfter(on, a), b)
    decreases |a|
  {
    if a == [] {
      assert a + b == b;
    } else {
      assert (a + b)[1..] == a[1..] + b;
      CallbackAppend(match a[0] case Arrive(_) => on case SetCallback(on') => on', a[1..], b);
    }
  }

  /** The demultiplexer after some buffers. */
  function After(l: Library, interval: uint64, buffers: seq<seq<Packet>>): State {
    Run(l, interval, INITIAL_STATE, MainInputs(buffers))
  }

  /** The limit on reads is not reached after any of the first `n` buffers; 0 means no limit. */
  ghost predicate BelowLimit(l: Library, interval: uint64, buffers: seq<seq<Packet>>, n: nat, limit: int)
    requires n <= |buffers|
  {
    limit > 0 ==> forall k :: 0 < k <= n ==> After(l, interval, buffers[..k]).back.readCount < limit
  }

  /** The loop itself. It returns the number of buffers read: all of them when the limit is never reached,
      and otherwise as many as it takes to reach it. */
  method ReadAll(decoder: Mpeg2TsDecoder, buffers: seq<seq<Packet>>, limit: int) returns (n: nat)
    requires decoder.Valid() && decoder.View() == INITIAL_STATE
    modifies decoder.Repr
    ensures decoder.Valid() && n <= |buffers|
    ensures decoder.View() == After(decoder.lib, decoder.interval, buffers[..n])
    ensures n < |buffers| ==> 0 < limit <= decoder.View().back.readCount
    ensures n > 0 ==> BelowLimit(decoder.lib, decoder.interval, buffers, n - 1, limit)
  {
    n := 0;
    var run := true;
    ghost var st := INITIAL_STATE;
    while run
      invariant decoder.Valid() && decoder.View() == st
      invariant n <= |buffers| && st == After(decoder.lib, decoder.interval, buffers[..n])
      invariant n > 0 ==> BelowLimit(decoder.lib, decoder.interval, buffers, n - 1, limit)
      invariant run && n > 0 && limit > 0 ==> st.back.readCount < limit
      invariant !run && n < |buffers| ==> 0 < limit <= st.back.readCount
      decreases |buffers| - n, run
    {
      if n < |buffers| {
        BelowMore(decoder.lib, decoder.interval, buffers, n, limit);
        ReadBuffer(decoder, buffers, n);
        n := n + 1;
        st := After(decoder.lib, decoder.interval, buffers[..n]);
      } else {
        run := false;
      }
      var outputs := decoder.Reads();
      if outputs >= limit && limit > 0 {
        run := false;
      }
    }
  }

  lemma BelowMore(l: Library, interval: uint64, buffers: seq<seq<Packet>>, n: nat, limit: int)
    requires n <= |buffers|
    requires n > 0 ==> BelowLimit(l, interval, buffers, n - 1, limit)
    requires n > 0 && limit > 0 ==> After(l, interval, buffers[..n]).back.readCount < limit
    ensures BelowLimit(l, interval, buffers, n, limit)
  {
  }

  /** One buffer, and the callback set after it. */
  method ReadBuffer(decoder: Mpeg2TsDecoder, buffers: seq<seq<Packet>>, n: nat)
    requires decoder.Valid() && n < |buffers|
    requires decoder.View() == After(decoder.lib, decoder.interval, buffers[..n])
    modifies decoder.Repr
    ensures decoder.Valid()
    ensures decoder.View() == After(decoder.lib, decoder.interval, buffers[..n + 1])
  {
    ghost var st := decoder.View();
    Feed(decoder, Arrivals(buffers[n]));
    RunAppend(decoder.lib, decoder.interval, st, Arrivals(buffers[n]), [SetCallback(true)]);
    NextBuffer(decoder.lib, decoder.interval, buffers, n);
    decoder.SetCallback(true);
  }

  lemma NextBuffer(l: Library, interval: uint64, buffers: seq<seq<Packet>>, n: nat)
    requires n < |buffers|
    ensures After(l, interval, buffers[..n + 1])
         == Run(l, interval, After(l, interval, buffers[..n]), BufferInputs(buffers[n]))
  {
    assert buffers[..n + 1][..n] == buffers[..n];
    RunAppend(l, interval, INITIAL_STATE, MainInputs(buffers[..n]), BufferInputs(buffers[n]));
  }

  // ----- What is read but not delivered

  /** With the callback set every read is delivered, without it none is. */
  ghost predicate Counted(b: Back, b': Back) {
    && b'.callback == b.callback
    && if b.callback then b'.readCount - b.readCount == |b'.delivered| - |b.delivered| else b'.delivered == b.delivered
  }

  lemma {:induction false} DeliverAllCounted(l: Library, b: Back, units: seq<seq<byte>>)
    ensures Counted(b, DeliverAll(l, b, units))
    decreases |units|
  {
    if units != [] {
      DeliverAllCounted(l, b, units[..|units| - 1]);
    }
  }

  lemma {:induction false} ProcessAllCounted(l: Library, interval: uint64, b: Back, samples: seq<Sample>)
    ensures Counted(b, ProcessAll(l, interval, b, samples))
    decreases |samples|
  {
    if samples != [] {
      var s := samples[0];
      DeliverAllCounted(l, b.(time := s.clock), Units(l, s));
      ProcessAllCounted(l, interval, ProcessKlv(l, interval, b, s), samples[1..]);
    }
  }

  lemma {:induction false} ArrivalsCounted(l: Library, interval: uint64, st: State, ps: seq<Packet>)
    ensures Counted(st.back, Run(l, interval, st, Arrivals(ps)).back)
    decreases |ps|
  {
    if ps != [] {
      assert Arrivals(ps)[1..] == Arrivals(ps[1..]);
      ProcessAllCounted(l, interval, st.back, FrontPacket(l, st.front, ps[0]).1);
      ArrivalsCounted(l, interval, Step(l, interval, st, Arrive(ps[0])), ps[1..]);
    }
  }

  lemma BufferCounted(l: Library, interval: uint64, st: State, ps: seq<Packet>)
    ensures var end := Run(l, interval, st, BufferInputs(ps)).back;
            end.callback && Counted(st.back, end.(callback := st.back.callback))
  {
    ArrivalsCounted(l, interval, st, ps);
    RunAppend(l, interval, st, Arrivals(ps), [SetCallback(true)]);
    assert [SetCallback(true)][1..] == [];
  }

  /** Outputs made of the first buffer are counted but not delivered; from the second buffer on, every
      output is delivered. */
  lemma {:induction false} FirstBufferUnheard(l: Library, interval: uint64, buffers: seq<seq<Packet>>)
    requires buffers != []
    ensures var end := After(l, interval, buffers).back;
            end.callback && end.readCount == After(l, interval, buffers[..1]).back.readCount + |end.delivered|
    decreases |buffers|
  {
    var n := |buffers| - 1;
    var st := After(l, interval, buffers[..n]);
    assert buffers[..n + 1] == buffers;
    NextBuffer(l, interval, buffers, n);
    BufferCounted(l, interval, st, buffers[n]);
    if n > 0 {
      assert buffers[..n][..1] == buffers[..1];
      FirstBufferUnheard(l, interval, buffers[..n]);
    }
  }
}
