/** The demultiplexer object, proved against the state machine of DemuxSpec. */
module Mpeg2TsDecoder {
  import opened Basics
  import opened PropertyTree
  import opened DemuxSpec
  import Clock
  import PmtProxy
  import KlvParser
  import AccessUnit

  class Mpeg2TsDecoder {
    const lib: Library
    const interval: uint64

    var pat: map<nat, nat>
    var pmt: seq<byte>
    const pmtHelper: PmtProxy.PmtProxy
    const klvSample: AccessUnit.AccessUnit
    var readCount: nat
    var time: uint64
    const pcrClock: Clock.PCRClock
    const systemClock: Clock.SystemClock
    const klvParser: KlvParser.KlvParserImpl
    var callback: bool
    var delivered: seq<Tree>   // what the callback has been called with

    ghost const Repr: set<object>

    ghost predicate Valid()
      reads this, Repr
    {
      && pcrClock.time_.Length == 6
      && Repr == {this, pmtHelper, klvSample, pcrClock, pcrClock.time_, systemClock, klvParser}
    }

    ghost function FrontView(): Front
      requires Valid()
      reads this, Repr
    {
      Front(pat, pmt, pmtHelper.View(), klvSample.sodb, pcrClock.Fields(), systemClock.time_)
    }

    ghost function BackView(): Back
      requires Valid()
      reads this, Repr
    {
      Back(time, readCount, klvParser.View(), callback, delivered)
    }

    ghost function View(): State
      requires Valid()
      reads this, Repr
    {
      State(FrontView(), BackView())
    }

    constructor (lib: Library, interval: uint64)
      ensures Valid() && fresh(Repr)
      ensures View() == INITIAL_STATE
      ensures this.lib == lib && this.interval == interval
    {
      this.lib, this.interval := lib, interval;
      pat, pmt := map[], [];
      readCount, time, callback, delivered := 0, 0, false, [];
      var helper := new PmtProxy.PmtProxy();
      var sample := new AccessUnit.AccessUnit();
      var pcr := new Clock.PCRClock();
      var clock := new Clock.SystemClock();
      var parser := new KlvParser.KlvParserImpl();
      pmtHelper, klvSample, pcrClock, systemClock, klvParser := helper, sample, pcr, clock, parser;
      Repr := {this, helper, sample, pcr, pcr.time_, clock, parser};
    }

    method OnPacket(pckt: Packet)
      requires Valid()
      modifies Repr
      ensures Valid()
      ensures View() == Step(lib, interval, old(View()), Arrive(pckt))
    {
      UpdateSystemClock(pckt);
      if pckt.start {
        ProcessStartPayload(pckt);
      } else {
        ProcessPayload(pckt);
      }
    }

    method SetCallback(on: bool)
      requires Valid()
      modifies this
      ensures Valid()
      ensures View() == Step(lib, interval, old(View()), DemuxSpec.SetCallback(on))
    {
      callback := on;
    }

    method Reads() returns (n: nat)
      requires Valid()
      ensures n == View().back.readCount
    {
      n := readCount;
    }

    method UpdateSystemClock(pckt: Packet)
      requires Valid()
      modifies Repr
      ensures Valid()
      ensures FrontView() == UpdateClock(old(FrontView()), pckt)
      ensures BackView() == old(BackView())
    {
      var afe := pckt.control;
      if afe == 0x02 || afe == 0x03 {
        if pckt.adaptation.length > 0 && pckt.adaptation.pcrFlag {
          pcrClock.SetTime(pckt.adaptation.pcr);
          var t := pcrClock.BaseTime();
          systemClock.SetTime(t);
          assert pckt.adaptation.pcr[..6] == pckt.adaptation.pcr;
        }
      }
    }

    method ProcessStartPayload(pckt: Packet)
      requires Valid() && pckt.start
      modifies Repr
      ensures Valid()
      ensures FrontView() == StartPayload(lib, old(FrontView()), pckt).0
      ensures BackView() == ProcessAll(lib, interval, old(BackView()), StartPayload(lib, old(FrontView()), pckt).1)
    {
      ghost var f := FrontView();
      var data := pckt.payload;
      if pckt.pid == 0 && |pat| == 0 {
        pat := lib.pat(data);
      } else if pckt.pid in pat {
        if pat[pckt.pid] != 0 {
          ParsePmt(data);
        }
      } else {
        ProcessPes(pckt);
      }
    }

    /** The last branch of `processStartPayload`. */
    method ProcessPes(pckt: Packet)
      requires Valid()
      modifies Repr
      ensures Valid()
      ensures FrontView() == StartPes(lib, old(FrontView()), pckt).0
      ensures BackView() == ProcessAll(lib, interval, old(BackView()), StartPes(lib, old(FrontView()), pckt).1)
    {
      var pes := lib.pes(pckt.payload);
      if pes.length > 0 {
        var t := pmtHelper.PacketType(pckt.pid);
        if t == PmtProxy.KLVA {
          var n := klvSample.Length();
          if n > 0 {
            ghost var s := Sample(klvSample.sodb, pes.streamId, pcrClock.Fields(), systemClock.time_);
            ghost var b := BackView();
            ProcessKlv(pes);
            assert BackView() == ProcessAll(lib, interval, b, [s]) by { OneSample(lib, interval, b, s); }
          }
          klvSample.Clear();
          klvSample.Insert(pckt.payload[pes.length..]);
          assert [] + pckt.payload[pes.length..] == pckt.payload[pes.length..];
        }
      }
    }

    /** Set the program map section gathered so far; `if (_pmt.parse()) _pmtHelper.update(_pmt)`. */
    method ParsePmt(section: seq<byte>)
      requires Valid()
      modifies this`pmt, pmtHelper
      ensures Valid()
      ensures FrontView() == GatherPmt(lib, old(FrontView()), section)
      ensures BackView() == old(BackView())
    {
      pmt := section;
      match lib.pmt(pmt)
      case None =>
      case Some(table) => pmtHelper.Update(table);
    }

    method ProcessPayload(pckt: Packet)
      requires Valid()
      modifies Repr
      ensures Valid()
      ensures FrontView() == Payload(lib, old(FrontView()), pckt)
      ensures BackView() == old(BackView())
    {
      var data := pckt.payload;
      if pckt.pid in pat && pat[pckt.pid] != 0 {
        ParsePmt(pmt + data);
      }
      ghost var g := FrontView();
      var t := pmtHelper.PacketType(pckt.pid);
      if t == PmtProxy.KLVA {
        klvSample.Insert(data);
        assert FrontView() == g.(sample := g.sample + data);
      }
    }

    method ProcessKlv(pes: PesHeader)
      requires Valid()
      modifies this, klvParser
      ensures Valid()
      ensures FrontView() == old(FrontView())
      ensures BackView()
           == DemuxSpec.ProcessKlv(lib, interval, old(BackView()),
                Sample(klvSample.sodb, pes.streamId, pcrClock.Fields(), systemClock.time_))
    {
      ghost var b := BackView();
      ghost var s := Sample(klvSample.sodb, pes.streamId, pcrClock.Fields(), systemClock.time_);
      var timeNow := systemClock.Time();
      var diff: uint64 := (timeNow - time) % TWO_64;
      var streamId := pes.streamId;
      if diff > interval {
        time := timeNow;
        ghost var now := BackView();
        assert now == b.(time := s.clock);
        Accepts(lib, interval, b, s);
        if streamId == METADATA_STREAM {
          var cells := lib.cells(klvSample.sodb);
          if |cells| > 0 {
            ProcessCells(cells);
            return;
          } else {
            streamId := PRIVATE_STREAM_1;
          }
        }
        if streamId == PRIVATE_STREAM_1 {
          ProcessCells([klvSample.sodb]);
        } else {
          assert DeliverAll(lib, now, []) == now;
        }
      }
    }

    /** Parse and output each piece in turn. */
    method ProcessCells(cells: seq<seq<byte>>)
      requires Valid()
      modifies this, klvParser
      ensures Valid()
      ensures FrontView() == old(FrontView())
      ensures BackView() == DeliverAll(lib, old(BackView()), cells)
    {
      var i := 0;
      while i < |cells|
        invariant 0 <= i <= |cells|
        invariant Valid() && FrontView() == old(FrontView())
        invariant BackView() == DeliverAll(lib, old(BackView()), cells[..i])
      {
        klvParser.Parse(lib.klv(cells[i]));
        OutputSet();
        assert cells[..i + 1][..i] == cells[..i];
        i := i + 1;
      }
      assert cells[..i] == cells;
    }

    method OutputSet()
      requires Valid()
      modifies this, klvParser
      ensures Valid()
      ensures FrontView() == old(FrontView())
      ensures BackView() == DemuxSpec.OutputSet(old(BackView()))
    {
      readCount := readCount + 1;
      if callback {
        delivered := delivered + [klvParser.klvSet];
        klvParser.Clear();
      } else {
        klvParser.Clear();
      }
    }
  }

  /** Whatever is done with a new demultiplexer, it goes through the states of the machine. */
  method Feed(decoder: Mpeg2TsDecoder, inputs: seq<Input>)
    requires decoder.Valid()
    modifies decoder.Repr
    ensures decoder.Valid()
    ensures decoder.View() == Run(decoder.lib, decoder.interval, old(decoder.View()), inputs)
  {
    var i := 0;
    while i < |inputs|
      invariant 0 <= i <= |inputs|
      invariant decoder.Valid()
      invariant Run(decoder.lib, decoder.interval, decoder.View(), inputs[i..])
             == Run(decoder.lib, decoder.interval, old(decoder.View()), inputs)
    {
      assert inputs[i..][1..] == inputs[i + 1..];
      match inputs[i] {
        case Arrive(p) => decoder.OnPacket(p);
        case SetCallback(on) => decoder.SetCallback(on);
      }
      i := i + 1;
    }
  }

  lemma Accepts(l: Library, interval: uint64, b: Back, s: Sample)
    requires (s.clock - b.time) % TWO_64 > interval
    ensures DemuxSpec.ProcessKlv(l, interval, b, s) == DeliverAll(l, b.(time := s.clock), Units(l, s))
  {
  }

  lemma OneSample(l: Library, interval: uint64, b: Back, s: Sample)
    ensures ProcessAll(l, interval, b, [s]) == DemuxSpec.ProcessKlv(l, interval, b, s)
  {
  }
}
