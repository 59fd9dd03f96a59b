# KlvDecoder, verified in Dafny

KlvDecoder reads a STANAG 4609 transport stream, finds the elementary stream that carries KLV
metadata, and writes each metadata set as text. This project models that pipeline and proves what
it promises over whole runs.

- `Mpeg2TsDecoder.dfy`, `DemuxSpec.dfy`: the demultiplexer as an object, and the state machine it is
  proved equal to. `Reassembly`, `Chopping`, `ContiguousUnits`, `ProgramTables`, `ProgramLearning`,
  `NonInterference`, `DemuxRate`, `Delivery`, `WholeRuns` and `EveryPacket` prove properties of every run of
  that machine.
- `PmtProxy.dfy`, `KlvParser.dfy`, `AccessUnit.dfy`, `Clock.dfy` (with `Bits.dfy`): the objects the
  demultiplexer owns. `RateGate.dfy`: the arithmetic of its output rate.
- `JsonWriter.dfy`: the JSON printer over property trees (`PropertyTree.dfy`). `JsonGrammar.dfy` is a
  reader written from RFC 8259, `JsonRoundTrip.dfy` proves what the printed text reads back as,
  `JsonEncoding.dfy` when its bytes are UTF-8, `JsonLayout.dfy` that both layouts have the same tokens,
  `JsonPretty.dfy` where the pretty one breaks and indents its lines, and `JsonBrackets.dfy` that brackets are
  balanced.
- `BerLength.dfy`, `HexDump.dfy`, `UdpWriter.dfy`: the three framing loops and their inverses.
- `MainLoop.dfy`: the reading loop, buffer after buffer. `Pipeline.dfy`: from transport packets to the texts
  sent and what is read of their datagrams.

The transport-stream and KLV libraries (mp2tp, klvp) are not part of this repository. They appear as
the record `DemuxSpec.Library` of functions. Three things are assumed of them: each parser's answer is
a function of the bytes it is given, so nothing carries over from one parse to the next; a PES header is
no longer than the payload it was parsed from; and the count that parsing an AU wrapper returns is
positive exactly when it has cells. `boost::lexical_cast<float>` followed by streaming is a function
parameter `cast` from text to an optional token; `JsonRoundTrip.PrintsFloats` says what streaming a
float can print. The output interval (90000 divided by the requested frequency) is a parameter. The
callback is modelled by whether it is set and by the list of trees it has been given. In the JSON
modules a character is one byte of the text.

## What the code does where one might expect otherwise

- `PCRClock::baseTime` never looks at the lowest bit of the base, and in `extTime` the shift binds
  before the mask, so that term is always zero. `Clock.ExactError` gives the exact error.
- A leaf whose text casts to an infinite or not-a-number float is printed as `inf` or `nan`, and the
  output is then not JSON (`JsonRoundTrip.NonFiniteLeafIsNotJson`). Bytes from 0x80 on are printed as
  they are, so a string that is not UTF-8 makes the output no JSON text either
  (`JsonEncoding.LoneByteIsNotJson`). `JsonEncoding.BytesRoundTrip` says that these are the only two
  ways: the output is JSON text, encoding included, if and only if neither occurs.
- A sample is emitted with the stream id and the clock of the start packet that follows it, and the
  last one stays pending. Every empty segment is dropped, not only a leading one.
- All PIDs that carry KLV share one sample buffer. One that the PAT also lists adds its continuation packets
  to it but never closes a sample (`EveryPacket.PacketInRun`).
- A leaf whose text casts to a float is printed as that float, so digits beyond six significant ones are
  lost. `JsonRoundTrip.NormalKeepsTree` says exactly when the text still determines the tree.
- The callback is set only after the first buffer has been read, so outputs of that buffer are counted and
  never delivered (`MainLoop.FirstBufferUnheard`).
- The callback lets the exception through with which Boost refuses a tree, so the first such tree ends the
  program (`Pipeline.DeliveredText`).
- `encodeBERLength` writes nothing for lengths from 65536 on. `BerLength.FrameRoundTrip` states both
  directions.

## Model

| member | source | states |
|---|---|---|
| Mpeg2TsDecoder.Mpeg2TsDecoder.constructor | MiDemux/src/Mpeg2TsDecoder.h:35-45 | A new demultiplexer owns its parts and is in the machine's initial state |
| Mpeg2TsDecoder.Mpeg2TsDecoder.OnPacket | MiDemux/src/Mpeg2TsDecoder.cpp:12-24 | One packet takes the object from its state to the machine's next state, for every packet and state |
| Mpeg2TsDecoder.Mpeg2TsDecoder.SetCallback | MiDemux/src/Mpeg2TsDecoder.cpp:31-34 | Setting or resetting the callback changes nothing else |
| Mpeg2TsDecoder.Mpeg2TsDecoder.Reads | MiDemux/src/Mpeg2TsDecoder.cpp:26-29 | Returns the number of outputs made |
| Mpeg2TsDecoder.Mpeg2TsDecoder.UpdateSystemClock | MiDemux/src/Mpeg2TsDecoder.cpp:148-164 | Only an adaptation field with a PCR moves the clocks, and both move together |
| Mpeg2TsDecoder.Mpeg2TsDecoder.ProcessStartPayload | MiDemux/src/Mpeg2TsDecoder.cpp:37-74 | PAT, program map and PES branches, with the sample that is closed |
| Mpeg2TsDecoder.Mpeg2TsDecoder.ProcessPes | MiDemux/src/Mpeg2TsDecoder.cpp:57-73 | A valid header on the KLV PID closes a non-empty buffer and starts a new one; otherwise nothing happens |
| Mpeg2TsDecoder.Mpeg2TsDecoder.ParsePmt | MiDemux/src/Mpeg2TsDecoder.cpp:49-54 | The section gathered is kept, and the program is updated when it parses |
| Mpeg2TsDecoder.Mpeg2TsDecoder.ProcessPayload | MiDemux/src/Mpeg2TsDecoder.cpp:76-94 | Continuation bytes go to the section and, on a KLV PID, to the sample |
| Mpeg2TsDecoder.Mpeg2TsDecoder.ProcessKlv | MiDemux/src/Mpeg2TsDecoder.cpp:96-132 | The gate, the cells of a wrapped sample, the fallback to the raw sample, and the other stream ids |
| Mpeg2TsDecoder.Mpeg2TsDecoder.ProcessCells | MiDemux/src/Mpeg2TsDecoder.cpp:113-117 | Every cell is parsed and put out, in order |
| Mpeg2TsDecoder.Mpeg2TsDecoder.OutputSet | MiDemux/src/Mpeg2TsDecoder.cpp:134-146 | One more read, one more tree delivered if a callback is set, and a cleared parser either way |
| Mpeg2TsDecoder.Feed | MiDemux/src/MiDemux.cpp:28-41 | Whatever is done with a demultiplexer, it goes through exactly the states of the machine |
| AccessUnit.AccessUnit.Insert | MiDemux/src/AccessUnit.cpp:21-24 | The bytes are appended in order, nothing else changes |
| DemuxSpec.RunInvariants | MiDemux/src/Mpeg2TsDecoder.cpp:12-94 | Over any run the system clock shows the last PCR, a PAT once learned stays, and a classified PID stays as it is |
| DemuxSpec.LastPcr | MiDemux/src/Mpeg2TsDecoder.cpp:148-164 | After any run from the start the clock shows the PCR of the last packet with the adaptation bit set, a field that is not empty and a PCR flag, its base rounded down to even; and 0 if there was none |
| DemuxSpec.FrontOfRun | MiDemux/src/Mpeg2TsDecoder.cpp:37-94 | Tables, sample buffer and clocks after any run depend on its packets only, not on gating, delivery or callbacks |
| DemuxSpec.BackOfRun | MiDemux/src/Mpeg2TsDecoder.cpp:96-146 | Gating and delivery after any run depend only on the samples that reach processKlv, each with the callback set or not at that moment |
| Reassembly.Reassembled | MiDemux/src/Mpeg2TsDecoder.cpp:57-94 | For every run with one known KLV PID, whatever else arrives in between, processKlv has handled exactly that PID's bytes cut at start packets with a valid PES header, without those headers, without empty segments, each with the stream id and clock of the packet that closes it; the last segment is pending |
| Chopping.ChoppingIsIrrelevant | MiDemux/src/Mpeg2TsDecoder.cpp:57-94 | Two runs in which the one KLV PID carries the same segments, closed at the same clocks, leave the same back end and pending bytes, however the segments are cut into packets and whatever arrives between those; and the same whole state if they also agree on program map packets, last PCR and last callback |
| Chopping.RecutUnit | MiDemux/src/Mpeg2TsDecoder.cpp:59-93 | Cutting a PES unit anywhere in a stream into packets differently, its header within the start packet, leaves the same segments |
| Chopping.RecutRuns | MiDemux/src/Mpeg2TsDecoder.cpp:57-94 | Two runs that differ in how a PES unit of the KLV PID is cut, with any packets of other PIDs in between, end in the same state |
| ContiguousUnits.ContiguousUnit | MiDemux/src/Mpeg2TsDecoder.cpp:59-93 | For a unit whose packets follow each other with no PCR after the first, the same of any PID outside the PAT, also when several PIDs carry KLV |
| ProgramTables.SameProgramPackets | MiDemux/src/Mpeg2TsDecoder.cpp:44-56 | Two runs with the same program map packets leave the same PAT, section and program, whatever else arrives |
| ProgramTables.SplitSection | MiDemux/src/Mpeg2TsDecoder.cpp:79-88 | In any run, a program map table spread over any number of packets, with others in between, has the effect of the same section in one packet |
| ProgramTables.NetworkPacket | MiDemux/src/Mpeg2TsDecoder.cpp:45-53 | In every state, a packet of a PID that the PAT lists under program 0 leaves PAT, section and program as they are |
| ProgramTables.NetworkIgnored | MiDemux/src/Mpeg2TsDecoder.cpp:45-88 | Deleting all packets of program 0 from any run leaves the same PAT, section and program |
| ProgramLearning.ProgramOfRun | MiDemux/src/Mpeg2TsDecoder.cpp:44-56 | In any run once there is a PAT, the program is the result of updating with exactly the tables that parse, in order |
| ProgramLearning.KlvPids | MiDemux/src/Mpeg2TsDecoder.cpp:40-56 | After any run from the start, the PAT is the first that lists anything, and a PID carries KLV exactly when the first effective entry announcing it says so |
| NonInterference.Deletion | MiDemux/src/Mpeg2TsDecoder.cpp:12-94 | Deleting any packets without PCR whose PID is of no concern when they arrive leaves final state and deliveries unchanged |
| RateGate.PassesExactly | MiDemux/src/Mpeg2TsDecoder.cpp:98-104 | For all 64-bit values, when the wrapping comparison lets a sample through |
| RateGate.PassesWithPcrClock | MiDemux/src/Mpeg2TsDecoder.cpp:98-104 | With 33-bit clocks a sample is held back exactly when it lies in [last, last + interval] |
| RateGate.RateBound | MiDemux/src/Mpeg2TsDecoder.cpp:98-104 | Over any clock movement, passes times (interval + 1) is at most the forward motion plus (interval + 1) times the number of backward steps |
| RateGate.Spacing | MiDemux/src/Mpeg2TsDecoder.cpp:98-104 | Consecutive passes are more than the interval apart unless the clock went back |
| RateGate.Greedy | MiDemux/src/Mpeg2TsDecoder.cpp:98-104 | The next sample to pass is the first one outside [pass, pass + interval] |
| RateGate.GreedyFromStart | MiDemux/src/Mpeg2TsDecoder.cpp:98-104 | The first sample to pass is the first one outside [start time, start time + interval] |
| DemuxRate.TimeIsLastPass | MiDemux/src/Mpeg2TsDecoder.cpp:96-104 | After any number of packets the demultiplexer's time is the clock of the gate's last pass |
| DemuxRate.TrueSpacing | MiDemux/src/Mpeg2TsDecoder.cpp:148-163 | Consecutive passes of the gate over a run's packets are at least the interval apart in true 33-bit PCR bases, unless the bases went back, although the code reads a base with its lowest bit cleared |
| DemuxRate.AcceptedSpacing | MiDemux/src/Mpeg2TsDecoder.cpp:96-104 | The same of the samples the demultiplexer itself accepts in any run, with any changes of the callback in between |
| DemuxRate.GreedyInRun | MiDemux/src/Mpeg2TsDecoder.cpp:98-104 | In any run, before the first accepted sample and after every one, the next is accepted exactly when its clock leaves the interval after the start time or that sample; a wrap never silences the stream |
| DemuxRate.AcceptedArePasses | MiDemux/src/Mpeg2TsDecoder.cpp:96-104 | A run's accepted samples are as many as the passes of the gate over its packets |
| DemuxRate.RunRate | MiDemux/src/Mpeg2TsDecoder.cpp:96-104 | The rate bound for every whole run from the start, over the clock readings of all its packets |
| Delivery.Delivered | MiDemux/src/Mpeg2TsDecoder.cpp:96-146 | Whatever reaches the gate, the callback gets the reference tree of every unit parsed while it was set, in order, and nothing leaks from one output into the next |
| Delivery.AcceptedSample | MiDemux/src/Mpeg2TsDecoder.cpp:96-146 | A sample that passes adds one read for each AU cell if its stream id is 0xFC and it has cells, one if it is 0xFC without cells or 0xBD, none otherwise; and with a callback set the tree of each cell, or of the whole sample, in order |
| Delivery.DeliveredSegments | MiDemux/src/Mpeg2TsDecoder.cpp:57-146 | For every run with one known KLV PID, the trees delivered and the reads counted are those of the accepted segments of that PID's packets: a function of the inputs alone |
| Delivery.WorkCount | MiDemux/src/Mpeg2TsDecoder.cpp:96-132 | What is parsed in all is the sum over the accepted samples of their cells, or one for a sample that is parsed whole |
| Delivery.ReadsConserved | MiDemux/src/Mpeg2TsDecoder.cpp:134-146 | From the start, reads equal that sum, and equal callback invocations plus outputs made while no callback was set |
| WholeRuns.FromTheStart | MiDemux/src/Mpeg2TsDecoder.cpp:12-146 | For every run from the start whose packets announce at most one PID as KLV, which the PAT does not list: what is delivered, counted and left pending are the segments of that PID's packets after the packet that announced it, and nothing at all when none did |
| EveryPacket.PacketInRun | MiDemux/src/Mpeg2TsDecoder.cpp:12-94 | In any run from the start, with any PIDs carrying KLV: a start packet with a valid header, of a PID announced as KLV and not in the PAT, replaces the sample and hands the old one to processKlv unless it is empty; a continuation packet of an announced PID adds its bytes; no other packet has an influence on either |
| EveryPacket.EveryRun | MiDemux/src/Mpeg2TsDecoder.cpp:12-146 | For every run from the start without exception, what is delivered, counted and left pending are the closed segments of the packets that replace or add to the sample |
| EveryPacket.ListedPidsAreSilent | MiDemux/src/Mpeg2TsDecoder.cpp:40-56 | A run whose only PIDs announced as KLV are in the PAT delivers and counts nothing |
| WholeRuns.OneKlvPidOfRun | MiDemux/src/Mpeg2TsDecoder.cpp:37-94 | In a run from the start, cut anywhere, one KLV PID is known at the cut and the only one at the end exactly when the packets say so: the first PAT, and the first effective announcements before the cut and in the whole run |
| PmtProxy.PmtProxy.Update | MiDemux/src/PmtProxy.cpp:15-123 | A table with the version last seen changes nothing; any other sets the version and inserts its recognised entries, the first for a PID winning |
| PmtProxy.PmtProxy.UpdateEntry | MiDemux/src/PmtProxy.cpp:25-121 | One entry adds its PID, if it is recognised and new, with the type its stream type and descriptors announce |
| PmtProxy.PmtProxy.PacketType | MiDemux/src/PmtProxy.cpp:125-136 | The type a PID is mapped to, or UNKNOWN |
| PmtProxy.ReadIdentifier | MiDemux/src/PmtProxy.cpp:30-49 | The identifier of the first descriptor with one of the tags, through the zeroed character buffers |
| PmtProxy.ReadRegistration | MiDemux/src/PmtProxy.cpp:67-76 | The C string of the first registration descriptor |
| PmtProxy.IdentifierIs | MiDemux/src/PmtProxy.cpp:36-49 | Through strncpy and strcmp, an identifier is found exactly when its four bytes stand behind the first three of a metadata descriptor (0x26), or at the front of any other |
| PmtProxy.ClassifiedKlva | MiDemux/src/PmtProxy.cpp:27-54 | An entry announces KLV exactly when its stream type is 0x06 or 0x15 and its first descriptor tagged 0x05 or 0x26 has the bytes 4B 4C 56 41 at offset 0 or 3 |
| PmtProxy.ClassifiedExiXml | MiDemux/src/PmtProxy.cpp:27-62 | The same of EXI and XML |
| PmtProxy.ClassifiedH264 | MiDemux/src/PmtProxy.cpp:65-87 | Stream type 0x1B is HDMV exactly when its first registration descriptor holds one of the two texts, and H.264 otherwise |
| PmtProxy.ClassifiedOthers | MiDemux/src/PmtProxy.cpp:88-121 | Stream type 0x24 is H.265 exactly when its first registration descriptor begins with HEVC; 0x02 is video, 0x03 and 0x04 are audio |
| PmtProxy.FirstTableCounts | MiDemux/src/PmtProxy.cpp:17-22 | A first table with a five-bit version is never taken for a repeated one |
| PmtProxy.History | MiDemux/src/PmtProxy.cpp:15-136 | After any history of tables a PID has the type of the first effective entry announcing it, and UNKNOWN when there is none |
| PmtProxy.Stable | MiDemux/src/PmtProxy.cpp:53-59 | A type once assigned survives every later table |
| KlvParser.KlvParserImpl.Parse | MiDemux/src/KlvParserImpl.cpp:26-54 | The parser's fields after all callbacks of a parse |
| KlvParser.KlvParserImpl.OnBeginSet | MiDemux/src/KlvParserImpl.cpp:26-30 | Remembers the type of the set |
| KlvParser.KlvParserImpl.OnElement | MiDemux/src/KlvParserImpl.cpp:32-38 | Counts the element and appends its entry |
| KlvParser.KlvParserImpl.OnEndSet | MiDemux/src/KlvParserImpl.cpp:40-54 | The end of a local set puts the elements under metadata_set; other ends do nothing |
| KlvParser.KlvParserImpl.Clear | MiDemux/src/KlvParserImpl.cpp:70-74 | Both trees are emptied; type and count stay |
| KlvParser.OutputMeans | MiDemux/src/KlvParserImpl.cpp:40-54 | A tree holds exactly the elements raised up to the last end of a local set, and is empty when there was none |
| KlvParser.ParseFromClear | MiDemux/src/KlvParserImpl.cpp:26-54 | From a cleared parser every event sequence leaves the reference tree, the elements in order, and their count |
| KlvParser.OutputShape | MiDemux/src/KlvParserImpl.cpp:46-48 | A later end replaces metadata_set, it never duplicates it |
| Clock.ExactError | MiDemux/src/Clock.cpp:51-73 | For all PCR fields: the base is the standard's rounded down to even, the extension is the standard's modulo 256, and the PCR is short by exactly 0, 256, 300 or 556 |
| Clock.ReadEncoded | MiDemux/src/Clock.cpp:51-73 | For every base and extension a multiplexer can send, what is read, and exactly when it is right |
| Clock.BaseTimeMonotone | MiDemux/src/Clock.cpp:57-65 | The base read keeps the order of the true bases and their distance to within one tick |
| Clock.BaseTimeIsSum | MiDemux/src/Clock.cpp:57-65 | The shifted bytes do not overlap, so or-ing them is adding them |
| Clock.ExtTimeIsLowByte | MiDemux/src/Clock.cpp:67-73 | The masked term is always zero |
| Clock.PCRClock.SetTime | MiDemux/src/Clock.cpp:41-44 | All six bytes are copied |
| Clock.PCRClock.BaseTime | MiDemux/src/Clock.cpp:57-65 | Returns the standard's base rounded down to even |
| Clock.PCRClock.ExtTime | MiDemux/src/Clock.cpp:67-73 | Returns the standard's extension modulo 256 |
| Clock.PCRClock.Time | MiDemux/src/Clock.cpp:51-55 | Returns the standard's PCR less 300 for an odd base and less 256 for an extension of 256 or more |
| Clock.SystemClock.SetTime | MiDemux/src/Clock.cpp:17-23 | The cell holds the time set |
| JsonWriter.WriteJsonHelper | src/main.cpp:95-157 | The stream gets exactly the printed text of the node appended, in either layout and at any indent |
| JsonWriter.WriteArray | src/main.cpp:119-136 | The array branch and its loop |
| JsonWriter.WriteObject | src/main.cpp:137-155 | The object branch and its loop |
| JsonWriter.WrittenExactly | src/main.cpp:229 | A tree's printed text is written if and only if the root has no data and no path of child indices leads to a node with both data and children |
| JsonWriter.EscapeCharText | src/main.cpp:107 | Which characters are printed as themselves, and what every other one is printed as |
| JsonRoundTrip.RoundTrip | src/main.cpp:95-157 | For every tree and both layouts, reading the text back, each byte as one character, gives the tree's normal form if no leaf prints a non-finite float, and fails otherwise |
| JsonRoundTrip.ValueRead | src/main.cpp:103-157 | The same for a node at any indent, followed by any text that does not extend a number |
| JsonRoundTrip.NormalKeepsTree | src/main.cpp:103-157 | The normal form determines the tree exactly when no node has both data and children, the root has no data, and numeric leaves print as they are |
| JsonRoundTrip.NonFiniteLeafIsNotJson | src/main.cpp:107-116 | A leaf that casts to infinity makes the output no JSON |
| JsonRoundTrip.EscapedString | src/main.cpp:107-115 | An escaped string between quotation marks reads back as the string |
| JsonRoundTrip.LeafRead | src/main.cpp:104-118 | A leaf reads back as a number token or as its data |
| PropertyTree.CountIsSize | src/main.cpp:119 | The array test holds exactly when every child's key is empty |
| JsonLayout.SameTokens | src/main.cpp:119-155 | Erasing whitespace outside string literals from either layout leaves the compact text, at every indent |
| JsonPretty.PrettyIsLaidOut | src/main.cpp:119-155 | The pretty text is the compact text with a new line after every opening bracket and comma and before every closing one, four blanks for every open bracket at the start of a line, and a blank after every colon |
| JsonBrackets.PrintBalanced | src/main.cpp:103-155 | At every recursive call and in both layouts, the brackets outside string literals are balanced, each closed by its own kind and none that was open before; also with non-finite leaves |
| JsonEncoding.BytesRoundTrip | src/main.cpp:95-157 | For every tree and both layouts, the bytes are JSON text, UTF-8 included, if and only if no leaf prints a non-finite float and every key and string printed is well-formed UTF-8; then they read back as the normal form |
| JsonEncoding.PrintUtf8 | src/main.cpp:103-155 | What is printed for a node is well-formed UTF-8 exactly when the keys and strings printed are |
| JsonEncoding.EscapeUtf8 | src/main.cpp:107 | Escaping neither makes nor breaks UTF-8 |
| JsonEncoding.LoneByteIsNotJson | src/main.cpp:107-116 | A string leaf with the single byte 0xFF makes the output no JSON text |
| BerLength.EncodeBERLength | MiDemux/src/KlvDecodeVisitor.cpp:206-230 | The octets written into the buffer, their number, and that nothing else in it changes |
| BerLength.LengthRoundTrip | MiDemux/src/KlvDecodeVisitor.cpp:206-230 | For all lengths below 65536, a reader of section 8.1.3 of ITU-T X.690 recovers the length and consumes exactly the octets written |
| BerLength.LengthMinimal | MiDemux/src/KlvDecodeVisitor.cpp:206-230 | No definite form of the same length is shorter |
| BerLength.LengthPrefixFree | MiDemux/src/KlvDecodeVisitor.cpp:206-230 | No encoded length is the beginning of another |
| BerLength.FrameRoundTrip | MiDemux/src/KlvDecodeVisitor.cpp:605-620 | The rebuilt set reads back as the value, consuming exactly its own octets, if and only if the length is below 65536 |
| BerLength.RebuildSecuritySet | MiDemux/src/KlvDecodeVisitor.cpp:605-620 | The bytes handed to the security set parser are the frame of the value, and decode to it |
| HexDump.DumpValue | MiDemux/src/KlvDecodeVisitor.cpp:245-251 | The text has one group for every byte, in order |
| HexDump.DumpRoundTrip | MiDemux/src/KlvDecodeVisitor.cpp:245-251 | A reader of "0xNN " groups returns the original bytes, and the text has five characters a byte |
| HexDump.UndumpRoundTrip | MiDemux/src/KlvDecodeVisitor.cpp:245-251 | Any text the reader accepts is the dump of what it returns, so texts and byte sequences correspond one to one |
| UdpWriter.UdpImpl.Send | src/KlvTextWriter.cpp:203-239 | The datagrams handed to the socket are the chunks of the text, none when there is no socket |
| UdpWriter.ChunksConserve | src/KlvTextWriter.cpp:211-238 | The chunks join to the text, all but the last have 1000 bytes, the last has 1 to 1000, and their number is the length divided by 1000, rounded up |
| UdpWriter.CounterFits | src/KlvTextWriter.cpp:211-238 | The loop's `int` counter never overflows if and only if the text's length fits an `int` |
| Pipeline.DeliveredShape | MiDemux/src/Mpeg2TsDecoder.cpp:134-146 | In every run each tree delivered is empty or a single metadata set |
| MainLoop.ReadAll | src/main.cpp:214-256 | The demultiplexer goes through the buffers with the callback set after each; reading stops after the first buffer that brings the reads to the limit, and only then or at the end of the input |
| MainLoop.MainPackets | src/main.cpp:214-221 | The loop feeds the packets of all buffers, each once and in order |
| MainLoop.FirstBufferUnheard | src/main.cpp:214-246 | Reads are the outputs of the first buffer plus the trees delivered: what comes of the first buffer is counted and never delivered, everything after it is |
| Pipeline.DeliveredText | src/main.cpp:223-245 | In every run the texts sent are those of the trees delivered before the first that has a node with both data and children, all of them if none has; each is received, joined from its datagrams, as an empty object or as one member metadata_set with the normal form of its entries, and nothing readable is received exactly when an entry prints a non-finite float or is not UTF-8 |
| Pipeline.VisitsAreWritten | MiDemux/src/KlvDecodeVisitor.cpp:93-96 | A metadata set whose entries have no data and only leaves below, as visits build them, is always written |
| Pipeline.EverythingSent | src/main.cpp:221-245 | In every run a text is sent for every tree delivered, when no entry has a node with both data and children |
| Pipeline.SentOfPrefix | src/main.cpp:221-271 | A program that ends at a refused tree has sent what the whole run is said to send: later packets add nothing |

## Left out

- Parsing inside the mp2tp and klvp libraries (packet synchronisation, PAT, PMT, PES, AU wrapper, KLV, checksums): functions of their input bytes here, so the KLV library keeping state between parses would not be captured.
- Reassembly.Reassembled: for one KLV PID that is known at the start and not listed in the PAT, because the code gives all KLV PIDs one buffer; EveryPacket.EveryRun is the theorem for every run.
- Chopping.ChoppingIsIrrelevant: under the same hypothesis, in both runs.
- Chopping.RecutUnit: for PES headers that lie within the start packet, because the code parses them there.
- ContiguousUnits.ContiguousUnit: not for packets of other PIDs or PCRs between the unit's packets; that case is Chopping.ChoppingIsIrrelevant.
- WholeRuns.FromTheStart: for runs whose packets announce at most one KLV PID, not listed in the PAT, so that its segments are those of one PID; EveryPacket.EveryRun covers the other runs.
- ProgramTables.SplitSection: assumes that the table parser rejects what has been gathered at each packet boundary before the last, which is a property of the library.
- DemuxRate.GreedyInRun: for intervals up to 2^64 - 2^33, beyond which a backward step can be too small to wrap past the interval; RateGate.PassesExactly covers every interval.
- BerLength.RebuildSecuritySet: requires the framed value to fit the 4095-byte buffer, that is, up to 4091 bytes (`BerLength.FrameFits`), which the code does not check; beyond that its copies leave the buffer and have no defined result.
- UdpWriter.UdpImpl.Send: requires the length to fit the `int` the loop counts down in, which is exactly when that counter does not overflow (`UdpWriter.CounterFits`); what sendto reports is ignored by the code, so the datagrams are those handed to it.
- Mpeg2TsDecoder.Mpeg2TsDecoder.OutputSet: the read counter is unbounded here, an `int` in the code.
- The callback is a flag and a list of trees; a callback that throws or calls back into the demultiplexer is not modelled.
- The element visits (KlvDecodeVisitor, KlvSecuritySetVisitor): each appends one entry, which an `Element` event carries; what the entry says, the name database and timestamps are not modelled.
- The rounding and printing of floats: the parameter `cast`.
- The XML and INFO formats.
- MainLoop.ReadAll: the packets that each buffer completes are given, since finding them in the bytes is the library's; a signal or an exception that ends the loop is not modelled there.
- Escapes of surrogate code units: the reference reader does not accept them; the writer never produces them.
- ConsoleImpl, command line, URL parsing, files, sockets, signals, and the mutex of SystemClock.
