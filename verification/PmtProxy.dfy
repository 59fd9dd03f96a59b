/** The program map: which stream type each PID was first announced with. */
module PmtProxy {
  import opened Basics

  datatype StreamType = UNKNOWN | H264 | H265 | HDMV | VIDEO | AUDIO | KLVA | EXI | XML

  /** A descriptor's length is one byte, so it carries at most 255 bytes. */
  type Descriptor = d: RawDescriptor | |d.value| <= 255 witness RawDescriptor(0, [])

  datatype RawDescriptor = RawDescriptor(tag: byte, value: seq<byte>)

  datatype Entry = Entry(streamType: byte, pid: nat, descriptors: seq<Descriptor>)

  datatype Table = Table(version: byte, entries: seq<Entry>)

  const ID_KLVA: seq<byte> := [0x4B, 0x4C, 0x56, 0x41]
  const ID_EXI: seq<byte> := [0x24, 0x45, 0x58, 0x49]
  const ID_XML: seq<byte> := [0x24, 0x58, 0x4D, 0x4C]
  const ID_HEVC: seq<byte> := [0x48, 0x45, 0x56, 0x43]
  const TAG_HDMV: seq<byte> := [0x48, 0x44, 0x4D, 0x56, 0xFF, 0x1B, 0x44, 0x3F]
  const TAG_HDPR: seq<byte> := [0x48, 0x44, 0x50, 0x52, 0xFF, 0x1B, 0x67, 0x3F]

  const REGISTRATION: byte := 0x05
  const METADATA: byte := 0x26
  const NO_VERSION: byte := 0xFF

  // ----- Character buffers

  function Zeros(n: nat): (z: seq<byte>)
    ensures |z| == n && forall i :: 0 <= i < n ==> z[i] == 0
  {
    if n == 0 then [] else [0] + Zeros(n - 1)
  }

  /** `char value[255]{}` after a descriptor's bytes were copied into it. */
  function Buffer(v: seq<byte>): (b: seq<byte>)
    requires |v| <= 255
    ensures |b| == 255
  {
    v + Zeros(255 - |v|)
  }

  /** The C string at the front of a buffer: the bytes before the first zero. */
  function CString(b: seq<byte>): (s: seq<byte>)
    ensures |s| <= |b| && s == b[..|s|]
    ensures forall i :: 0 <= i < |s| ==> s[i] != 0
    ensures |s| < |b| ==> b[|s|] == 0
  {
    if b == [] || b[0] == 0 then [] else [b[0]] + CString(b[1..])
  }

  /** `strncpy(to, from, 4)` into a zeroed `char to[5]`, read back as a C string. */
  function FirstFour(s: seq<byte>): seq<byte> {
    if |s| <= 4 then s else s[..4]
  }

  function IdOffset(tag: byte): nat {
    if tag == METADATA then 3 else 0
  }

  function FormatIdentifier(d: Descriptor): seq<byte> {
    FirstFour(CString(Buffer(d.value)[IdOffset(d.tag)..]))
  }

  /** The bytes stand in a descriptor's value at an offset. */
  predicate CarriesAt(value: seq<byte>, at: nat, bytes: seq<byte>) {
    |value| >= at + |bytes| && value[at..at + |bytes|] == bytes
  }

  /** Four bytes without a zero are copied exactly when they stand at the front. */
  lemma CopiedIs(b: seq<byte>, id: seq<byte>)
    requires |b| >= 4 && |id| == 4 && forall i :: 0 <= i < 4 ==> id[i] != 0
    ensures FirstFour(CString(b)) == id <==> b[..4] == id
  {
    var s := CString(b);
    if |s| < 4 {
      assert b[..4][|s|] == 0;
    } else {
      assert s[..4] == b[..4];
    }
  }

  lemma BufferAt(value: seq<byte>, k: nat, id: seq<byte>)
    requires |value| <= 255 && k + 4 <= 255 && |id| == 4 && id[3] != 0
    ensures Buffer(value)[k..][..4] == id <==> CarriesAt(value, k, id)
  {
    var four := Buffer(value)[k..][..4];
    assert four[3] == Buffer(value)[k + 3];
    if |value| >= k + 4 {
      assert four == value[k..k + 4];
    }
  }

  /** A four-byte identifier is found exactly when its bytes stand behind the three other bytes of a
      metadata descriptor (tag 0x26), or at the front of any other. */
  lemma IdentifierIs(d: Descriptor, id: seq<byte>)
    requires |id| == 4 && forall i :: 0 <= i < 4 ==> id[i] != 0
    ensures FormatIdentifier(d) == id <==> CarriesAt(d.value, if d.tag == 0x26 then 3 else 0, id)
  {
    var k := IdOffset(d.tag);
    CopiedIs(Buffer(d.value)[k..], id);
    BufferAt(d.value, k, id);
  }

  /** The C string in a copied value is a text exactly when its bytes stand at the front and the value
      ends there or goes on with a zero. */
  lemma CStringOfValue(d: Descriptor, text: seq<byte>)
    requires |text| < 255 && forall i :: 0 <= i < |text| ==> text[i] != 0
    ensures CString(Buffer(d.value)) == text <==> IsText(d.value, text)
  {
    var b := Buffer(d.value);
    var n := |text|;
    assert b[n] == if n < |d.value| then d.value[n] else 0;
    if IsText(d.value, text) {
      assert b[..n] == d.value[..n];
      CStringIs(b, text);
    }
    assert |d.value| < n ==> b[|d.value|] == 0;
    if CString(b) == text {
      assert b[..n] == text;
      if |d.value| >= n {
        assert d.value[..n] == b[..n];
      }
    }
  }

  predicate IsText(value: seq<byte>, text: seq<byte>) {
    CarriesAt(value, 0, text) && (|value| == |text| || value[|text|] == 0)
  }

  // ----- Classification of one table entry

  /** The first descriptor with one of the tags. */
  function FirstTagged(descriptors: seq<Descriptor>, tags: set<byte>): Option<Descriptor> {
    if descriptors == [] then None
    else if descriptors[0].tag in tags then Some(descriptors[0])
    else FirstTagged(descriptors[1..], tags)
  }

  predicate FirstAt(descriptors: seq<Descriptor>, tags: set<byte>, k: nat) {
    && k < |descriptors| && descriptors[k].tag in tags
    && forall j :: 0 <= j < k ==> descriptors[j].tag !in tags
  }

  lemma {:induction false} FirstTaggedAt(descriptors: seq<Descriptor>, tags: set<byte>, k: nat)
    requires FirstAt(descriptors, tags, k)
    ensures FirstTagged(descriptors, tags) == Some(descriptors[k])
    decreases k
  {
    if k > 0 {
      assert forall j :: 0 <= j < k - 1 ==> descriptors[1..][j] == descriptors[j + 1];
      FirstTaggedAt(descriptors[1..], tags, k - 1);
    }
  }

  lemma {:induction false} FirstTaggedExists(descriptors: seq<Descriptor>, tags: set<byte>) returns (k: nat)
    requires FirstTagged(descriptors, tags).Some?
    ensures FirstAt(descriptors, tags, k)
    decreases |descriptors|
  {
    if descriptors[0].tag in tags {
      k := 0;
    } else {
      var k' := FirstTaggedExists(descriptors[1..], tags);
      k := k' + 1;
      forall j | 0 <= j < k ensures descriptors[j].tag !in tags {
        if j > 0 { assert descriptors[j] == descriptors[1..][j - 1]; }
      }
    }
  }

  function Identify(descriptors: seq<Descriptor>, tags: set<byte>): seq<byte> {
    match FirstTagged(descriptors, tags)
    case None => []
    case Some(d) => FormatIdentifier(d)
  }

  function RegistrationText(descriptors: seq<Descriptor>): seq<byte> {
    match FirstTagged(descriptors, {REGISTRATION})
    case None => []
    case Some(d) => CString(Buffer(d.value))
  }

  /** The type an entry announces; `None` when the entry is not recognised. */
  function Classify(e: Entry): (r: Option<StreamType>)
    ensures r != Some(UNKNOWN)
  {
    match e.streamType
    case 0x06 | 0x15 => ClassifyMetadata(Identify(e.descriptors, {REGISTRATION, METADATA}))
    case 0x1B =>
      var text := RegistrationText(e.descriptors);
      Some(if text == TAG_HDMV || text == TAG_HDPR then HDMV else H264)
    case 0x02 => Some(VIDEO)
    case 0x03 | 0x04 => Some(AUDIO)
    case 0x24 => if Identify(e.descriptors, {REGISTRATION}) == ID_HEVC then Some(H265) else None
    case _ => None
  }

  function ClassifyMetadata(id: seq<byte>): (r: Option<StreamType>)
    ensures r != Some(UNKNOWN)
  {
    if id == ID_KLVA then Some(KLVA)
    else if id == ID_EXI then Some(EXI)
    else if id == ID_XML then Some(XML)
    else None
  }

  /** The first registration or metadata descriptor (tags 0x05 and 0x26) carries a format identifier. */
  ghost predicate HasFormat(e: Entry, id: seq<byte>) {
    exists k: nat :: FirstAt(e.descriptors, {0x05, 0x26}, k)
      && if e.descriptors[k].tag == 0x05 then CarriesAt(e.descriptors[k].value, 0, id)
         else CarriesAt(e.descriptors[k].value, 3, id)
  }

  /** The first registration descriptor begins with a format identifier. */
  ghost predicate HasRegistration(e: Entry, id: seq<byte>) {
    exists k: nat :: FirstAt(e.descriptors, {0x05}, k) && CarriesAt(e.descriptors[k].value, 0, id)
  }

  /** The first registration descriptor holds a text. */
  ghost predicate HasText(e: Entry, text: seq<byte>) {
    exists k: nat :: FirstAt(e.descriptors, {0x05}, k) && IsText(e.descriptors[k].value, text)
  }

  lemma FormatFound(e: Entry, id: seq<byte>)
    requires |id| == 4 && forall i :: 0 <= i < 4 ==> id[i] != 0
    ensures Identify(e.descriptors, {0x05, 0x26}) == id <==> HasFormat(e, id)
  {
    var tags: set<byte> := {0x05, 0x26};
    forall k: nat | FirstAt(e.descriptors, tags, k)
      ensures Identify(e.descriptors, tags) == FormatIdentifier(e.descriptors[k])
      ensures FormatIdentifier(e.descriptors[k]) == id
         <==> CarriesAt(e.descriptors[k].value, if e.descriptors[k].tag == 0x26 then 3 else 0, id)
    {
      FirstTaggedAt(e.descriptors, tags, k);
      IdentifierIs(e.descriptors[k], id);
    }
    if FirstTagged(e.descriptors, tags).Some? {
      var k := FirstTaggedExists(e.descriptors, tags);
    }
  }

  lemma RegistrationFound(e: Entry, id: seq<byte>)
    requires |id| == 4 && forall i :: 0 <= i < 4 ==> id[i] != 0
    ensures Identify(e.descriptors, {0x05}) == id <==> HasRegistration(e, id)
  {
    var tags: set<byte> := {0x05};
    forall k: nat | FirstAt(e.descriptors, tags, k)
      ensures Identify(e.descriptors, tags) == FormatIdentifier(e.descriptors[k])
      ensures FormatIdentifier(e.descriptors[k]) == id <==> CarriesAt(e.descriptors[k].value, 0, id)
    {
      FirstTaggedAt(e.descriptors, tags, k);
      IdentifierIs(e.descriptors[k], id);
    }
    if FirstTagged(e.descriptors, tags).Some? {
      var k := FirstTaggedExists(e.descriptors, tags);
    }
  }

  lemma TextFound(e: Entry, text: seq<byte>)
    requires 0 < |text| < 255 && forall i :: 0 <= i < |text| ==> text[i] != 0
    ensures RegistrationText(e.descriptors) == text <==> HasText(e, text)
  {
    var tags: set<byte> := {0x05};
    forall k: nat | FirstAt(e.descriptors, tags, k)
      ensures RegistrationText(e.descriptors) == CString(Buffer(e.descriptors[k].value))
      ensures CString(Buffer(e.descriptors[k].value)) == text <==> IsText(e.descriptors[k].value, text)
    {
      FirstTaggedAt(e.descriptors, tags, k);
      CStringOfValue(e.descriptors[k], text);
    }
    if FirstTagged(e.descriptors, tags).Some? {
      var k := FirstTaggedExists(e.descriptors, tags);
    }
  }

  /** What makes an elementary stream a KLV stream: stream type 0x06 or 0x15, and a first registration or
      metadata descriptor with "KLVA" in its place. */
  lemma ClassifiedKlva(e: Entry)
    ensures Classify(e) == Some(KLVA) <==> e.streamType in {0x06, 0x15} && HasFormat(e, [0x4B, 0x4C, 0x56, 0x41])
  {
    FormatFound(e, [0x4B, 0x4C, 0x56, 0x41]);
    ClassifyMetadataIs(e, [0x4B, 0x4C, 0x56, 0x41], KLVA);
  }

  /** The same of "$EXI" and "$XML". */
  lemma ClassifiedExiXml(e: Entry)
    ensures Classify(e) == Some(EXI) <==> e.streamType in {0x06, 0x15} && HasFormat(e, [0x24, 0x45, 0x58, 0x49])
    ensures Classify(e) == Some(XML) <==> e.streamType in {0x06, 0x15} && HasFormat(e, [0x24, 0x58, 0x4D, 0x4C])
  {
    FormatFound(e, [0x24, 0x45, 0x58, 0x49]);
    ClassifyMetadataIs(e, [0x24, 0x45, 0x58, 0x49], EXI);
    FormatFound(e, [0x24, 0x58, 0x4D, 0x4C]);
    ClassifyMetadataIs(e, [0x24, 0x58, 0x4D, 0x4C], XML);
  }

  lemma ClassifyMetadataIs(e: Entry, id: seq<byte>, t: StreamType)
    requires (id == ID_KLVA && t == KLVA) || (id == ID_EXI && t == EXI) || (id == ID_XML && t == XML)
    ensures Classify(e) == Some(t) <==> e.streamType in {0x06, 0x15} && Identify(e.descriptors, {0x05, 0x26}) == id
  {
    assert ID_KLVA[0] != ID_EXI[0] && ID_KLVA[0] != ID_XML[0] && ID_EXI[1] != ID_XML[1];
  }

  /** Stream type 0x1B is HDMV or H.264, by the text of its first registration descriptor. */
  lemma ClassifiedH264(e: Entry)
    ensures var hdmv := HasText(e, [0x48, 0x44, 0x4D, 0x56, 0xFF, 0x1B, 0x44, 0x3F])
                     || HasText(e, [0x48, 0x44, 0x50, 0x52, 0xFF, 0x1B, 0x67, 0x3F]);
            && (Classify(e) == Some(HDMV) <==> e.streamType == 0x1B && hdmv)
            && (Classify(e) == Some(H264) <==> e.streamType == 0x1B && !hdmv)
  {
    TextFound(e, [0x48, 0x44, 0x4D, 0x56, 0xFF, 0x1B, 0x44, 0x3F]);
    TextFound(e, [0x48, 0x44, 0x50, 0x52, 0xFF, 0x1B, 0x67, 0x3F]);
  }

  /** Stream type 0x24 is H.265 if its first registration descriptor says "HEVC"; MPEG-2 video and the two
      kinds of audio go by the stream type alone. */
  lemma ClassifiedOthers(e: Entry)
    ensures Classify(e) == Some(H265) <==> e.streamType == 0x24 && HasRegistration(e, [0x48, 0x45, 0x56, 0x43])
    ensures Classify(e) == Some(VIDEO) <==> e.streamType == 0x02
    ensures Classify(e) == Some(AUDIO) <==> e.streamType in {0x03, 0x04}
  {
    RegistrationFound(e, [0x48, 0x45, 0x56, 0x43]);
    ClassifyOthersIs(e);
  }

  lemma ClassifyOthersIs(e: Entry)
    ensures Classify(e) == Some(H265) <==> e.streamType == 0x24 && Identify(e.descriptors, {0x05}) == [0x48, 0x45, 0x56, 0x43]
    ensures Classify(e) == Some(VIDEO) <==> e.streamType == 0x02
    ensures Classify(e) == Some(AUDIO) <==> e.streamType in {0x03, 0x04}
  {
  }

  // ----- The map

  type PidMap = map<nat, StreamType>

  function Lookup(m: PidMap, pid: nat): StreamType {
    if pid in m then m[pid] else UNKNOWN
  }

  /** `std::map::insert`: the first insertion of a key wins. */
  function InsertEntry(m: PidMap, e: Entry): PidMap {
    match Classify(e)
    case Some(t) => if e.pid in m then m else m[e.pid := t]
    case None => m
  }

  function InsertAll(m: PidMap, entries: seq<Entry>): PidMap
    decreases |entries|
  {
    if entries == [] then m else InsertAll(InsertEntry(m, entries[0]), entries[1..])
  }

  /** The version last seen and the map. */
  datatype Program = Program(version: byte, pids: PidMap)

  function Updated(p: Program, t: Table): Program {
    if p.version == t.version then p else Program(t.version, InsertAll(p.pids, t.entries))
  }

  function UpdatedAll(p: Program, tables: seq<Table>): Program
    decreases |tables|
  {
    if tables == [] then p else UpdatedAll(Updated(p, tables[0]), tables[1..])
  }

  const INITIAL := Program(NO_VERSION, map[])

  class PmtProxy {
    var version: byte
    var pid2type: PidMap

    ghost function View(): Program
      reads this
    {
      Program(version, pid2type)
    }

    constructor ()
      ensures View() == INITIAL
    {
      version := NO_VERSION;
      pid2type := map[];
    }

    method Insert(pid: nat, t: StreamType)
      modifies this`pid2type
      ensures pid2type == if pid in old(pid2type) then old(pid2type) else old(pid2type)[pid := t]
    {
      if pid !in pid2type {
        pid2type := pid2type[pid := t];
      }
    }

    method Update(pmt: Table)
      modifies this
      ensures View() == Updated(old(View()), pmt)
    {
      if version == pmt.version {
        return;
      }
      version := pmt.version;
      var i := 0;
      while i < |pmt.entries|
        invariant 0 <= i <= |pmt.entries|
        invariant version == pmt.version
        invariant InsertAll(pid2type, pmt.entries[i..]) == InsertAll(old(pid2type), pmt.entries)
      {
        ghost var before := pid2type;
        UpdateEntry(pmt.entries[i]);
        assert pmt.entries[i..][1..] == pmt.entries[i + 1..];
        i := i + 1;
      }
    }

    /** The body of the loop over table entries. */
    method UpdateEntry(pe: Entry)
      modifies this`pid2type
      ensures pid2type == InsertEntry(old(pid2type), pe)
    {
      match pe.streamType
      case 0x06 | 0x15 =>
        var id := ReadIdentifier(pe.descriptors, {REGISTRATION, METADATA});
        if id == ID_KLVA {
          Insert(pe.pid, KLVA);
        } else if id == ID_EXI {
          Insert(pe.pid, EXI);
        } else if id == ID_XML {
          Insert(pe.pid, XML);
        }
      case 0x1B =>
        var value := ReadRegistration(pe.descriptors);
        if value == TAG_HDMV || value == TAG_HDPR {
          Insert(pe.pid, HDMV);
        } else {
          Insert(pe.pid, H264);
        }
      case 0x02 =>
        Insert(pe.pid, VIDEO);
      case 0x03 | 0x04 =>
        Insert(pe.pid, AUDIO);
      case 0x24 =>
        var id := ReadIdentifier(pe.descriptors, {REGISTRATION});
        if id == ID_HEVC {
          Insert(pe.pid, H265);
        }
      case _ =>
    }

    method PacketType(pid: nat) returns (t: StreamType)
      ensures t == Lookup(pid2type, pid)
    {
      t := UNKNOWN;
      if pid in pid2type {
        t := pid2type[pid];
      }
    }
  }

  /** `desc.value(value)` into a zeroed buffer. */
  method CopyValue(d: Descriptor, value: array<byte>)
    requires value.Length == 255 && forall i :: 0 <= i < 255 ==> value[i] == 0
    modifies value
    ensures value[..] == Buffer(d.value)
  {
    var i := 0;
    while i < |d.value|
      invariant 0 <= i <= |d.value|
      invariant value[..i] == d.value[..i]
      invariant forall j :: i <= j < 255 ==> value[j] == 0
    {
      value[i] := d.value[i];
      i := i + 1;
    }
    ghost var z := Zeros(255 - |d.value|);
    assert forall j :: 0 <= j < |z| ==> z[j] in z;
    assert value[..] == d.value + z;
  }

  /** The C string a buffer holds, up to a limit; a buffer without a zero is read to its end. */
  method ReadCString(value: array<byte>, from: nat) returns (s: seq<byte>)
    requires from <= value.Length
    ensures s == CString(value[from..])
  {
    var i := from;
    while i < value.Length && value[i] != 0
      invariant from <= i <= value.Length
      invariant forall j :: from <= j < i ==> value[j] != 0
    {
      i := i + 1;
    }
    s := value[from..i];
    CStringIs(value[from..], s);
  }

  lemma CStringIs(b: seq<byte>, s: seq<byte>)
    requires s <= b && (forall i :: 0 <= i < |s| ==> s[i] != 0) && (|s| < |b| ==> b[|s|] == 0)
    ensures CString(b) == s
  {
    var t := CString(b);
    assert forall i :: 0 <= i < |s| ==> b[i] == s[i];
    assert forall i :: 0 <= i < |t| ==> b[i] == t[i];
  }

  method ReadIdentifier(descriptors: seq<Descriptor>, tags: set<byte>) returns (id: seq<byte>)
    requires tags <= {REGISTRATION, METADATA}
    ensures id == Identify(descriptors, tags)
  {
    var value := new byte[255](_ => 0);
    id := [];
    var i := 0;
    while i < |descriptors|
      invariant 0 <= i <= |descriptors|
      invariant id == [] && forall j :: 0 <= j < 255 ==> value[j] == 0
      invariant FirstTagged(descriptors[i..], tags) == FirstTagged(descriptors, tags)
    {
      var desc := descriptors[i];
      assert descriptors[i..][0] == desc && descriptors[i..][1..] == descriptors[i + 1..];
      if desc.tag in tags {
        CopyValue(desc, value);
        var text := ReadCString(value, IdOffset(desc.tag));
        assert value[IdOffset(desc.tag)..] == value[..][IdOffset(desc.tag)..];
        id := FirstFour(text);
        return;
      }
      i := i + 1;
    }
  }

  method ReadRegistration(descriptors: seq<Descriptor>) returns (text: seq<byte>)
    ensures text == RegistrationText(descriptors)
  {
    var value := new byte[255](_ => 0);
    text := [];
    var i := 0;
    while i < |descriptors|
      invariant 0 <= i <= |descriptors|
      invariant text == [] && forall j :: 0 <= j < 255 ==> value[j] == 0
      invariant FirstTagged(descriptors[i..], {REGISTRATION}) == FirstTagged(descriptors, {REGISTRATION})
    {
      var desc := descriptors[i];
      assert descriptors[i..][0] == desc && descriptors[i..][1..] == descriptors[i + 1..];
      if desc.tag == REGISTRATION {
        CopyValue(desc, value);
        text := ReadCString(value, 0);
        assert value[0..] == value[..];
        return;
      }
      i := i + 1;
    }
  }

  // ----- What the map means after any history of tables

  /** The entries, in order, of the tables whose version differs from the preceding table's. */
  function Effective(version: byte, tables: seq<Table>): seq<Entry>
    decreases |tables|
  {
    if tables == [] then []
    else (if tables[0].version == version then [] else tables[0].entries)
         + Effective(tables[0].version, tables[1..])
  }

  predicate Announces(entries: seq<Entry>, k: nat, pid: nat) {
    k < |entries| && entries[k].pid == pid && Classify(entries[k]).Some?
  }

  lemma {:induction false} InsertAllAppend(m: PidMap, a: seq<Entry>, b: seq<Entry>)
    ensures InsertAll(m, a + b) == InsertAll(InsertAll(m, a), b)
    decreases |a|
  {
    if a == [] {
      assert a + b == b;
    } else {
      assert (a + b)[1..] == a[1..] + b;
      InsertAllAppend(InsertEntry(m, a[0]), a[1..], b);
    }
  }

  /** Updating with every table of a history inserts its effective entries. */
  lemma {:induction false} UpdatesInsertEffective(p: Program, tables: seq<Table>)
    ensures UpdatedAll(p, tables).pids == InsertAll(p.pids, Effective(p.version, tables))
    decreases |tables|
  {
    if tables != [] {
      var t := tables[0];
      UpdatesInsertEffective(Updated(p, t), tables[1..]);
      if t.version == p.version {
        assert Effective(p.version, tables) == Effective(p.version, tables[1..]);
      } else {
        InsertAllAppend(p.pids, t.entries, Effective(t.version, tables[1..]));
      }
    }
  }

  /** A classified PID never changes and never disappears. */
  lemma {:induction false} InsertAllKeeps(m: PidMap, entries: seq<Entry>, pid: nat)
    requires pid in m
    ensures pid in InsertAll(m, entries) && InsertAll(m, entries)[pid] == m[pid]
    decreases |entries|
  {
    if entries != [] {
      InsertAllKeeps(InsertEntry(m, entries[0]), entries[1..], pid);
    }
  }

  lemma {:induction false} InsertAllFirst(m: PidMap, entries: seq<Entry>, pid: nat, k: nat)
    requires pid !in m && Announces(entries, k, pid)
    requires forall j: nat :: j < k ==> !Announces(entries, j, pid)
    ensures pid in InsertAll(m, entries) && Classify(entries[k]) == Some(InsertAll(m, entries)[pid])
    decreases |entries|
  {
    var m' := InsertEntry(m, entries[0]);
    if k == 0 {
      InsertAllKeeps(m', entries[1..], pid);
    } else {
      assert !Announces(entries, 0, pid);
      forall j: nat | j < k - 1 ensures !Announces(entries[1..], j, pid) {
        assert !Announces(entries, j + 1, pid);
      }
      InsertAllFirst(m', entries[1..], pid, k - 1);
    }
  }

  lemma {:induction false} InsertAllNone(m: PidMap, entries: seq<Entry>, pid: nat)
    requires pid !in m && forall j: nat :: !Announces(entries, j, pid)
    ensures pid !in InsertAll(m, entries)
    decreases |entries|
  {
    if entries != [] {
      assert !Announces(entries, 0, pid);
      forall j: nat ensures !Announces(entries[1..], j, pid) {
        assert !Announces(entries, j + 1, pid);
      }
      InsertAllNone(InsertEntry(m, entries[0]), entries[1..], pid);
    }
  }

  /** After any history of tables, a PID has the type of the first effective entry that announces
      it, and `UNKNOWN` when no effective entry does. */
  lemma {:induction false} History(tables: seq<Table>, pid: nat)
    ensures var e := Effective(NO_VERSION, tables);
            var type_ := Lookup(UpdatedAll(INITIAL, tables).pids, pid);
            && (type_ == UNKNOWN <==> forall k: nat :: !Announces(e, k, pid))
            && (forall k: nat :: Announces(e, k, pid) && (forall j: nat :: j < k ==> !Announces(e, j, pid))
                  ==> Classify(e[k]) == Some(type_))
  {
    var e := Effective(NO_VERSION, tables);
    UpdatesInsertEffective(INITIAL, tables);
    if k: nat :| Announces(e, k, pid) {
      var first := FirstAnnouncement(e, pid, k);
      InsertAllFirst(map[], e, pid, first);
      forall k': nat | Announces(e, k', pid) && forall j: nat :: j < k' ==> !Announces(e, j, pid)
        ensures k' == first
      {
        assert !(first < k') && !(k' < first);
      }
    } else {
      InsertAllNone(map[], e, pid);
    }
  }

  lemma FirstAnnouncement(entries: seq<Entry>, pid: nat, k: nat) returns (first: nat)
    requires Announces(entries, k, pid)
    ensures Announces(entries, first, pid) && forall j: nat :: j < first ==> !Announces(entries, j, pid)
  {
    first := 0;
    while !Announces(entries, first, pid)
      invariant first <= k && forall j: nat :: j < first ==> !Announces(entries, j, pid)
      decreases k - first
    {
      first := first + 1;
    }
  }

  /** A version_number has five bits, so the first table of a program always counts; a later one counts
      unless it repeats the version before it. */
  lemma FirstTableCounts(t: Table, more: seq<Table>)
    requires t.version < 32
    ensures Effective(NO_VERSION, [t] + more) == t.entries + Effective(t.version, more)
    ensures Updated(INITIAL, t).pids == InsertAll(map[], t.entries)
  {
    assert ([t] + more)[1..] == more;
  }

  /** Whatever tables arrive later, a type once assigned stays. */
  lemma {:induction false} Stable(p: Program, tables: seq<Table>, pid: nat)
    requires pid in p.pids
    ensures Lookup(UpdatedAll(p, tables).pids, pid) == p.pids[pid]
  {
    UpdatesInsertEffective(p, tables);
    InsertAllKeeps(p.pids, Effective(p.version, tables), pid);
  }
}
