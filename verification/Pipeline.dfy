/** From transport packets to the texts that are sent: the parts put together. */
module Pipeline {
  import opened Basics
  import opened PropertyTree
  import opened KlvParser
  import opened DemuxSpec
  import opened Delivery
  import opened JsonWriter
  import opened JsonGrammar
  import opened JsonRoundTrip
  import opened JsonEncoding
  import opened UdpWriter

  lemma {:induction false} TreesShape(l: Library, t: SetType, jobs: seq<Job>)
    ensures forall tree <- Trees(l, t, jobs) :: tree == EMPTY_TREE || exists entries :: tree == MetadataSet(entries)
    decreases |jobs|
  {
    if jobs != [] {
      var k := |jobs| - 1;
      TreesShape(l, t, jobs[..k]);
      OutputShape(TypeAfterJobs(l, t, jobs[..k]), l.klv(jobs[k].unit));
    }
  }

  /** Whatever packets arrive, a tree the callback gets is empty or a single metadata set. */
  lemma {:induction false} DeliveredShape(l: Library, interval: uint64, inputs: seq<Input>)
    ensures forall tree <- Run(l, interval, INITIAL_STATE, inputs).back.delivered ::
              tree == EMPTY_TREE || exists entries :: tree == MetadataSet(entries)
  {
    ReadsConserved(l, interval, inputs);
    TreesShape(l, LOCAL_SET, Work(l, interval, 0, Reaching(l, INITIAL_FRONT, false, inputs)));
  }

  // ----- What is sent

  /** The texts the callback sends: the compact text of each tree it is given, until Boost refuses one with
      an exception, which ends the program. */
  function Sent(cast: string -> Option<string>, trees: seq<Tree>): seq<string> {
    if trees == [] then []
    else match WriteJson(cast, trees[0], false)
      case None => []
      case Some(text) => [text] + Sent(cast, trees[1..])
  }

  ghost predicate IsSent(cast: string -> Option<string>, trees: seq<Tree>, texts: seq<string>) {
    && |texts| <= |trees|
    && (forall k :: 0 <= k < |texts| ==> WriteJson(cast, trees[k], false) == Some(texts[k]))
    && (|texts| < |trees| ==> WriteJson(cast, trees[|texts|], false) == None)
  }

  lemma {:induction false} SentTexts(cast: string -> Option<string>, trees: seq<Tree>)
    ensures IsSent(cast, trees, Sent(cast, trees))
  {
    if trees != [] && WriteJson(cast, trees[0], false).Some? {
      var texts, more := Sent(cast, trees), Sent(cast, trees[1..]);
      SentTexts(cast, trees[1..]);
      forall k | 0 <= k < |texts| ensures WriteJson(cast, trees[k], false) == Some(texts[k]) {
        assert k > 0 ==> trees[k] == trees[1..][k - 1] && texts[k] == more[k - 1];
      }
    }
  }

  /** Trees that would come after the one that ends the program change nothing. */
  lemma {:induction false} SentStops(cast: string -> Option<string>, trees: seq<Tree>, more: seq<Tree>)
    ensures Sent(cast, trees + more)
         == if |Sent(cast, trees)| < |trees| then Sent(cast, trees) else Sent(cast, trees) + Sent(cast, more)
  {
    if trees == [] {
      assert trees + more == more;
    } else {
      assert (trees + more)[1..] == trees[1..] + more;
      SentStops(cast, trees[1..], more);
    }
  }

  /** The program as it ends at a refused tree, and the run that goes on: the same texts are sent. */
  lemma {:induction false} SentOfPrefix(l: Library, interval: uint64, cast: string -> Option<string>, a: seq<Input>, b: seq<Input>)
    ensures var trees := Run(l, interval, INITIAL_STATE, a).back.delivered;
            var all := Run(l, interval, INITIAL_STATE, a + b).back.delivered;
            && trees <= all
            && (|Sent(cast, trees)| < |trees| ==> Sent(cast, all) == Sent(cast, trees))
  {
    var st := Run(l, interval, INITIAL_STATE, a);
    RunAppend(l, interval, INITIAL_STATE, a, b);
    BackOfRun(l, interval, INITIAL_STATE, a);
    Delivered(l, interval, INITIAL_BACK, Reaching(l, INITIAL_FRONT, false, a));
    var rs := Reaching(l, st.front, st.back.callback, b);
    BackOfRun(l, interval, st, b);
    Delivered(l, interval, st.back, rs);
    SentStops(cast, st.back.delivered, Trees(l, st.back.parser.setType, Work(l, interval, st.back.time, rs)));
  }

  // ----- What is received

  /** What a receiver makes of a text: its datagrams joined again, and read. */
  function Received(text: string): Option<Json> {
    ParseBytes(Concat(Chunks(text)))
  }

  /** The tree prints finite floats only and is UTF-8. */
  predicate Sound(cast: string -> Option<string>, t: Tree, root: bool) {
    Finite(cast, t, root) && Encoded(cast, t, root)
  }

  lemma ReceivedText(cast: string -> Option<string>, tree: Tree)
    requires PrintsFloats(cast)
    ensures Received(Print(cast, tree, 0, false))
         == if Sound(cast, tree, true) then Some(Normal(cast, tree, true)) else None
  {
    ChunksConserve(Print(cast, tree, 0, false));
    BytesRoundTrip(cast, tree, false);
  }

  /** A root with one child is sound, and has a normal form, as its child does. */
  lemma SingleMember(cast: string -> Option<string>, key: string, t: Tree)
    ensures Normal(cast, Tree("", [Child(key, t)]), true) == JObject([Member(key, Normal(cast, t, false))])
    ensures Sound(cast, Tree("", [Child(key, t)]), true) <==> Utf8(key) && Sound(cast, t, false)
  {
    var c := [Child(key, t)];
    assert c[1..] == [];
    assert NormalMembers(cast, c) == [Member(key, Normal(cast, t, false))] + NormalMembers(cast, c[1..]);
    assert AllFinite(cast, c) == (Finite(cast, t, false) && AllFinite(cast, c[1..]));
    assert AllEncoded(cast, c) == (Utf8(key) && Encoded(cast, t, false) && AllEncoded(cast, c[1..]));
  }

  /** What is received of a root with one child. */
  function ObjectOf(cast: string -> Option<string>, key: string, t: Tree): Option<Json> {
    if Sound(cast, t, false) then Some(JObject([Member(key, Normal(cast, t, false))])) else None
  }

  /** The tree is received as an object: empty, or with one member holding the normal form of the entries;
      or nothing readable is received, because an entry is not sound. */
  ghost predicate ReceivedFaithfully(cast: string -> Option<string>, tree: Tree, got: Option<Json>) {
    || (tree == EMPTY_TREE && got == Some(JObject([])))
    || exists entries :: tree == MetadataSet(entries) && got == ObjectOf(cast, "metadata_set", Tree("", entries))
  }

  lemma ReceivedEmpty(cast: string -> Option<string>)
    requires PrintsFloats(cast)
    ensures Received(Print(cast, EMPTY_TREE, 0, false)) == Some(JObject([]))
  {
    ReceivedText(cast, EMPTY_TREE);
    assert Sound(cast, EMPTY_TREE, true) && Normal(cast, EMPTY_TREE, true) == JObject([]);
  }

  lemma ReceivedOne(cast: string -> Option<string>, key: string, t: Tree)
    requires PrintsFloats(cast) && Utf8(key)
    ensures Received(Print(cast, Tree("", [Child(key, t)]), 0, false)) == ObjectOf(cast, key, t)
  {
    ReceivedText(cast, Tree("", [Child(key, t)]));
    SingleMember(cast, key, t);
  }

  lemma MetadataKey(key: string)
    requires key == "metadata_set"
    ensures Utf8(key)
  {
    forall i | 0 <= i < |key| ensures IsAscii(key[i]) {
    }
    AsciiUtf8(key);
  }

  lemma ReceivedShape(cast: string -> Option<string>, tree: Tree)
    requires PrintsFloats(cast)
    requires tree == EMPTY_TREE || exists entries :: tree == MetadataSet(entries)
    ensures ReceivedFaithfully(cast, tree, Received(Print(cast, tree, 0, false)))
  {
    if tree == EMPTY_TREE {
      ReceivedEmpty(cast);
    } else {
      var entries :| tree == MetadataSet(entries);
      MetadataKey("metadata_set");
      ReceivedOne(cast, "metadata_set", Tree("", entries));
    }
  }

  /** The texts are those of the trees before the first that has a node with both data and children, all of
      them if none has, and each is received faithfully. */
  ghost predicate TreesReceived(cast: string -> Option<string>, trees: seq<Tree>, texts: seq<string>) {
    && |texts| <= |trees|
    && (forall k :: 0 <= k < |texts| ==> ReceivedFaithfully(cast, trees[k], Received(texts[k])))
    && (forall k :: 0 <= k < |texts| ==> NoClash(trees[k]))
    && (|texts| < |trees| ==> exists path :: Clash(trees[|texts|], path))
  }

  lemma TextsReceived(cast: string -> Option<string>, trees: seq<Tree>)
    requires PrintsFloats(cast)
    requires forall tree <- trees :: tree == EMPTY_TREE || exists entries :: tree == MetadataSet(entries)
    ensures TreesReceived(cast, trees, Sent(cast, trees))
  {
    var texts := Sent(cast, trees);
    SentTexts(cast, trees);
    forall k | 0 <= k < |texts|
      ensures ReceivedFaithfully(cast, trees[k], Received(texts[k])) && NoClash(trees[k])
    {
      assert WriteJson(cast, trees[k], false) == Some(texts[k]);
      assert trees[k] in trees;
      ReceivedShape(cast, trees[k]);
      WrittenExactly(cast, trees[k], false);
    }
    if |texts| < |trees| {
      assert trees[|texts|] in trees;
      WrittenExactly(cast, trees[|texts|], false);
    }
  }

  /** In every run: the texts sent are those of the trees delivered before the first that has a node with
      both data and children, all of them if none has. Each is received as an object: empty, or with one
      member holding the normal form of the entries raised. Nothing readable is received of it exactly when
      an entry prints a non-finite float or is not UTF-8. */
  lemma {:induction false} DeliveredText(l: Library, interval: uint64, inputs: seq<Input>, cast: string -> Option<string>)
    requires PrintsFloats(cast)
    ensures var trees := Run(l, interval, INITIAL_STATE, inputs).back.delivered;
            TreesReceived(cast, trees, Sent(cast, trees))
  {
    DeliveredShape(l, interval, inputs);
    TextsReceived(cast, Run(l, interval, INITIAL_STATE, inputs).back.delivered);
  }

  // ----- Nothing is refused

  /** An entry as a visit of an element builds it: no data, and children that are leaves. */
  predicate IsVisitEntry(entry: Child) {
    entry.tree.data == "" && forall child <- entry.tree.children :: child.tree.children == []
  }

  lemma VisitEntryHasNoClash(entry: Child)
    requires IsVisitEntry(entry)
    ensures NoClash(entry.tree)
  {
    var t := entry.tree;
    forall path: seq<nat> ensures !Clash(t, path) {
      if path != [] && path[0] < |t.children| {
        assert t.children[path[0]] in t.children;
        LeafHasNoClash(t.children[path[0]].tree, path[1..]);
      }
    }
  }

  lemma LeafHasNoClash(t: Tree, path: seq<nat>)
    requires t.children == []
    ensures !Clash(t, path)
  {
  }

  /** A metadata set whose entries have no such node is written. */
  lemma {:induction false} SetIsWritten(cast: string -> Option<string>, entries: seq<Child>, pretty: bool)
    requires forall entry <- entries :: NoClash(entry.tree)
    ensures WriteJson(cast, MetadataSet(entries), pretty) == Some(Print(cast, MetadataSet(entries), 0, pretty))
  {
    var t := MetadataSet(entries);
    forall k | 0 <= k < |entries| ensures NoClash(entries[k].tree) {
      assert entries[k] in entries;
    }
    NoClashIsWritableBelow(entries);
    assert Writable(Tree("", entries), false);
    assert t.children[0].tree == Tree("", entries) && t.children[1..] == [];
    assert AllWritable(t.children);
    assert Writable(t, true);
  }

  /** A metadata set of entries as visits build them is always written. */
  lemma VisitsAreWritten(cast: string -> Option<string>, entries: seq<Child>, pretty: bool)
    requires forall entry <- entries :: IsVisitEntry(entry)
    ensures WriteJson(cast, MetadataSet(entries), pretty) == Some(Print(cast, MetadataSet(entries), 0, pretty))
  {
    forall entry <- entries ensures NoClash(entry.tree) {
      VisitEntryHasNoClash(entry);
    }
    SetIsWritten(cast, entries, pretty);
  }

  /** All entries the KLV library's elements give have no node with both data and children. */
  ghost predicate RaisesNoClash(l: Library) {
    forall d, k :: 0 <= k < |l.klv(d)| && l.klv(d)[k].Element? ==> NoClash(l.klv(d)[k].entry.tree)
  }

  lemma {:induction false} EntriesOf(events: seq<Event>)
    requires forall k :: 0 <= k < |events| && events[k].Element? ==> NoClash(events[k].entry.tree)
    ensures forall entry <- Entries(events) :: NoClash(entry.tree)
  {
    if events != [] {
      EntriesOf(events[..|events| - 1]);
    }
  }

  lemma {:induction false} OutputIsWritten(cast: string -> Option<string>, t: SetType, events: seq<Event>)
    requires forall k :: 0 <= k < |events| && events[k].Element? ==> NoClash(events[k].entry.tree)
    ensures WriteJson(cast, Output(t, events), false).Some?
  {
    if events != [] {
      var k := |events| - 1;
      if ClosesLocalSet(t, events, k) {
        EntriesOf(events[..k]);
        SetIsWritten(cast, Entries(events[..k]), false);
      } else {
        OutputIsWritten(cast, t, events[..k]);
      }
    }
  }

  lemma {:induction false} TreesAreWritten(l: Library, cast: string -> Option<string>, t: SetType, jobs: seq<Job>)
    requires RaisesNoClash(l)
    ensures forall tree <- Trees(l, t, jobs) :: WriteJson(cast, tree, false).Some?
    decreases |jobs|
  {
    if jobs != [] {
      var k := |jobs| - 1;
      TreesAreWritten(l, cast, t, jobs[..k]);
      OutputIsWritten(cast, TypeAfterJobs(l, t, jobs[..k]), l.klv(jobs[k].unit));
    }
  }

  /** When no entry has a node with both data and children, as those of plain visits do not, every run sends
      a text for every tree delivered. */
  lemma {:induction false} EverythingSent(l: Library, interval: uint64, inputs: seq<Input>, cast: string -> Option<string>)
    requires RaisesNoClash(l)
    ensures var trees := Run(l, interval, INITIAL_STATE, inputs).back.delivered;
            |Sent(cast, trees)| == |trees|
  {
    var trees := Run(l, interval, INITIAL_STATE, inputs).back.delivered;
    ReadsConserved(l, interval, inputs);
    TreesAreWritten(l, cast, LOCAL_SET, Work(l, interval, 0, Reaching(l, INITIAL_FRONT, false, inputs)));
    SentTexts(cast, trees);
    if |Sent(cast, trees)| < |trees| {
      assert trees[|Sent(cast, trees)|] in trees;
    }
  }
}
