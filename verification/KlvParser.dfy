/** The KLV parser callbacks: what a parse adds to the property tree that is delivered next. */
module KlvParser {
  import opened PropertyTree

  datatype SetType = LOCAL_SET | UNIVERSAL_ELEMENT | SECURITY_UNIVERSAL_SET | UNIVERSAL_SET

  /** The callbacks a parse raises, in order. Visiting an element gives one tree entry. */
  datatype Event = BeginSet(setType: SetType) | Element(entry: Child) | EndSet | ParseError

  /** The parser's fields. */
  datatype Parser = Parser(setType: SetType, count: nat, elements: Tree, klvSet: Tree)

  const INITIAL_PARSER := Parser(LOCAL_SET, 0, EMPTY_TREE, EMPTY_TREE)

  const METADATA_SET := "metadata_set"

  function OnEvent(p: Parser, e: Event): Parser {
    match e
    case BeginSet(t) => p.(setType := t)
    case Element(entry) => p.(count := p.count + 1, elements := PushBack(p.elements, entry))
    case EndSet => if p.setType == LOCAL_SET then p.(klvSet := PutChild(p.klvSet, METADATA_SET, p.elements)) else p
    case ParseError => p
  }

  function OnEvents(p: Parser, events: seq<Event>): Parser {
    if events == [] then p else OnEvent(OnEvents(p, events[..|events| - 1]), events[|events| - 1])
  }

  function Cleared(p: Parser): Parser {
    p.(klvSet := EMPTY_TREE, elements := EMPTY_TREE)
  }

  predicate IsClear(p: Parser) {
    p.klvSet == EMPTY_TREE && p.elements == EMPTY_TREE
  }

  class KlvParserImpl {
    var setType: SetType
    var count: nat
    var elements: Tree
    var klvSet: Tree

    ghost function View(): Parser
      reads this
    {
      Parser(setType, count, elements, klvSet)
    }

    constructor ()
      ensures View() == INITIAL_PARSER
    {
      setType, count, elements, klvSet := LOCAL_SET, 0, EMPTY_TREE, EMPTY_TREE;
    }

    method OnBeginSet(t: SetType)
      modifies this
      ensures View() == OnEvent(old(View()), BeginSet(t))
    {
      setType := t;
    }

    method OnElement(entry: Child)
      modifies this
      ensures View() == OnEvent(old(View()), Element(entry))
    {
      count := count + 1;
      elements := PushBack(elements, entry);
    }

    method OnEndSet()
      modifies this
      ensures View() == OnEvent(old(View()), EndSet)
    {
      match setType
      case LOCAL_SET => klvSet := PutChild(klvSet, METADATA_SET, elements);
      case UNIVERSAL_ELEMENT | SECURITY_UNIVERSAL_SET | UNIVERSAL_SET =>
    }

    method Clear()
      modifies this
      ensures View() == Cleared(old(View()))
    {
      klvSet := EMPTY_TREE;
      elements := EMPTY_TREE;
    }

    /** `KLVParser::parse`, seen through the callbacks it raises. */
    method Parse(events: seq<Event>)
      modifies this
      ensures View() == OnEvents(old(View()), events)
    {
      var i := 0;
      while i < |events|
        invariant 0 <= i <= |events|
        invariant View() == OnEvents(old(View()), events[..i])
      {
        match events[i] {
          case BeginSet(t) => OnBeginSet(t);
          case Element(entry) => OnElement(entry);
          case EndSet => OnEndSet();
          case ParseError =>
        }
        assert events[..i + 1][..i] == events[..i];
        i := i + 1;
      }
      assert events[..i] == events;
    }
  }

  // ----- What one parse puts into the tree

  /** The entries of the elements raised, in order. */
  function Entries(events: seq<Event>): seq<Child> {
    if events == [] then []
    else
      Entries(events[..|events| - 1])
      + (match events[|events| - 1] case Element(entry) => [entry] case _ => [])
  }

  /** The type of the last set begun. */
  function TypeAfter(t: SetType, events: seq<Event>): SetType {
    if events == [] then t
    else match events[|events| - 1]
      case BeginSet(t') => t'
      case _ => TypeAfter(t, events[..|events| - 1])
  }

  /** Event `k` is the end of a local set. */
  predicate ClosesLocalSet(t: SetType, events: seq<Event>, k: nat) {
    k < |events| && events[k].EndSet? && TypeAfter(t, events[..k]) == LOCAL_SET
  }

  function MetadataSet(entries: seq<Child>): Tree {
    Tree("", [Child("metadata_set", Tree("", entries))])
  }

  /** The tree a parse produces when it starts from a cleared parser that last saw a set of type `t`. */
  function Output(t: SetType, events: seq<Event>): Tree {
    if events == [] then EMPTY_TREE
    else
      var k := |events| - 1;
      if ClosesLocalSet(t, events, k) then MetadataSet(Entries(events[..k])) else Output(t, events[..k])
  }

  lemma ClosesBefore(t: SetType, events: seq<Event>, n: nat, k: nat)
    requires k < n <= |events|
    ensures ClosesLocalSet(t, events, k) == ClosesLocalSet(t, events[..n], k) && events[..n][..k] == events[..k]
  {
    assert events[..n][..k] == events[..k];
  }

  lemma {:induction false} OutputAt(t: SetType, events: seq<Event>, k: nat)
    requires ClosesLocalSet(t, events, k) && forall j: nat :: j > k ==> !ClosesLocalSet(t, events, j)
    ensures Output(t, events) == MetadataSet(Entries(events[..k]))
    decreases |events|
  {
    var last := |events| - 1;
    if k < last {
      assert !ClosesLocalSet(t, events, last);
      forall j: nat | j > k ensures !ClosesLocalSet(t, events[..last], j) {
        if j < last { ClosesBefore(t, events, last, j); }
      }
      ClosesBefore(t, events, last, k);
      OutputAt(t, events[..last], k);
    }
  }

  lemma {:induction false} OutputNone(t: SetType, events: seq<Event>)
    requires forall j: nat :: !ClosesLocalSet(t, events, j)
    ensures Output(t, events) == EMPTY_TREE
    decreases |events|
  {
    if events != [] {
      var last := |events| - 1;
      assert !ClosesLocalSet(t, events, last);
      forall j: nat ensures !ClosesLocalSet(t, events[..last], j) {
        if j < last { ClosesBefore(t, events, last, j); }
      }
      OutputNone(t, events[..last]);
    }
  }

  /** Every tree holds exactly the elements raised up to the last end of a local set, in order; it is
      empty when there was none. */
  lemma {:induction false} OutputMeans(t: SetType, events: seq<Event>)
    ensures (forall k: nat :: !ClosesLocalSet(t, events, k)) ==> Output(t, events) == EMPTY_TREE
    ensures forall k: nat :: ClosesLocalSet(t, events, k) && (forall j: nat :: j > k ==> !ClosesLocalSet(t, events, j))
              ==> Output(t, events) == MetadataSet(Entries(events[..k]))
  {
    if forall k: nat :: !ClosesLocalSet(t, events, k) {
      OutputNone(t, events);
    }
    forall k: nat | ClosesLocalSet(t, events, k) && forall j: nat :: j > k ==> !ClosesLocalSet(t, events, j)
      ensures Output(t, events) == MetadataSet(Entries(events[..k]))
    {
      OutputAt(t, events, k);
    }
  }

  /** From a cleared parser, parsing accumulates the elements and leaves the reference tree. */
  lemma {:induction false} ParseFromClear(p: Parser, events: seq<Event>)
    requires IsClear(p)
    ensures var q := OnEvents(p, events);
            && q.elements == Tree("", Entries(events))
            && q.setType == TypeAfter(p.setType, events)
            && q.count == p.count + |Entries(events)|
            && q.klvSet == Output(p.setType, events)
    decreases |events|
  {
    if events != [] {
      var last := |events| - 1;
      ParseFromClear(p, events[..last]);
      OutputShape(p.setType, events[..last]);
    }
  }

  /** A tree never has a second `metadata_set`: later ends replace it. */
  lemma {:induction false} OutputShape(t: SetType, events: seq<Event>)
    ensures Output(t, events) == EMPTY_TREE || exists entries :: Output(t, events) == MetadataSet(entries)
    decreases |events|
  {
    if events != [] {
      OutputShape(t, events[..|events| - 1]);
    }
  }
}
