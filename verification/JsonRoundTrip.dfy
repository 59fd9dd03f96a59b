/** What the JSON writer's output means: reading it back gives the tree's normal form, exactly when
    no leaf casts to an infinite or not-a-number float. */
module JsonRoundTrip {
  import opened Basics
  import opened PropertyTree
  import opened JsonWriter
  import opened JsonGrammar

  // What streaming a float can print that section 6 of RFC 8259 does not allow.
  const NON_FINITE := {"inf", "-inf", "nan", "-nan"}

  /** Streaming a float prints a number token or one of the non-finite names. */
  ghost predicate PrintsFloats(cast: string -> Option<string>) {
    forall s :: cast(s).Some? ==> IsNumber(cast(s).value) || cast(s).value in NON_FINITE
  }

  /** The JSON value a tree stands for: leaves become strings or number tokens, nodes whose keys are
      all empty become arrays, every other node and the root become objects. */
  function Normal(cast: string -> Option<string>, t: Tree, root: bool): Json
    decreases t
  {
    if !root && t.children == [] then
      match cast(Escape(t.data))
      case Some(token) => JNumber(token)
      case None => JString(t.data)
    else if !root && forall c <- t.children :: c.key == "" then
      JArray(NormalItems(cast, t.children))
    else
      JObject(NormalMembers(cast, t.children))
  }

  function NormalItems(cast: string -> Option<string>, children: seq<Child>): (items: seq<Json>)
    ensures |items| == |children|
    decreases children
  {
    if children == [] then []
    else
      assert children[0] in children;
      [Normal(cast, children[0].tree, false)] + NormalItems(cast, children[1..])
  }

  function NormalMembers(cast: string -> Option<string>, children: seq<Child>): (members: seq<Member>)
    ensures |members| == |children|
    decreases children
  {
    if children == [] then []
    else
      assert children[0] in children;
      [Member(children[0].key, Normal(cast, children[0].tree, false))] + NormalMembers(cast, children[1..])
  }

  /** No leaf below (or at) this node casts to a non-finite float. */
  predicate Finite(cast: string -> Option<string>, t: Tree, root: bool)
    decreases t
  {
    if !root && t.children == [] then
      cast(Escape(t.data)).Some? ==> cast(Escape(t.data)).value !in NON_FINITE
    else AllFinite(cast, t.children)
  }

  predicate AllFinite(cast: string -> Option<string>, children: seq<Child>)
    decreases children
  {
    children == [] || (Finite(cast, children[0].tree, false) && AllFinite(cast, children[1..]))
  }

  // ----- Strings

  lemma EscapedChar(c: char, rest: string)
    ensures ReadChar(EscapeChar(c) + rest) == Got(c, rest)
    ensures !StartsWith(EscapeChar(c) + rest, '\"')
  {
    var e := EscapeChar(c);
    var s := e + rest;
    assert s[|e|..] == rest;
    if |e| == 6 {
      EscapedControl(c, rest);
    }
  }

  lemma EscapedControl(c: char, rest: string)
    requires |EscapeChar(c)| == 6
    ensures ReadChar(EscapeChar(c) + rest) == Got(c, rest)
  {
    var e := EscapeChar(c);
    var s := e + rest;
    assert c as int < 0x20;
    HexDigitValue(c as int / 16);
    HexDigitValue(c as int % 16);
    assert s[2..6] == ['0', '0', HEX_DIGITS[c as int / 16], HEX_DIGITS[c as int % 16]];
    assert s[6..] == rest;
  }

  lemma HexDigitValue(d: int)
    requires 0 <= d < 16
    ensures HexValue(HEX_DIGITS[d]) == d
  {
  }

  /** Escaping is invertible: whatever follows the closing quotation mark is left alone. */
  lemma {:induction false} EscapedString(text: string, rest: string)
    ensures ReadString(Escape(text) + "\"" + rest) == Got(text, rest)
  {
    if text == "" {
      assert Escape(text) + "\"" + rest == "\"" + rest;
    } else {
      var tail := Escape(text[1..]) + "\"" + rest;
      Assoc4(EscapeChar(text[0]), Escape(text[1..]), "\"", rest);
      EscapedChar(text[0], tail);
      EscapedString(text[1..], rest);
      StringStep(EscapeChar(text[0]) + tail, text[0], tail);
      assert text == [text[0]] + text[1..];
    }
  }

  // ----- Whitespace

  lemma {:induction false} SpacesAreWhitespace(n: nat)
    ensures forall c <- Spaces(n) :: IsWhitespace(c)
  {
    if n > 0 {
      SpacesAreWhitespace(n - 1);
    }
  }

  lemma SkipPad(indent: nat, pretty: bool, s: string)
    ensures SkipWs(Pad(indent, pretty) + s) == SkipWs(s)
  {
    SpacesAreWhitespace(4 * indent);
    SkipWsPrefix(Pad(indent, pretty), s);
  }

  lemma SkipNewLine(pretty: bool, s: string)
    ensures SkipWs(NewLine(pretty) + s) == SkipWs(s)
  {
    SkipWsPrefix(NewLine(pretty), s);
  }

  // ----- Leaves

  lemma LeafRead(cast: string -> Option<string>, data: string, rest: string)
    requires PrintsFloats(cast) && EndsNumber(rest)
    ensures ReadValue(LeafText(cast, data) + rest)
         == if Finite(cast, Tree(data, []), false) then Got(Normal(cast, Tree(data, []), false), rest) else Fail
  {
    match cast(Escape(data))
    case None =>
      TextRead(data, rest);
    case Some(token) =>
      if token in NON_FINITE {
        NonFiniteRead(token, rest);
      } else {
        NumberRead(token, rest);
      }
  }

  lemma TextRead(text: string, rest: string)
    ensures ReadValue("\"" + Escape(text) + "\"" + rest) == Got(JString(text), rest)
  {
    var s := "\"" + Escape(text) + "\"" + rest;
    Assoc4("\"", Escape(text), "\"", rest);
    assert s[1..] == Escape(text) + "\"" + rest;
    EscapedString(text, rest);
    StringBranch(s, text, rest);
  }

  lemma NumberRead(token: string, rest: string)
    requires IsNumber(token) && EndsNumber(rest)
    ensures ReadValue(token + rest) == Got(JNumber(token), rest)
  {
    var s := token + rest;
    NumberHead(token);
    assert s[0] == token[0];
    NumberLocal(token, rest);
    assert s[..|token|] == token && s[|token|..] == rest;
    NumberBranch(s);
  }

  lemma NumberHead(token: string)
    requires IsNumber(token)
    ensures IsDigit(token[0]) || token[0] == '-'
  {
    assert WholeLength(token) > 0;
    if token[0] != '-' {
      assert token[0..] == token;
    }
  }

  lemma NonFiniteRead(token: string, rest: string)
    requires token in NON_FINITE
    ensures ReadValue(token + rest) == Fail
  {
    var s := token + rest;
    assert |token| >= 3 && s[0] == token[0] && s[1] == token[1];
    assert SkipWs(s) == s;
    assert WholeLength(s) == 0 by {
      if s[0] == '-' {
        assert s[1..][0] == s[1];
      } else {
        assert s[0..] == s;
      }
    }
  }

  // ----- Nodes

  /** What is printed after the children loop has reached some child, up to the end of the text. */
  function Remaining(cast: string -> Option<string>, children: seq<Child>, isArray: bool,
                     indent: nat, pretty: bool, rest: string): string
  {
    PrintChildren(cast, children, isArray, indent, pretty) + (Pad(indent, pretty) + (Close(isArray) + rest))
  }

  /** What is printed between the value of one child and the next one. */
  function Separator(cast: string -> Option<string>, more: seq<Child>, isArray: bool,
                     indent: nat, pretty: bool, rest: string): string
  {
    (if more == [] then "" else ",") + (NewLine(pretty) + Remaining(cast, more, isArray, indent, pretty, rest))
  }

  lemma RemainingStep(cast: string -> Option<string>, children: seq<Child>, isArray: bool,
                      indent: nat, pretty: bool, rest: string)
    requires children != []
    ensures Remaining(cast, children, isArray, indent, pretty, rest)
         == Pad(indent + 1, pretty) + (Label(children[0].key, isArray, pretty)
            + (Print(cast, children[0].tree, indent + 1, pretty)
               + Separator(cast, children[1..], isArray, indent, pretty, rest)))
  {
    var a, b := Pad(indent + 1, pretty), Label(children[0].key, isArray, pretty);
    var c := Print(cast, children[0].tree, indent + 1, pretty);
    var d := if children[1..] == [] then "" else ",";
    var e, f := NewLine(pretty), PrintChildren(cast, children[1..], isArray, indent, pretty);
    var g := Pad(indent, pretty) + (Close(isArray) + rest);
    assert PrintChildren(cast, children, isArray, indent, pretty) == (a + b + c + d + e) + f;
    Assoc3(a + b + c + d + e, f, g);
    Assoc6(a, b, c, d, e, f + g);
  }

  lemma PrintStep(cast: string -> Option<string>, t: Tree, indent: nat, pretty: bool, rest: string)
    requires !IsLeaf(t, indent)
    ensures Print(cast, t, indent, pretty) + rest
         == Open(IsArray(t, indent))
            + (NewLine(pretty) + Remaining(cast, t.children, IsArray(t, indent), indent, pretty, rest))
  {
    var k := IsArray(t, indent);
    Assoc6(Open(k), NewLine(pretty), PrintChildren(cast, t.children, k, indent, pretty),
           Pad(indent, pretty), Close(k), rest);
  }

  lemma SeparatorLast(cast: string -> Option<string>, isArray: bool, indent: nat, pretty: bool, rest: string)
    ensures var s := Separator(cast, [], isArray, indent, pretty, rest);
            EndsNumber(s) && SkipWs(s) == Close(isArray) + rest
  {
    var close := Close(isArray) + rest;
    var s := Separator(cast, [], isArray, indent, pretty, rest);
    assert s == NewLine(pretty) + (Pad(indent, pretty) + close);
    SkipNewLine(pretty, Pad(indent, pretty) + close);
    SkipPad(indent, pretty, close);
    if !pretty {
      assert s == close;
    }
  }

  lemma SeparatorMore(cast: string -> Option<string>, more: seq<Child>, isArray: bool,
                      indent: nat, pretty: bool, rest: string)
    requires more != []
    ensures var s := Separator(cast, more, isArray, indent, pretty, rest);
            && EndsNumber(s) && SkipWs(s) == s && StartsWith(s, ',')
            && SkipWs(s[1..]) == SkipWs(Remaining(cast, more, isArray, indent, pretty, rest))
  {
    var s := Separator(cast, more, isArray, indent, pretty, rest);
    var r := Remaining(cast, more, isArray, indent, pretty, rest);
    assert s[1..] == NewLine(pretty) + r;
    SkipNewLine(pretty, r);
  }

  /** A printed node starts with a character that is neither whitespace nor a closing bracket. */
  lemma PrintHead(cast: string -> Option<string>, t: Tree, indent: nat, pretty: bool)
    requires PrintsFloats(cast)
    ensures var s := Print(cast, t, indent, pretty);
            s != "" && !IsWhitespace(s[0]) && s[0] != ']'
  {
    if IsLeaf(t, indent) {
      match cast(Escape(t.data))
      case None =>
      case Some(token) =>
        if token !in NON_FINITE {
          NumberHead(token);
        }
    } else {
      PrintStep(cast, t, indent, pretty, "");
      var s := Print(cast, t, indent, pretty);
      assert s + "" == s;
    }
  }

  /** Reading a printed node gives its normal form and leaves what follows; it fails if some leaf of
      the node printed a non-finite float. */
  lemma {:induction false} ValueRead(cast: string -> Option<string>, t: Tree, indent: nat, pretty: bool, rest: string)
    requires PrintsFloats(cast) && EndsNumber(rest)
    ensures ReadValue(Print(cast, t, indent, pretty) + rest)
         == if Finite(cast, t, indent == 0) then Got(Normal(cast, t, indent == 0), rest) else Fail
    decreases t, 1
  {
    if IsLeaf(t, indent) {
      LeafRead(cast, t.data, rest);
      assert t == Tree(t.data, []);
    } else {
      PrintStep(cast, t, indent, pretty, rest);
      CountIsSize(t.children, "");
      if IsArray(t, indent) {
        ArrayRead(cast, t, indent, pretty, rest);
      } else {
        ObjectRead(cast, t, indent, pretty, rest);
      }
    }
  }

  lemma {:induction false} ArrayRead(cast: string -> Option<string>, t: Tree, indent: nat, pretty: bool, rest: string)
    requires PrintsFloats(cast) && t.children != []
    ensures ReadValue("[" + (NewLine(pretty) + Remaining(cast, t.children, true, indent, pretty, rest)))
         == if AllFinite(cast, t.children) then Got(JArray(NormalItems(cast, t.children)), rest) else Fail
    decreases t, 0
  {
    var body := Remaining(cast, t.children, true, indent, pretty, rest);
    var inner := NewLine(pretty) + body;
    OpenArray(inner);
    SkipNewLine(pretty, body);
    SkipAgrees(inner, body);
    assert !StartsWith(SkipWs(body), ']') by {
      RemainingHead(cast, t.children, true, indent, pretty, rest);
    }
    ItemsRead(cast, t.children, indent, pretty, rest);
  }

  lemma RemainingHead(cast: string -> Option<string>, children: seq<Child>, isArray: bool,
                      indent: nat, pretty: bool, rest: string)
    requires PrintsFloats(cast) && children != []
    ensures var s := SkipWs(Remaining(cast, children, isArray, indent, pretty, rest));
            if isArray then
              s == Print(cast, children[0].tree, indent + 1, pretty)
                   + Separator(cast, children[1..], true, indent, pretty, rest)
              && !StartsWith(s, ']')
            else
              s == Label(children[0].key, false, pretty)
                   + (Print(cast, children[0].tree, indent + 1, pretty)
                      + Separator(cast, children[1..], false, indent, pretty, rest))
              && StartsWith(s, '\"')
  {
    RemainingStep(cast, children, isArray, indent, pretty, rest);
    var value := Print(cast, children[0].tree, indent + 1, pretty);
    var tail := value + Separator(cast, children[1..], isArray, indent, pretty, rest);
    var prefix := Label(children[0].key, isArray, pretty);
    SkipPad(indent + 1, pretty, prefix + tail);
    PrintHead(cast, children[0].tree, indent + 1, pretty);
    if isArray {
      assert prefix + tail == tail;
      assert tail[0] == value[0];
    } else {
      assert (prefix + tail)[0] == prefix[0];
    }
  }

  lemma {:induction false} ItemsRead(cast: string -> Option<string>, children: seq<Child>, indent: nat, pretty: bool, rest: string)
    requires PrintsFloats(cast) && children != []
    ensures ReadItems(Remaining(cast, children, true, indent, pretty, rest))
         == if AllFinite(cast, children) then Got(NormalItems(cast, children), rest) else Fail
    decreases children
  {
    var first, more := children[0], children[1..];
    assert first in children;
    var sep := Separator(cast, more, true, indent, pretty, rest);
    var s := Print(cast, first.tree, indent + 1, pretty) + sep;
    RemainingHead(cast, children, true, indent, pretty, rest);
    SkipWsIdempotent(Remaining(cast, children, true, indent, pretty, rest));
    SkipAgrees(Remaining(cast, children, true, indent, pretty, rest), s);
    if more == [] {
      SeparatorLast(cast, true, indent, pretty, rest);
    } else {
      SeparatorMore(cast, more, true, indent, pretty, rest);
    }
    ValueRead(cast, first.tree, indent + 1, pretty, sep);
    assert AllFinite(cast, children) == (Finite(cast, first.tree, false) && AllFinite(cast, more));
    if !Finite(cast, first.tree, false) {
      BadItem(s);
    } else if more == [] {
      LastItem(s, Normal(cast, first.tree, false), sep, rest);
      assert NormalItems(cast, children) == [Normal(cast, first.tree, false)];
    } else {
      ItemsRead(cast, more, indent, pretty, rest);
      MoreItems(s, Normal(cast, first.tree, false), sep,
                Remaining(cast, more, true, indent, pretty, rest));
    }
  }

  lemma {:induction false} ObjectRead(cast: string -> Option<string>, t: Tree, indent: nat, pretty: bool, rest: string)
    requires PrintsFloats(cast)
    ensures ReadValue("{" + (NewLine(pretty) + Remaining(cast, t.children, false, indent, pretty, rest)))
         == if AllFinite(cast, t.children) then Got(JObject(NormalMembers(cast, t.children)), rest) else Fail
    decreases t, 0
  {
    var body := Remaining(cast, t.children, false, indent, pretty, rest);
    var inner := NewLine(pretty) + body;
    OpenObject(inner);
    SkipNewLine(pretty, body);
    if t.children == [] {
      var close := "}" + rest;
      assert body == Pad(indent, pretty) + close;
      SkipPad(indent, pretty, close);
      assert close[1..] == rest;
    } else {
      SkipAgrees(inner, body);
      RemainingHead(cast, t.children, false, indent, pretty, rest);
      MembersRead(cast, t.children, indent, pretty, rest);
    }
  }

  lemma {:induction false} MembersRead(cast: string -> Option<string>, children: seq<Child>, indent: nat, pretty: bool, rest: string)
    requires PrintsFloats(cast) && children != []
    ensures ReadMembers(Remaining(cast, children, false, indent, pretty, rest))
         == if AllFinite(cast, children) then Got(NormalMembers(cast, children), rest) else Fail
    decreases children
  {
    var first, more := children[0], children[1..];
    assert first in children;
    var sep := Separator(cast, more, false, indent, pretty, rest);
    var value := Print(cast, first.tree, indent + 1, pretty) + sep;
    var s := Label(first.key, false, pretty) + value;
    RemainingHead(cast, children, false, indent, pretty, rest);
    SkipWsIdempotent(Remaining(cast, children, false, indent, pretty, rest));
    SkipAgrees(Remaining(cast, children, false, indent, pretty, rest), s);
    MemberRead(first.key, pretty, value);
    if more == [] {
      SeparatorLast(cast, false, indent, pretty, rest);
    } else {
      SeparatorMore(cast, more, false, indent, pretty, rest);
    }
    ValueRead(cast, first.tree, indent + 1, pretty, sep);
    assert AllFinite(cast, children) == (Finite(cast, first.tree, false) && AllFinite(cast, more));
    if !Finite(cast, first.tree, false) {
      BadMember(s);
    } else if more == [] {
      LastMember(s, Member(first.key, Normal(cast, first.tree, false)), sep, rest);
      assert NormalMembers(cast, children) == [Member(first.key, Normal(cast, first.tree, false))];
    } else {
      MembersRead(cast, more, indent, pretty, rest);
      MoreMembers(s, Member(first.key, Normal(cast, first.tree, false)), sep,
                  Remaining(cast, more, false, indent, pretty, rest));
    }
  }

  /** Reading a label and then a value. */
  lemma MemberRead(key: string, pretty: bool, value: string)
    ensures ReadMember(Label(key, false, pretty) + value)
         == match ReadValue(value)
            case Fail => Fail
            case Got(v, rest) => Got(Member(key, v), rest)
  {
    var blank := if pretty then " " else "";
    var s := Label(key, false, pretty) + value;
    var afterName := ":" + (blank + value);
    LabelShape(key, blank, value);
    assert s == "\"" + (Escape(key) + "\"" + afterName);
    EscapedString(key, afterName);
    NamedMember(s, key, afterName);
    assert afterName[1..] == blank + value;
    SkipWsPrefix(blank, value);
    SkipAgrees(blank + value, value);
  }

  lemma LabelShape(key: string, blank: string, value: string)
    ensures ("\"" + Escape(key) + "\":" + blank) + value == "\"" + (Escape(key) + "\"" + (":" + (blank + value)))
  {
    assert "\"" + ":" == "\":";
    Assoc6("\"", Escape(key), "\"", ":", blank, value);
    assert "\"" + Escape(key) + "\":" == "\"" + Escape(key) + "\"" + ":";
    Assoc3(Escape(key), "\"", ":" + (blank + value));
  }

  // ----- The main results

  /** Writing a whole tree and reading the text back gives the tree's normal form when every leaf
      prints a finite number or a string, and is not JSON at all otherwise. This holds for every
      tree, in both layouts. */
  lemma RoundTrip(cast: string -> Option<string>, t: Tree, pretty: bool)
    requires PrintsFloats(cast)
    ensures Parse(Print(cast, t, 0, pretty)) == if Finite(cast, t, true) then Some(Normal(cast, t, true)) else None
  {
    ValueRead(cast, t, 0, pretty, "");
    assert Print(cast, t, 0, pretty) + "" == Print(cast, t, 0, pretty);
  }

  // ----- When the text determines the tree

  /** The tree a JSON text would be read back into as a property tree. */
  function FromJson(j: Json): Tree
    decreases j
  {
    match j
    case JNumber(token) => Tree(token, [])
    case JString(text) => Tree(text, [])
    case JArray(items) => Tree("", FromItems(items))
    case JObject(members) => Tree("", FromMembers(members))
    case JNull => Tree("null", [])
    case JTrue => Tree("true", [])
    case JFalse => Tree("false", [])
  }

  function FromItems(items: seq<Json>): seq<Child>
    decreases items
  {
    if items == [] then [] else [Child("", FromJson(items[0]))] + FromItems(items[1..])
  }

  function FromMembers(members: seq<Member>): seq<Child>
    decreases members
  {
    if members == [] then []
    else
      assert members[0] in members;
      [Child(members[0].name, FromJson(members[0].value))] + FromMembers(members[1..])
  }

  /** No node has both data and children, the root has no data, and a leaf that casts to a float
      prints as it was. */
  predicate Faithful(cast: string -> Option<string>, t: Tree, root: bool)
    decreases t
  {
    if !root && t.children == [] then
      cast(Escape(t.data)).Some? ==> cast(Escape(t.data)).value == t.data
    else t.data == "" && AllFaithful(cast, t.children)
  }

  predicate AllFaithful(cast: string -> Option<string>, children: seq<Child>)
    decreases children
  {
    children == [] || (Faithful(cast, children[0].tree, false) && AllFaithful(cast, children[1..]))
  }

  /** Nothing of a tree is lost in its normal form exactly when the tree is faithful. */
  lemma {:induction false} NormalKeepsTree(cast: string -> Option<string>, t: Tree, root: bool)
    ensures FromJson(Normal(cast, t, root)) == t <==> Faithful(cast, t, root)
    decreases t
  {
    if root || t.children != [] {
      if !root && forall c <- t.children :: c.key == "" {
        NormalKeepsItems(cast, t.children);
      } else {
        NormalKeepsMembers(cast, t.children);
      }
    }
  }

  lemma {:induction false} NormalKeepsItems(cast: string -> Option<string>, children: seq<Child>)
    requires forall c <- children :: c.key == ""
    ensures FromItems(NormalItems(cast, children)) == children <==> AllFaithful(cast, children)
    decreases children
  {
    if children != [] {
      assert children[0] in children && children == [children[0]] + children[1..];
      NormalKeepsTree(cast, children[0].tree, false);
      NormalKeepsItems(cast, children[1..]);
      var items := NormalItems(cast, children);
      assert items[1..] == NormalItems(cast, children[1..]);
      HeadAndTail(FromItems(items), Child("", FromJson(items[0])), FromItems(items[1..]), children);
    }
  }

  lemma {:induction false} NormalKeepsMembers(cast: string -> Option<string>, children: seq<Child>)
    ensures FromMembers(NormalMembers(cast, children)) == children <==> AllFaithful(cast, children)
    decreases children
  {
    if children != [] {
      assert children[0] in children && children == [children[0]] + children[1..];
      NormalKeepsTree(cast, children[0].tree, false);
      NormalKeepsMembers(cast, children[1..]);
      var members := NormalMembers(cast, children);
      assert members[1..] == NormalMembers(cast, children[1..]);
      HeadAndTail(FromMembers(members), Child(members[0].name, FromJson(members[0].value)),
                  FromMembers(members[1..]), children);
    }
  }

  lemma HeadAndTail<T>(s: seq<T>, head: T, tail: seq<T>, t: seq<T>)
    requires s == [head] + tail && t != []
    ensures s == t <==> head == t[0] && tail == t[1..]
  {
    assert s[0] == head && s[1..] == tail;
    assert t == [t[0]] + t[1..];
  }

  /** The property the writer is for fails on a tree with one leaf that casts to infinity. */
  lemma NonFiniteLeafIsNotJson(cast: string -> Option<string>, pretty: bool)
    requires PrintsFloats(cast) && cast("inf") == Some("inf")
    ensures Parse(Print(cast, Tree("", [Child("value", Tree("inf", []))]), 0, pretty)) == None
  {
    var leaf := Tree("inf", []);
    var t := Tree("", [Child("value", leaf)]);
    assert Escape("inf") == "inf" by {
      assert Escape("f") == "f";
      assert "nf"[1..] == "f" && "inf"[1..] == "nf";
    }
    assert !Finite(cast, leaf, false);
    assert !AllFinite(cast, t.children);
    RoundTrip(cast, t, pretty);
  }
}
