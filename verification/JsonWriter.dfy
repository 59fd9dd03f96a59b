/** The JSON writer of src/main.cpp: a recursive printer over property trees. */
module JsonWriter {
  import opened Basics
  import opened PropertyTree

  const HEX_DIGITS := "0123456789ABCDEF"

  /** One character of Boost's `create_escapes`. A `char` of the program is 8 bits wide, so the
      upper bound 0xFF on unescaped characters holds of every character it can meet. */
  function EscapeChar(c: char): (e: string) {
    if c as int == 0x20 || c as int == 0x21 || 0x23 <= c as int <= 0x2E
       || 0x30 <= c as int <= 0x5B || 0x5D <= c as int then [c]
    else if c as int == 0x08 then "\\b"
    else if c as int == 0x0C then "\\f"
    else if c == '\n' then "\\n"
    else if c == '\r' then "\\r"
    else if c == '\t' then "\\t"
    else if c == '/' then "\\/"
    else if c == '\"' then "\\\""
    else if c == '\\' then "\\\\"
    else "\\u00" + [HEX_DIGITS[c as int / 16], HEX_DIGITS[c as int % 16]]
  }

  function Escape(s: string): string {
    if s == "" then "" else EscapeChar(s[0]) + Escape(s[1..])
  }

  /** `cast` stands for `lexical_cast<float>` followed by streaming the float: `None` is
      `bad_lexical_cast`, otherwise the text the stream receives. */
  function LeafText(cast: string -> Option<string>, data: string): string {
    match cast(Escape(data))
    case Some(token) => token
    case None => "\"" + Escape(data) + "\""
  }

  function Spaces(n: nat): string {
    if n == 0 then "" else " " + Spaces(n - 1)
  }

  function Pad(indent: nat, pretty: bool): string {
    if pretty then Spaces(4 * indent) else ""
  }

  function NewLine(pretty: bool): string {
    if pretty then "\n" else ""
  }

  function Label(key: string, isArray: bool, pretty: bool): string {
    if isArray then "" else "\"" + Escape(key) + "\":" + (if pretty then " " else "")
  }

  predicate IsLeaf(t: Tree, indent: nat) {
    indent > 0 && t.children == []
  }

  predicate IsArray(t: Tree, indent: nat) {
    indent > 0 && Count(t.children, "") == |t.children|
  }

  function Open(isArray: bool): string { if isArray then "[" else "{" }

  function Close(isArray: bool): string { if isArray then "]" else "}" }

  /** The text appended for one node. */
  function Print(cast: string -> Option<string>, t: Tree, indent: nat, pretty: bool): string
    decreases t
  {
    if IsLeaf(t, indent) then LeafText(cast, t.data)
    else
      var isArray := IsArray(t, indent);
      Open(isArray) + NewLine(pretty)
      + PrintChildren(cast, t.children, isArray, indent, pretty)
      + Pad(indent, pretty) + Close(isArray)
  }

  /** The text appended by the children loop, from some child to the last. */
  function PrintChildren(cast: string -> Option<string>, children: seq<Child>, isArray: bool,
                         indent: nat, pretty: bool): string
    decreases children
  {
    if children == [] then ""
    else
      PrintChild(cast, children[0], |children| == 1, isArray, indent, pretty)
      + PrintChildren(cast, children[1..], isArray, indent, pretty)
  }

  /** One turn of the children loop. */
  function PrintChild(cast: string -> Option<string>, child: Child, last: bool, isArray: bool,
                      indent: nat, pretty: bool): string
    decreases child
  {
    Pad(indent + 1, pretty) + Label(child.key, isArray, pretty)
    + Print(cast, child.tree, indent + 1, pretty)
    + (if last then "" else ",") + NewLine(pretty)
  }

  /** What Boost checks before it writes: the root has no data, and no node has both data and children. */
  predicate Writable(t: Tree, root: bool)
    decreases t
  {
    && (t.data == "" || (!root && t.children == []))
    && AllWritable(t.children)
  }

  predicate AllWritable(children: seq<Child>)
    decreases children
  {
    children == [] || (Writable(children[0].tree, false) && AllWritable(children[1..]))
  }

  /** `write_json` into an empty stream; `None` when Boost refuses the tree with an exception. */
  function WriteJson(cast: string -> Option<string>, t: Tree, pretty: bool): Option<string> {
    if Writable(t, true) then Some(Print(cast, t, 0, pretty)) else None
  }

  // ----- Which trees are written

  /** The node that a path of child indices leads to. */
  function NodeAt(t: Tree, path: seq<nat>): Option<Tree>
    decreases |path|
  {
    if path == [] then Some(t)
    else if path[0] < |t.children| then NodeAt(t.children[path[0]].tree, path[1..])
    else None
  }

  /** The path leads to a node that has both data and children. */
  predicate Clash(t: Tree, path: seq<nat>) {
    match NodeAt(t, path)
    case None => false
    case Some(node) => node.data != "" && node.children != []
  }

  ghost predicate NoClash(t: Tree) {
    forall path: seq<nat> :: !Clash(t, path)
  }

  lemma NoClashBelow(t: Tree, k: nat)
    requires NoClash(t) && k < |t.children|
    ensures NoClash(t.children[k].tree)
  {
    forall path: seq<nat> ensures !Clash(t.children[k].tree, path) {
      assert ([k] + path)[1..] == path;
      assert !Clash(t, [k] + path);
    }
  }

  lemma {:induction false} NoClashIsWritable(t: Tree, root: bool)
    requires NoClash(t) && (root ==> t.data == "")
    ensures Writable(t, root)
    decreases t, 0
  {
    assert !Clash(t, []);
    forall k | 0 <= k < |t.children| ensures NoClash(t.children[k].tree) {
      NoClashBelow(t, k);
    }
    NoClashIsWritableBelow(t.children);
  }

  lemma {:induction false} NoClashIsWritableBelow(children: seq<Child>)
    requires forall k :: 0 <= k < |children| ==> NoClash(children[k].tree)
    ensures AllWritable(children)
    decreases children, 1
  {
    if children != [] {
      NoClashIsWritable(children[0].tree, false);
      NoClashIsWritableBelow(children[1..]);
    }
  }

  lemma {:induction false} WritableAt(children: seq<Child>, k: nat)
    requires AllWritable(children) && k < |children|
    ensures Writable(children[k].tree, false)
  {
    if k > 0 {
      WritableAt(children[1..], k - 1);
    }
  }

  lemma {:induction false} WritableHasNoClash(t: Tree, root: bool, path: seq<nat>)
    requires Writable(t, root)
    ensures !Clash(t, path) && (root ==> t.data == "")
    decreases |path|
  {
    if path != [] && path[0] < |t.children| {
      WritableAt(t.children, path[0]);
      WritableHasNoClash(t.children[path[0]].tree, false, path[1..]);
    }
  }

  /** The printed text of a tree is written, in either layout, if and only if its root has no data and no
      path leads to a node with both data and children. */
  lemma {:induction false} WrittenExactly(cast: string -> Option<string>, t: Tree, pretty: bool)
    ensures WriteJson(cast, t, pretty) == Some(Print(cast, t, 0, pretty))
       <==> t.data == "" && forall path: seq<nat> :: !Clash(t, path)
    ensures WriteJson(cast, t, pretty) == None <==> t.data != "" || exists path: seq<nat> :: Clash(t, path)
  {
    if t.data == "" && NoClash(t) {
      NoClashIsWritable(t, true);
    }
    if Writable(t, true) {
      forall path: seq<nat> ensures !Clash(t, path) {
        WritableHasNoClash(t, true, path);
      }
    }
  }

  // ----- How characters are escaped

  /** The digit 0 to 9 or A to F. */
  function UpperHex(d: int): char
    requires 0 <= d < 16
  {
    if d < 10 then ('0' as int + d) as char else ('A' as int + (d - 10)) as char
  }

  /** Exactly the quotation mark, the solidus, the reverse solidus and the characters below 0x20 are
      escaped: the first three and five of the others after a reverse solidus, the rest as `\u00` and two
      upper-case hexadecimal digits. */
  lemma EscapeCharText(c: char)
    ensures EscapeChar(c) == [c] <==> c as int >= 0x20 && c !in {'\"', '/', '\\'}
    ensures c in {'\"', '/', '\\'} ==> EscapeChar(c) == ['\\', c]
    ensures EscapeChar(8 as char) == "\\b" && EscapeChar(12 as char) == "\\f"
    ensures EscapeChar(10 as char) == "\\n" && EscapeChar(13 as char) == "\\r" && EscapeChar(9 as char) == "\\t"
    ensures c as int < 0x20 && c as int !in {8, 9, 10, 12, 13}
        ==> EscapeChar(c) == ['\\', 'u', '0', '0', UpperHex(c as int / 16), UpperHex(c as int % 16)]
  {
    if c as int < 0x20 {
      HexDigitIs(c as int / 16);
      HexDigitIs(c as int % 16);
    }
  }

  lemma HexDigitIs(d: int)
    requires 0 <= d < 16
    ensures HEX_DIGITS[d] == UpperHex(d)
  {
  }

  /** `std::ostream`: text is only ever appended. */
  class OutputStream {
    var text: string

    constructor ()
      ensures text == ""
    {
      text := "";
    }

    method Put(s: string)
      modifies this
      ensures text == old(text) + s
    {
      text := text + s;
    }

    /** `if (condition) stream << s;` */
    method PutIf(condition: bool, s: string)
      modifies this
      ensures text == old(text) + (if condition then s else "")
    {
      if condition {
        Put(s);
      } else {
        assert text == text + "";
      }
    }
  }

  /** `write_json_helper`. */
  method WriteJsonHelper(stream: OutputStream, cast: string -> Option<string>, t: Tree, indent: nat, pretty: bool)
    modifies stream
    ensures stream.text == old(stream.text) + Print(cast, t, indent, pretty)
    decreases t, 1
  {
    if indent > 0 && t.children == [] {
      ghost var start := stream.text;
      var data := Escape(t.data);
      match cast(data)
      case Some(token) =>
        stream.Put(token);
      case None =>
        stream.Put("\"");
        stream.Put(data);
        stream.Put("\"");
        Assoc4(start, "\"", data, "\"");
    } else if indent > 0 && Count(t.children, "") == |t.children| {
      WriteArray(stream, cast, t, indent, pretty);
    } else {
      WriteObject(stream, cast, t, indent, pretty);
    }
  }

  /** The array branch of `write_json_helper`. */
  method WriteArray(stream: OutputStream, cast: string -> Option<string>, t: Tree, indent: nat, pretty: bool)
    requires !IsLeaf(t, indent)
    requires IsArray(t, indent)
    modifies stream
    ensures stream.text == old(stream.text) + Print(cast, t, indent, pretty)
    decreases t, 0
  {
    ghost var start := stream.text;
    stream.Put("[");
    stream.PutIf(pretty, "\n");
    ghost var before := stream.text;
    var i := 0;
    while i < |t.children|
      invariant 0 <= i <= |t.children|
      invariant stream.text + PrintChildren(cast, t.children[i..], true, indent, pretty)
             == before + PrintChildren(cast, t.children, true, indent, pretty)
    {
      ghost var here := stream.text;
      stream.PutIf(pretty, Spaces(4 * (indent + 1)));
      assert stream.text == stream.text + Label(t.children[i].key, true, pretty);
      WriteJsonHelper(stream, cast, t.children[i].tree, indent + 1, pretty);
      stream.PutIf(i + 1 != |t.children|, ",");
      stream.PutIf(pretty, "\n");
      ChildStep(cast, t.children, i, true, indent, pretty, here, stream.text);
      i := i + 1;
    }
    ghost var body := PrintChildren(cast, t.children, true, indent, pretty);
    assert stream.text == before + body by {
      assert t.children[i..] == [];
      assert stream.text + "" == stream.text;
    }
    stream.PutIf(pretty, Spaces(4 * indent));
    stream.Put("]");
    Assoc6(start, "[", NewLine(pretty), body, Pad(indent, pretty), "]");
  }

  /** The object branch of `write_json_helper`. */
  method WriteObject(stream: OutputStream, cast: string -> Option<string>, t: Tree, indent: nat, pretty: bool)
    requires !IsLeaf(t, indent)
    requires !IsArray(t, indent)
    modifies stream
    ensures stream.text == old(stream.text) + Print(cast, t, indent, pretty)
    decreases t, 0
  {
    ghost var start := stream.text;
    stream.Put("{");
    stream.PutIf(pretty, "\n");
    ghost var before := stream.text;
    var i := 0;
    while i < |t.children|
      invariant 0 <= i <= |t.children|
      invariant stream.text + PrintChildren(cast, t.children[i..], false, indent, pretty)
             == before + PrintChildren(cast, t.children, false, indent, pretty)
    {
      ghost var here := stream.text;
      stream.PutIf(pretty, Spaces(4 * (indent + 1)));
      ghost var labelled := stream.text;
      stream.Put("\"");
      stream.Put(Escape(t.children[i].key));
      stream.Put("\"");
      stream.Put(":");
      stream.PutIf(pretty, " ");
      LabelStep(labelled, t.children[i].key, pretty);
      WriteJsonHelper(stream, cast, t.children[i].tree, indent + 1, pretty);
      stream.PutIf(i + 1 != |t.children|, ",");
      stream.PutIf(pretty, "\n");
      ChildStep(cast, t.children, i, false, indent, pretty, here, stream.text);
      i := i + 1;
    }
    ghost var body := PrintChildren(cast, t.children, false, indent, pretty);
    assert stream.text == before + body by {
      assert t.children[i..] == [];
      assert stream.text + "" == stream.text;
    }
    stream.PutIf(pretty, Spaces(4 * indent));
    stream.Put("}");
    Assoc6(start, "{", NewLine(pretty), body, Pad(indent, pretty), "}");
  }

  lemma LabelStep(labelled: string, key: string, pretty: bool)
    ensures labelled + "\"" + Escape(key) + "\"" + ":" + (if pretty then " " else "")
         == labelled + Label(key, false, pretty)
  {
    var blank := if pretty then " " else "";
    Assoc6(labelled, "\"", Escape(key), "\"", ":", blank);
    assert "\"" + Escape(key) + "\"" + ":" == "\"" + Escape(key) + "\":";
  }

  /** What one turn of the children loop appends. */
  lemma ChildStep(cast: string -> Option<string>, children: seq<Child>, i: nat, isArray: bool,
                  indent: nat, pretty: bool, here: string, there: string)
    requires i < |children|
    requires there == here + Pad(indent + 1, pretty) + Label(children[i].key, isArray, pretty)
                    + Print(cast, children[i].tree, indent + 1, pretty)
                    + (if i + 1 == |children| then "" else ",") + NewLine(pretty)
    ensures there + PrintChildren(cast, children[i + 1..], isArray, indent, pretty)
         == here + PrintChildren(cast, children[i..], isArray, indent, pretty)
  {
    var child := children[i];
    var text := PrintChild(cast, child, i + 1 == |children|, isArray, indent, pretty);
    Assoc6(here, Pad(indent + 1, pretty), Label(child.key, isArray, pretty),
           Print(cast, child.tree, indent + 1, pretty),
           if i + 1 == |children| then "" else ",", NewLine(pretty));
    assert children[i..][1..] == children[i + 1..];
    Assoc3(here, text, PrintChildren(cast, children[i + 1..], isArray, indent, pretty));
  }
}
