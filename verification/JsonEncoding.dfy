/** The encoding of what the JSON writer prints. A `char` here is one byte of the text; the writer passes
    bytes from 0x80 on through as they are, so the text is UTF-8 exactly when the tree's strings are. */
module JsonEncoding {
  import opened Basics
  import opened PropertyTree
  import opened JsonWriter
  import opened JsonGrammar
  import opened JsonRoundTrip
  import JsonLayout

  predicate In(c: char, low: int, high: int) {
    low <= c as int <= high
  }

  predicate Tails(s: string, n: nat) {
    |s| >= n && forall i :: 1 <= i < n ==> In(s[i], 0x80, 0xBF)
  }

  /** The length of the well-formed byte sequence of one character at the front, from the grammar of
      section 4 of RFC 3629; 0 when there is none. */
  function SequenceLength(s: string): (n: nat)
    ensures n <= |s| && (n > 0 ==> Tails(s, n))
  {
    if s == "" then 0
    else if In(s[0], 0x00, 0x7F) then 1
    else if In(s[0], 0xC2, 0xDF) && Tails(s, 2) then 2
    else if In(s[0], 0xE0, 0xEF) && Tails(s, 3)
            && (s[0] as int == 0xE0 ==> In(s[1], 0xA0, 0xBF))
            && (s[0] as int == 0xED ==> In(s[1], 0x80, 0x9F)) then 3
    else if In(s[0], 0xF0, 0xF4) && Tails(s, 4)
            && (s[0] as int == 0xF0 ==> In(s[1], 0x90, 0xBF))
            && (s[0] as int == 0xF4 ==> In(s[1], 0x80, 0x8F)) then 4
    else 0
  }

  /** Well-formed UTF-8. */
  predicate Utf8(s: string)
    decreases |s|
  {
    s == "" || (SequenceLength(s) > 0 && Utf8(s[SequenceLength(s)..]))
  }

  predicate IsAscii(c: char) {
    c as int < 0x80
  }

  /** Nothing of a character that began before can be continued by this text. */
  predicate StartsAscii(s: string) {
    s == "" || IsAscii(s[0])
  }

  lemma TailsLocal(a: string, b: string, n: nat)
    requires n <= |a|
    ensures Tails(a + b, n) == Tails(a, n)
  {
    assert forall i :: 0 <= i < n ==> (a + b)[i] == a[i];
    if Tails(a + b, n) {
      forall i | 1 <= i < n ensures In(a[i], 0x80, 0xBF) {
        assert In((a + b)[i], 0x80, 0xBF);
      }
    }
  }

  lemma TailsStop(a: string, b: string, n: nat)
    requires a != "" && |a| < n && StartsAscii(b)
    ensures !Tails(a + b, n)
  {
    if |a + b| >= n {
      assert (a + b)[|a|] == b[0] && !In(b[0], 0x80, 0xBF);
    }
  }

  /** Text that starts with an ASCII character has no influence on the character before it. */
  lemma SequenceLocal(a: string, b: string)
    requires a != "" && StartsAscii(b)
    ensures SequenceLength(a + b) == SequenceLength(a)
  {
    assert (a + b)[0] == a[0];
    SameTails(a, b, 2);
    SameTails(a, b, 3);
    SameTails(a, b, 4);
    if |a| > 1 {
      assert (a + b)[1] == a[1];
    }
  }

  lemma SameTails(a: string, b: string, n: nat)
    requires a != "" && StartsAscii(b)
    ensures Tails(a + b, n) == Tails(a, n)
  {
    if n <= |a| {
      TailsLocal(a, b, n);
    } else {
      TailsStop(a, b, n);
    }
  }

  lemma {:induction false} Utf8Append(a: string, b: string)
    requires StartsAscii(b)
    ensures Utf8(a + b) <==> Utf8(a) && Utf8(b)
    ensures StartsAscii(a) ==> StartsAscii(a + b)
    decreases |a|
  {
    if a == "" {
      assert a + b == b;
    } else {
      SequenceLocal(a, b);
      var n := SequenceLength(a);
      if n > 0 {
        assert (a + b)[n..] == a[n..] + b;
        Utf8Append(a[n..], b);
      }
    }
  }

  lemma {:induction false} AsciiUtf8(s: string)
    requires forall c <- s :: IsAscii(c)
    ensures Utf8(s) && StartsAscii(s)
  {
    if s != "" {
      assert s[0] in s && forall c <- s[1..] :: c in s;
      AsciiUtf8(s[1..]);
    }
  }

  lemma {:induction false} AsciiInFront(a: string, b: string)
    requires forall c <- a :: IsAscii(c)
    ensures Utf8(a + b) <==> Utf8(b)
  {
    if a == "" {
      assert a + b == b;
    } else {
      assert a[0] in a && forall c <- a[1..] :: c in a;
      assert (a + b)[0] == a[0] && (a + b)[1..] == a[1..] + b;
      AsciiInFront(a[1..], b);
    }
  }

  // ----- Escaping

  lemma EscapeCharAscii(c: char)
    ensures IsAscii(c) ==> EscapeChar(c) != "" && forall d <- EscapeChar(c) :: IsAscii(d)
    ensures !IsAscii(c) ==> EscapeChar(c) == [c]
  {
    if |EscapeChar(c)| == 6 {
      assert c as int < 0x20;
    }
  }

  /** The number of bytes from 0x80 on at the front. */
  function HighRun(s: string): (n: nat)
    ensures n <= |s|
    ensures n < |s| ==> IsAscii(s[n])
  {
    if s == "" || IsAscii(s[0]) then 0 else 1 + HighRun(s[1..])
  }

  lemma EscapeFirst(s: string)
    requires s != ""
    ensures Escape(s) == EscapeChar(s[0]) + Escape(s[1..])
  {
  }

  lemma HighFirst(s: string, n: nat)
    requires n < |s|
    ensures s[..n + 1] == [s[0]] + s[1..][..n] && s[n + 1..] == s[1..][n..]
  {
  }

  /** The bytes from 0x80 on at the front are escaped to themselves. */
  lemma {:induction false} EscapeHigh(s: string)
    ensures var n := HighRun(s); Escape(s) == s[..n] + Escape(s[n..])
  {
    if s == "" || IsAscii(s[0]) {
      assert s[..0] + Escape(s) == Escape(s);
    } else {
      var n := HighRun(s[1..]);
      EscapeHigh(s[1..]);
      EscapeCharAscii(s[0]);
      EscapeFirst(s);
      HighFirst(s, n);
      Assoc3([s[0]], s[1..][..n], Escape(s[1..][n..]));
    }
  }

  lemma AsciiFirst(s: string)
    requires s != "" && IsAscii(s[0])
    ensures Utf8(s) <==> Utf8(s[1..])
    ensures StartsAscii(Escape(s)) && (Utf8(Escape(s)) <==> Utf8(Escape(s[1..])))
  {
    var e, more := EscapeChar(s[0]), Escape(s[1..]);
    EscapeCharAscii(s[0]);
    AsciiInFront(e, more);
    assert (e + more)[0] == e[0] && e[0] in e;
  }

  /** Escaping neither makes nor breaks UTF-8. */
  lemma {:induction false} EscapeUtf8(s: string)
    ensures Utf8(Escape(s)) <==> Utf8(s)
    decreases |s|
  {
    var n := HighRun(s);
    var high, rest := s[..n], s[n..];
    EscapeHigh(s);
    assert s == high + rest;
    if rest != "" {
      EscapeUtf8(rest[1..]);
      AsciiFirst(rest);
    }
    Utf8Append(high, rest);
    Utf8Append(high, Escape(rest));
  }

  lemma StringUtf8(text: string)
    ensures var s := "\"" + Escape(text) + "\"";
            StartsAscii(s) && (Utf8(s) <==> Utf8(text))
  {
    EscapeUtf8(text);
    AsciiInFront("\"", Escape(text));
    AsciiUtf8("\"");
    Utf8Append("\"" + Escape(text), "\"");
  }

  // ----- Nodes

  /** Every key and every string that is printed below (or at) this node is well-formed UTF-8. */
  predicate Encoded(cast: string -> Option<string>, t: Tree, root: bool)
    decreases t
  {
    if !root && t.children == [] then cast(Escape(t.data)) == None ==> Utf8(t.data)
    else AllEncoded(cast, t.children)
  }

  predicate AllEncoded(cast: string -> Option<string>, children: seq<Child>)
    decreases children
  {
    children == [] || (
      && Utf8(children[0].key)
      && Encoded(cast, children[0].tree, false)
      && AllEncoded(cast, children[1..]))
  }

  /** A piece of the text is UTF-8 under a condition, and starts with an ASCII character. */
  ghost predicate Piece(s: string, good: bool) {
    StartsAscii(s) && (Utf8(s) <==> good)
  }

  lemma PieceAppend(a: string, good: bool, b: string, good': bool)
    requires Piece(a, good) && Piece(b, good')
    ensures Piece(a + b, good && good')
  {
    Utf8Append(a, b);
  }

  lemma PlainPiece(s: string)
    requires forall c <- s :: IsAscii(c)
    ensures Piece(s, true)
  {
    AsciiUtf8(s);
  }

  lemma LeafPiece(cast: string -> Option<string>, data: string)
    requires PrintsFloats(cast)
    ensures Piece(LeafText(cast, data), cast(Escape(data)) == None ==> Utf8(data))
  {
    match cast(Escape(data))
    case None => StringUtf8(data);
    case Some(token) =>
      TokenAscii(token);
      PlainPiece(token);
  }

  lemma TokenAscii(token: string)
    requires IsNumber(token) || token in NON_FINITE
    ensures forall c <- token :: IsAscii(c)
  {
    if token !in NON_FINITE {
      JsonLayout.NumberChars(token);
      forall i | 0 <= i < |token| ensures IsAscii(token[i]) {
        assert JsonLayout.IsNumberChar(token[i]);
      }
    }
  }

  lemma LabelPiece(key: string, isArray: bool, pretty: bool)
    ensures Piece(Label(key, isArray, pretty), isArray || Utf8(key))
  {
    if isArray {
      PlainPiece("");
    } else {
      var tail := ":" + (if pretty then " " else "");
      var quoted := "\"" + Escape(key) + "\"";
      StringUtf8(key);
      PlainPiece(tail);
      PieceAppend(quoted, Utf8(key), tail, true);
      assert Label(key, false, pretty) == quoted + tail;
    }
  }

  lemma PadPiece(indent: nat, pretty: bool)
    ensures Piece(Pad(indent, pretty), true) && Piece(NewLine(pretty), true)
  {
    SpacesAreWhitespace(4 * indent);
    PlainPiece(Pad(indent, pretty));
    PlainPiece(NewLine(pretty));
  }

  /** What is printed for a node is UTF-8 exactly when the keys and strings printed are. */
  lemma {:induction false} PrintUtf8(cast: string -> Option<string>, t: Tree, indent: nat, pretty: bool)
    requires PrintsFloats(cast)
    ensures Piece(Print(cast, t, indent, pretty), Encoded(cast, t, indent == 0))
    decreases t
  {
    if IsLeaf(t, indent) {
      LeafPiece(cast, t.data);
    } else {
      var k := IsArray(t, indent);
      var body, good := PrintChildren(cast, t.children, k, indent, pretty), AllEncoded(cast, t.children);
      CountIsSize(t.children, "");
      ChildrenUtf8(cast, t.children, k, indent, pretty);
      PadPiece(indent, pretty);
      PlainPiece(Open(k));
      PlainPiece(Close(k));
      PieceAppend(Open(k), true, NewLine(pretty), true);
      PieceAppend(Open(k) + NewLine(pretty), true, body, good);
      PieceAppend(Open(k) + NewLine(pretty) + body, good, Pad(indent, pretty), true);
      PieceAppend(Open(k) + NewLine(pretty) + body + Pad(indent, pretty), good, Close(k), true);
    }
  }

  lemma {:induction false} ChildrenUtf8(cast: string -> Option<string>, children: seq<Child>, isArray: bool,
                                        indent: nat, pretty: bool)
    requires PrintsFloats(cast) && (isArray ==> forall c <- children :: c.key == "")
    ensures Piece(PrintChildren(cast, children, isArray, indent, pretty), AllEncoded(cast, children))
    decreases children
  {
    if children == [] {
      PlainPiece("");
    } else {
      var first, last, more := children[0], |children| == 1, children[1..];
      assert first in children && forall c <- more :: c in children;
      PrintUtf8(cast, first.tree, indent + 1, pretty);
      ChildUtf8(cast, first, last, isArray, indent, pretty);
      ChildrenUtf8(cast, more, isArray, indent, pretty);
      PieceAppend(PrintChild(cast, first, last, isArray, indent, pretty), Utf8(first.key) && Encoded(cast, first.tree, false),
                  PrintChildren(cast, more, isArray, indent, pretty), AllEncoded(cast, more));
    }
  }

  lemma ChildUtf8(cast: string -> Option<string>, child: Child, last: bool, isArray: bool, indent: nat, pretty: bool)
    requires Piece(Print(cast, child.tree, indent + 1, pretty), Encoded(cast, child.tree, false))
    requires isArray ==> child.key == ""
    ensures Piece(PrintChild(cast, child, last, isArray, indent, pretty),
                  Utf8(child.key) && Encoded(cast, child.tree, false))
  {
    var a, b := Pad(indent + 1, pretty), Label(child.key, isArray, pretty);
    var c := Print(cast, child.tree, indent + 1, pretty);
    var d := if last then "" else ",";
    var key, good := Utf8(child.key), Encoded(cast, child.tree, false);
    PadPiece(indent + 1, pretty);
    LabelPiece(child.key, isArray, pretty);
    PlainPiece(d);
    PieceAppend(a, true, b, key);
    PieceAppend(a + b, key, c, good);
    PieceAppend(a + b + c, key && good, d, true);
    PieceAppend(a + b + c + d, key && good, NewLine(pretty), true);
  }

  // ----- JSON text as RFC 8259 has it, encoding included

  /** Section 8.1: JSON text is encoded in UTF-8. */
  function ParseBytes(bytes: string): Option<Json> {
    if Utf8(bytes) then Parse(bytes) else None
  }

  /** For every tree and both layouts, the bytes written are JSON text if and only if no leaf prints a
      non-finite float and every key and string printed is well-formed UTF-8; and then they read back
      as the tree's normal form. */
  lemma {:induction false} BytesRoundTrip(cast: string -> Option<string>, t: Tree, pretty: bool)
    requires PrintsFloats(cast)
    ensures ParseBytes(Print(cast, t, 0, pretty))
         == if Finite(cast, t, true) && Encoded(cast, t, true) then Some(Normal(cast, t, true)) else None
  {
    RoundTrip(cast, t, pretty);
    PrintUtf8(cast, t, 0, pretty);
  }

  /** A string leaf that holds the single byte 0xFF passes the reader of sections 2 to 7, but the text is
      no JSON text. */
  lemma {:induction false} LoneByteIsNotJson(cast: string -> Option<string>, pretty: bool)
    requires PrintsFloats(cast) && cast([0xFF as char]) == None
    ensures var t := Tree("", [Child("value", Tree([0xFF as char], []))]);
            Parse(Print(cast, t, 0, pretty)).Some? && ParseBytes(Print(cast, t, 0, pretty)) == None
  {
    var data := [0xFF as char];
    var leaf := Tree(data, []);
    var t := Tree("", [Child("value", leaf)]);
    assert SequenceLength(data) == 0;
    assert Escape(data) == data by {
      assert data[1..] == "";
    }
    assert !Encoded(cast, leaf, false);
    assert AllFinite(cast, t.children) by {
      assert t.children[1..] == [];
      assert Finite(cast, leaf, false);
    }
    assert !AllEncoded(cast, t.children);
    RoundTrip(cast, t, pretty);
    BytesRoundTrip(cast, t, pretty);
  }
}
