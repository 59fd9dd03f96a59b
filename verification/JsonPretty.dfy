/** The pretty layout is the compact text laid out over lines by its brackets and commas alone. */
module JsonPretty {
  import opened Basics
  import opened PropertyTree
  import opened JsonWriter
  import opened JsonGrammar
  import opened JsonRoundTrip
  import opened JsonLayout

  /** The place of a pen that copies JSON text: where the scan stands, how many brackets are open, and
      whether it is at the start of a line that has not been indented yet. */
  datatype Pen = Pen(mode: Mode, depth: int, lineStart: bool)

  function Blanks(n: int): string
    decreases n
  {
    if n <= 0 then "" else " " + Blanks(n - 1)
  }

  /** Four blanks for every open bracket, at the start of a line. */
  function Indent(pen: Pen): string {
    if pen.lineStart then Blanks(4 * pen.depth) else ""
  }

  predicate IsOpener(c: char) { c == '[' || c == '{' }

  predicate IsCloser(c: char) { c == ']' || c == '}' }

  /** What the pen writes for a character: a line ends after an opening bracket and after a comma, and before
      a closing bracket unless nothing was in between; a blank follows a colon. */
  function Written(pen: Pen, c: char): string {
    if !pen.mode.Outside? then [c]
    else if IsOpener(c) then Indent(pen) + [c] + "\n"
    else if IsCloser(c) then (if pen.lineStart then "" else "\n") + Blanks(4 * (pen.depth - 1)) + [c]
    else if c == ',' then ",\n"
    else if c == ':' then ": "
    else Indent(pen) + [c]
  }

  function Moved(pen: Pen, c: char): Pen {
    if !pen.mode.Outside? then pen.(mode := Next(pen.mode, c), lineStart := false)
    else if IsOpener(c) then Pen(Outside, pen.depth + 1, true)
    else if IsCloser(c) then Pen(Outside, pen.depth - 1, false)
    else Pen(Next(Outside, c), pen.depth, c == ',')
  }

  function LaidOut(pen: Pen, s: string): string
    decreases |s|
  {
    if s == "" then "" else Written(pen, s[0]) + LaidOut(Moved(pen, s[0]), s[1..])
  }

  function PenAfter(pen: Pen, s: string): Pen
    decreases |s|
  {
    if s == "" then pen else PenAfter(Moved(pen, s[0]), s[1..])
  }

  /** Copying `s` takes the pen from one place to another and writes `text`. */
  predicate Copies(pen: Pen, s: string, text: string, pen': Pen) {
    LaidOut(pen, s) == text && PenAfter(pen, s) == pen'
  }

  lemma {:induction false} CopyAppend(pen: Pen, a: string, x: string, pen': Pen, b: string, y: string, pen'': Pen)
    requires Copies(pen, a, x, pen') && Copies(pen', b, y, pen'')
    ensures Copies(pen, a + b, x + y, pen'')
    decreases |a|
  {
    if a == "" {
      assert a + b == b && x + y == y;
    } else {
      assert (a + b)[0] == a[0] && (a + b)[1..] == a[1..] + b;
      var next := Moved(pen, a[0]);
      CopyAppend(next, a[1..], LaidOut(next, a[1..]), pen', b, y, pen'');
      Assoc3(Written(pen, a[0]), LaidOut(next, a[1..]), y);
    }
  }

  lemma CopyOne(pen: Pen, c: char)
    ensures Copies(pen, [c], Written(pen, c), Moved(pen, c))
  {
    assert [c][1..] == "";
    assert Written(pen, c) + "" == Written(pen, c);
  }

  // ----- Literals and tokens

  /** Within a string literal everything is copied. */
  lemma {:induction false} CopyInside(pen: Pen, s: string)
    requires !pen.lineStart && !pen.mode.Outside? && StaysInside(pen.mode, s)
    ensures Copies(pen, s, s, pen.(mode := EndMode(pen.mode, s)))
    decreases |s|
  {
    if s != "" {
      CopyInside(pen.(mode := Next(pen.mode, s[0])), s[1..]);
      assert s == [s[0]] + s[1..];
    }
  }

  /** No character of the text closes the literal. */
  predicate StaysInside(m: Mode, s: string)
    decreases |s|
  {
    s == "" || (!Next(m, s[0]).Outside? && StaysInside(Next(m, s[0]), s[1..]))
  }

  lemma {:induction false} StaysAppend(m: Mode, a: string, b: string)
    requires StaysInside(m, a) && StaysInside(EndMode(m, a), b)
    ensures StaysInside(m, a + b)
    decreases |a|
  {
    if a == "" {
      assert a + b == b;
    } else {
      assert (a + b)[0] == a[0] && (a + b)[1..] == a[1..] + b;
      StaysAppend(Next(m, a[0]), a[1..], b);
    }
  }

  lemma {:induction false} PlainStays(s: string)
    requires forall c <- s :: c != '\"' && c != '\\'
    ensures StaysInside(Inside, s)
  {
    if s != "" {
      assert s[0] in s && forall c <- s[1..] :: c in s;
      PlainStays(s[1..]);
    }
  }

  lemma EscapedCharStays(c: char)
    ensures StaysInside(Inside, EscapeChar(c)) && EndMode(Inside, EscapeChar(c)) == Inside
  {
    var e := EscapeChar(c);
    EscapedCharInside(c);
    if |e| == 1 {
      PlainStays(e);
    } else {
      if |e| == 6 {
        EscapedControlPlain(c);
      }
      PlainStays(e[2..]);
      AfterBackslash(e);
    }
  }

  lemma AfterBackslash(e: string)
    requires |e| >= 2 && e[0] == '\\' && StaysInside(Inside, e[2..])
    ensures StaysInside(Inside, e)
  {
    assert e[1..][0] == e[1] && e[1..][1..] == e[2..];
    assert StaysInside(Escaped, e[1..]);
  }

  lemma {:induction false} EscapeStays(text: string)
    ensures StaysInside(Inside, Escape(text))
  {
    if text != "" {
      EscapedCharStays(text[0]);
      EscapeStays(text[1..]);
      StaysAppend(Inside, EscapeChar(text[0]), Escape(text[1..]));
    }
  }

  /** A string literal is indented if it starts a line, and copied as it is. */
  lemma CopyString(pen: Pen, text: string)
    requires pen.mode.Outside?
    ensures Copies(pen, "\"" + Escape(text) + "\"", Indent(pen) + ("\"" + Escape(text) + "\""), pen.(lineStart := false))
  {
    var inside := Pen(Inside, pen.depth, false);
    var quote := "\"";
    CopyOne(pen, '\"');
    CopyOne(inside, '\"');
    EscapeStays(text);
    EscapedInside(text);
    CopyInside(inside, Escape(text));
    CopyAppend(pen, quote, Indent(pen) + quote, inside, Escape(text), Escape(text), inside);
    CopyAppend(pen, quote + Escape(text), Indent(pen) + quote + Escape(text), inside, quote, quote, pen.(lineStart := false));
    Assoc4(Indent(pen), quote, Escape(text), quote);
  }

  predicate IsPlain(c: char) {
    c != '\"' && !IsOpener(c) && !IsCloser(c) && c != ',' && c != ':'
  }

  lemma {:induction false} CopyToken(pen: Pen, s: string)
    requires pen.mode.Outside? && s != "" && forall c <- s :: IsPlain(c)
    ensures Copies(pen, s, Indent(pen) + s, pen.(lineStart := false))
    decreases |s|
  {
    var next := pen.(lineStart := false);
    assert IsPlain(s[0]);
    CopyOne(pen, s[0]);
    assert s == [s[0]] + s[1..];
    if s[1..] != "" {
      CopyToken(next, s[1..]);
      assert Indent(next) + s[1..] == s[1..];
      CopyAppend(pen, [s[0]], Indent(pen) + [s[0]], next, s[1..], s[1..], next);
      Assoc3(Indent(pen), [s[0]], s[1..]);
    }
  }

  lemma CopyLeaf(cast: string -> Option<string>, data: string, pen: Pen)
    requires PrintsFloats(cast) && pen.mode.Outside?
    ensures Copies(pen, LeafText(cast, data), Indent(pen) + LeafText(cast, data), pen.(lineStart := false))
  {
    match cast(Escape(data))
    case None => CopyString(pen, data);
    case Some(token) =>
      TokenIsPlain(token);
      CopyToken(pen, token);
  }

  lemma TokenIsPlain(token: string)
    requires IsNumber(token) || token in NON_FINITE
    ensures token != "" && forall c <- token :: IsPlain(c)
  {
    if token !in NON_FINITE {
      NumberChars(token);
    }
  }

  // ----- Nodes

  lemma {:induction false} SpacesAreBlanks(n: nat)
    ensures Spaces(n) == Blanks(n)
  {
    if n > 0 {
      SpacesAreBlanks(n - 1);
    }
  }

  /** Copying the compact text of a node writes its pretty text, indented if it starts a line. */
  lemma {:induction false} CopyNode(cast: string -> Option<string>, t: Tree, indent: nat, lineStart: bool)
    requires PrintsFloats(cast)
    ensures var pen := Pen(Outside, indent, lineStart);
            Copies(pen, Print(cast, t, indent, false), Indent(pen) + Print(cast, t, indent, true), Pen(Outside, indent, false))
    decreases t
  {
    var pen := Pen(Outside, indent, lineStart);
    if IsLeaf(t, indent) {
      CopyLeaf(cast, t.data, pen);
    } else {
      var k := IsArray(t, indent);
      CopyChildren(cast, t.children, k, indent);
      CopyBrackets(pen, k, PrintChildren(cast, t.children, k, indent, false),
                   PrintChildren(cast, t.children, k, indent, true), t.children == []);
      PrintParts(cast, t, indent);
    }
  }

  /** Copying a list of children inside brackets leaves the pen at the end of the last one's line. */
  predicate ListCopies(indent: int, compact: string, pretty: string, empty: bool) {
    var start := Pen(Outside, indent + 1, true);
    && pretty == LaidOut(start, compact) + (if empty then "" else "\n")
    && PenAfter(start, compact) == Pen(Outside, indent + 1, empty)
  }

  lemma PrintParts(cast: string -> Option<string>, t: Tree, indent: nat)
    requires !IsLeaf(t, indent)
    ensures var k := IsArray(t, indent);
            && Print(cast, t, indent, false)
               == Open(k) + PrintChildren(cast, t.children, k, indent, false) + Close(k)
            && Print(cast, t, indent, true)
               == Open(k) + "\n" + PrintChildren(cast, t.children, k, indent, true) + Blanks(4 * indent) + Close(k)
  {
    SpacesAreBlanks(4 * indent);
    var k := IsArray(t, indent);
    var body := PrintChildren(cast, t.children, k, indent, false);
    assert Open(k) + "" == Open(k) && Open(k) + body + "" == Open(k) + body;
  }

  lemma CopyBrackets(pen: Pen, isArray: bool, compact: string, pretty: string, empty: bool)
    requires pen.mode.Outside? && ListCopies(pen.depth, compact, pretty, empty)
    ensures Copies(pen, Open(isArray) + compact + Close(isArray),
                   Indent(pen) + (Open(isArray) + "\n" + pretty + Blanks(4 * pen.depth) + Close(isArray)),
                   pen.(lineStart := false))
  {
    var o, c, pad := Open(isArray), Close(isArray), Blanks(4 * pen.depth);
    var inner, after := Pen(Outside, pen.depth + 1, true), Pen(Outside, pen.depth + 1, empty);
    var nl := if empty then "" else "\n";
    var lines := LaidOut(inner, compact);
    CopyOne(pen, o[0]);
    CopyOne(after, c[0]);
    assert o == [o[0]] && c == [c[0]];
    CopyAppend(pen, o, Indent(pen) + o + "\n", inner, compact, lines, after);
    CopyAppend(pen, o + compact, Indent(pen) + o + "\n" + lines, after, c, nl + pad + c, pen.(lineStart := false));
    Rebracket(Indent(pen), o, lines, nl, pad, c);
  }

  lemma Rebracket(i: string, o: string, lines: string, nl: string, pad: string, c: string)
    ensures (i + o + "\n" + lines) + (nl + pad + c) == i + (o + "\n" + (lines + nl) + pad + c)
  {
    Assoc4(i, o, "\n", lines);
    Assoc3(i, o + "\n" + lines, nl + pad + c);
    Assoc3(o + "\n" + lines, nl, pad + c);
    Assoc3(nl, pad, c);
    Assoc3(o + "\n", lines, nl);
    Assoc3(o + "\n" + (lines + nl), pad, c);
  }

  lemma {:induction false} CopyChildren(cast: string -> Option<string>, children: seq<Child>, isArray: bool, indent: nat)
    requires PrintsFloats(cast)
    ensures ListCopies(indent, PrintChildren(cast, children, isArray, indent, false),
                       PrintChildren(cast, children, isArray, indent, true), children == [])
    decreases children
  {
    if children != [] {
      var first, more := children[0], children[1..];
      assert first in children;
      var x, y := Head(cast, first, isArray, indent, false), Head(cast, first, isArray, indent, true);
      CopyNode(cast, first.tree, indent + 1, isArray);
      CopyHead(cast, first, isArray, indent);
      ChildrenParts(cast, children, isArray, indent);
      if more != [] {
        CopyChildren(cast, more, isArray, indent);
        CopyMore(indent, x, y, PrintChildren(cast, more, isArray, indent, false), PrintChildren(cast, more, isArray, indent, true));
      }
    }
  }

  lemma ChildrenParts(cast: string -> Option<string>, children: seq<Child>, isArray: bool, indent: nat)
    requires children != []
    ensures var x, y := Head(cast, children[0], isArray, indent, false), Head(cast, children[0], isArray, indent, true);
            var more := children[1..];
            && PrintChildren(cast, children, isArray, indent, false)
               == (if more == [] then x else (x + ",") + PrintChildren(cast, more, isArray, indent, false))
            && PrintChildren(cast, children, isArray, indent, true)
               == (if more == [] then y + "\n" else (y + ",\n") + PrintChildren(cast, more, isArray, indent, true))
  {
    var last := children[1..] == [];
    var x, y := Head(cast, children[0], isArray, indent, false), Head(cast, children[0], isArray, indent, true);
    ChildParts(cast, children[0], last, isArray, indent);
    if last {
      assert x + "" == x && (y + "\n") + "" == y + "\n";
    }
  }

  /** A child without what separates it from the next one. */
  function Head(cast: string -> Option<string>, child: Child, isArray: bool, indent: nat, pretty: bool): string {
    Pad(indent + 1, pretty) + Label(child.key, isArray, pretty) + Print(cast, child.tree, indent + 1, pretty)
  }

  lemma ChildParts(cast: string -> Option<string>, child: Child, last: bool, isArray: bool, indent: nat)
    ensures var x, y := Head(cast, child, isArray, indent, false), Head(cast, child, isArray, indent, true);
            && PrintChild(cast, child, last, isArray, indent, false) == x + (if last then "" else ",")
            && PrintChild(cast, child, last, isArray, indent, true) == y + (if last then "\n" else ",\n")
  {
    var x, y := Head(cast, child, isArray, indent, false), Head(cast, child, isArray, indent, true);
    var comma := if last then "" else ",";
    assert x + comma + "" == x + comma;
    Assoc3(y, comma, "\n");
  }

  lemma CopyHead(cast: string -> Option<string>, child: Child, isArray: bool, indent: nat)
    requires Copies(Pen(Outside, indent + 1, isArray), Print(cast, child.tree, indent + 1, false),
                    Indent(Pen(Outside, indent + 1, isArray)) + Print(cast, child.tree, indent + 1, true),
                    Pen(Outside, indent + 1, false))
    ensures Copies(Pen(Outside, indent + 1, true), Head(cast, child, isArray, indent, false),
                   Head(cast, child, isArray, indent, true), Pen(Outside, indent + 1, false))
  {
    var start := Pen(Outside, indent + 1, true);
    var x, y := Print(cast, child.tree, indent + 1, false), Print(cast, child.tree, indent + 1, true);
    HeadParts(cast, child, isArray, indent);
    if !isArray {
      CopyMember(start, child.key, x, y);
    }
  }

  lemma HeadParts(cast: string -> Option<string>, child: Child, isArray: bool, indent: nat)
    ensures var x, y := Print(cast, child.tree, indent + 1, false), Print(cast, child.tree, indent + 1, true);
            var pad := Blanks(4 * (indent + 1));
            && Head(cast, child, isArray, indent, false) == (if isArray then x else Label(child.key, false, false) + x)
            && Head(cast, child, isArray, indent, true) == (if isArray then pad + y else pad + Label(child.key, false, true) + y)
  {
    SpacesAreBlanks(4 * (indent + 1));
    var pad := Blanks(4 * (indent + 1));
    if isArray {
      assert "" + "" == "" && pad + "" == pad;
      assert "" + Print(cast, child.tree, indent + 1, false) == Print(cast, child.tree, indent + 1, false);
    } else {
      assert "" + Label(child.key, false, false) == Label(child.key, false, false);
    }
  }

  lemma CopyMember(pen: Pen, key: string, x: string, y: string)
    requires pen.mode.Outside?
    requires var after := pen.(lineStart := false); Copies(after, x, Indent(after) + y, after)
    ensures Copies(pen, Label(key, false, false) + x, Indent(pen) + Label(key, false, true) + y, pen.(lineStart := false))
  {
    var after := pen.(lineStart := false);
    CopyLabel(pen, key);
    assert Indent(after) + y == y;
    CopyAppend(pen, Label(key, false, false), Indent(pen) + Label(key, false, true), after, x, y, after);
  }

  lemma CopyLabel(pen: Pen, key: string)
    requires pen.mode.Outside?
    ensures Copies(pen, Label(key, false, false), Indent(pen) + Label(key, false, true), pen.(lineStart := false))
  {
    var quoted := "\"" + Escape(key) + "\"";
    var after := pen.(lineStart := false);
    CopyString(pen, key);
    CopyOne(after, ':');
    CopyAppend(pen, quoted, Indent(pen) + quoted, after, ":", ": ", after);
    assert Label(key, false, false) == quoted + ":";
    assert Label(key, false, true) == quoted + ": ";
    Assoc3(Indent(pen), quoted, ": ");
  }

  /** One child, a comma and the children after it. */
  lemma CopyMore(indent: int, x: string, y: string, compact: string, pretty: string)
    requires Copies(Pen(Outside, indent + 1, true), x, y, Pen(Outside, indent + 1, false))
    requires ListCopies(indent, compact, pretty, false)
    ensures ListCopies(indent, (x + ",") + compact, (y + ",\n") + pretty, false)
  {
    var start, after := Pen(Outside, indent + 1, true), Pen(Outside, indent + 1, false);
    var lines := LaidOut(start, compact);
    CopyOne(after, ',');
    CopyAppend(start, x, y, after, ",", ",\n", start);
    CopyAppend(start, x + ",", y + ",\n", start, compact, lines, after);
    Assoc3(y + ",\n", lines, "\n");
  }

  /** For every tree, the pretty text is the compact text laid out: a new line after every opening bracket and
      comma and before every closing bracket, each line indented by four blanks for every bracket that is
      open, and a blank after every colon. */
  lemma {:induction false} PrettyIsLaidOut(cast: string -> Option<string>, t: Tree)
    requires PrintsFloats(cast)
    ensures Print(cast, t, 0, true) == LaidOut(Pen(Outside, 0, false), Print(cast, t, 0, false))
  {
    CopyNode(cast, t, 0, false);
    assert "" + Print(cast, t, 0, true) == Print(cast, t, 0, true);
  }
}
