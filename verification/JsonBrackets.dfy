/** Braces and brackets outside string literals are balanced in everything the JSON writer prints. */
module JsonBrackets {
  import opened Basics
  import opened PropertyTree
  import opened JsonWriter
  import opened JsonRoundTrip
  import opened JsonLayout

  /** The brackets open after a text, innermost last; `None` when the text closes one that is not the
      innermost open one. Brackets inside string literals do not count. */
  function Nest(m: Mode, open: seq<char>, s: string): Option<seq<char>>
    decreases |s|
  {
    if s == "" then Some(open)
    else if m.Outside? && (s[0] == '[' || s[0] == '{') then Nest(m, open + [s[0]], s[1..])
    else if m.Outside? && (s[0] == ']' || s[0] == '}') then
      if open != [] && open[|open| - 1] == Partner(s[0]) then Nest(m, open[..|open| - 1], s[1..]) else None
    else Nest(Next(m, s[0]), open, s[1..])
  }

  function Partner(c: char): char {
    if c == ']' then '[' else '{'
  }

  /** From outside string literals to outside, with every bracket opened closed again by its own kind, and
      none closed that was open before. */
  ghost predicate Balanced(s: string) {
    EndMode(Outside, s) == Outside && forall open :: Nest(Outside, open, s) == Some(open)
  }

  lemma {:induction false} NestAppend(m: Mode, open: seq<char>, a: string, b: string)
    ensures Nest(m, open, a + b)
         == match Nest(m, open, a)
            case None => None
            case Some(open') => Nest(EndMode(m, a), open', b)
    decreases |a|
  {
    if a == "" {
      assert a + b == b;
    } else {
      var c, more := a[0], a[1..];
      assert (a + b)[0] == c && (a + b)[1..] == more + b;
      if m.Outside? && (c == '[' || c == '{') {
        NestAppend(m, open + [c], more, b);
      } else if m.Outside? && (c == ']' || c == '}') {
        if open != [] && open[|open| - 1] == Partner(c) {
          NestAppend(m, open[..|open| - 1], more, b);
        }
      } else {
        NestAppend(Next(m, c), open, more, b);
      }
    }
  }

  lemma BalancedAppend(a: string, b: string)
    requires Balanced(a) && Balanced(b)
    ensures Balanced(a + b)
  {
    ScanAppend(Outside, a, b);
    forall open ensures Nest(Outside, open, a + b) == Some(open) {
      NestAppend(Outside, open, a, b);
    }
  }

  /** A balanced text between a bracket and its partner is balanced. */
  lemma BalancedInside(isArray: bool, body: string)
    requires Balanced(body)
    ensures Balanced(Open(isArray) + body + Close(isArray))
  {
    var o, c := Open(isArray), Close(isArray);
    var s := o + body + c;
    assert EndMode(Outside, o) == Outside && EndMode(Outside, c) == Outside by {
      assert o[1..] == "" && c[1..] == "";
    }
    ScanAppend(Outside, o, body);
    ScanAppend(Outside, o + body, c);
    forall open ensures Nest(Outside, open, s) == Some(open) {
      var open' := open + [o[0]];
      assert o[1..] == "" && c[1..] == "";
      assert Nest(Outside, open, o) == Nest(Outside, open', "");
      NestAppend(Outside, open, o, body);
      NestAppend(Outside, open, o + body, c);
      assert open'[..|open'| - 1] == open;
      assert Nest(Outside, open', c) == Nest(Outside, open, "");
    }
  }

  /** Text without quotation marks and brackets. */
  lemma {:induction false} PlainBalanced(s: string)
    requires forall c <- s :: c !in {'\"', '[', ']', '{', '}'}
    ensures Balanced(s)
  {
    if s != "" {
      assert s[0] in s && forall c <- s[1..] :: c in s;
      PlainBalanced(s[1..]);
      forall open ensures Nest(Outside, open, s) == Some(open) {
        assert Nest(Outside, open, s) == Nest(Outside, open, s[1..]);
      }
    }
  }

  /** Inside a string literal nothing is opened or closed. */
  lemma {:induction false} NestInside(m: Mode, open: seq<char>, s: string)
    requires !m.Outside? && StaysInside(m, s)
    ensures Nest(m, open, s) == Some(open)
    decreases |s|
  {
    if s != "" {
      NestInside(Next(m, s[0]), open, s[1..]);
    }
  }

  /** The scan does not leave the literal before the end of the text. */
  predicate StaysInside(m: Mode, s: string)
    decreases |s|
  {
    s == "" || (!Next(m, s[0]).Outside? && StaysInside(Next(m, s[0]), s[1..]))
  }

  lemma {:induction false} StaysAppend(m: Mode, a: string, b: string)
    requires StaysInside(m, a) && StaysInside(EndMode(m, a), b)
    ensures StaysInside(m, a + b)
    decreases |a|
  {
    if a == "" {
      assert a + b == b;
    } else {
      assert (a + b)[0] == a[0] && (a + b)[1..] == a[1..] + b;
      StaysAppend(Next(m, a[0]), a[1..], b);
    }
  }

  lemma {:induction false} PlainStays(s: string)
    requires forall c <- s :: c != '\"' && c != '\\'
    ensures StaysInside(Inside, s)
  {
    if s != "" {
      assert s[0] in s && forall c <- s[1..] :: c in s;
      PlainStays(s[1..]);
    }
  }

  lemma EscapedCharStays(c: char)
    ensures StaysInside(Inside, EscapeChar(c))
  {
    var e := EscapeChar(c);
    if |e| == 1 {
      PlainStays(e);
    } else {
      assert e[0] == '\\';
      assert e[1..][1..] == e[2..];
      if |e| == 6 {
        EscapedControlPlain(c);
      }
      PlainStays(e[2..]);
    }
  }

  lemma {:induction false} EscapedStays(text: string)
    ensures StaysInside(Inside, Escape(text))
  {
    if text != "" {
      EscapedCharStays(text[0]);
      EscapedCharInside(text[0]);
      EscapedStays(text[1..]);
      StaysAppend(Inside, EscapeChar(text[0]), Escape(text[1..]));
    }
  }

  lemma StringBalanced(text: string)
    ensures Balanced("\"" + Escape(text) + "\"")
  {
    var quote := "\"";
    assert quote[1..] == "";
    MinifyString(text);
    EscapedInside(text);
    EscapedStays(text);
    ScanAppend(Outside, quote, Escape(text));
    assert EndMode(Outside, quote) == Inside && EndMode(Outside, quote + Escape(text)) == Inside;
    forall open ensures Nest(Outside, open, quote + Escape(text) + quote) == Some(open) {
      assert Nest(Outside, open, quote) == Nest(Inside, open, "");
      NestAppend(Outside, open, quote, Escape(text));
      NestInside(Inside, open, Escape(text));
      NestAppend(Outside, open, quote + Escape(text), quote);
      assert Nest(Inside, open, quote) == Nest(Outside, open, "");
    }
  }

  // ----- Nodes

  lemma LeafBalanced(cast: string -> Option<string>, data: string)
    requires PrintsFloats(cast)
    ensures Balanced(LeafText(cast, data))
  {
    match cast(Escape(data))
    case None => StringBalanced(data);
    case Some(token) =>
      if token !in NON_FINITE {
        NumberChars(token);
      }
      PlainBalanced(token);
  }

  lemma LabelBalanced(key: string, isArray: bool, pretty: bool)
    ensures Balanced(Label(key, isArray, pretty))
  {
    if isArray {
      PlainBalanced("");
    } else {
      var blank := if pretty then " " else "";
      var quoted := "\"" + Escape(key) + "\"";
      StringBalanced(key);
      PlainBalanced(":");
      PlainBalanced(blank);
      BalancedAppend(quoted, ":");
      BalancedAppend(quoted + ":", blank);
      assert "\"" + Escape(key) + "\":" == quoted + ":";
    }
  }

  lemma {:induction false} SpacesBalanced(n: nat)
    ensures Balanced(Spaces(n))
  {
    if n > 0 {
      PlainBalanced(" ");
      SpacesBalanced(n - 1);
      BalancedAppend(" ", Spaces(n - 1));
    } else {
      PlainBalanced("");
    }
  }

  lemma PadBalanced(indent: nat, pretty: bool)
    ensures Balanced(Pad(indent, pretty)) && Balanced(NewLine(pretty))
  {
    SpacesBalanced(4 * indent);
    PlainBalanced("");
    PlainBalanced("\n");
  }

  /** Everything printed for a node, at every recursive call and in both layouts, is balanced: also when
      a leaf prints a non-finite float. */
  lemma {:induction false} PrintBalanced(cast: string -> Option<string>, t: Tree, indent: nat, pretty: bool)
    requires PrintsFloats(cast)
    ensures Balanced(Print(cast, t, indent, pretty))
    decreases t
  {
    if IsLeaf(t, indent) {
      LeafBalanced(cast, t.data);
    } else {
      var k := IsArray(t, indent);
      var body := PrintChildren(cast, t.children, k, indent, pretty);
      var nl, pad := NewLine(pretty), Pad(indent, pretty);
      ChildrenBalanced(cast, t.children, k, indent, pretty);
      PadBalanced(indent, pretty);
      BalancedAppend(nl, body);
      BalancedAppend(nl + body, pad);
      BalancedInside(k, nl + body + pad);
      NodeText(Open(k), nl, body, pad, Close(k));
    }
  }

  lemma NodeText(o: string, nl: string, body: string, pad: string, c: string)
    ensures o + nl + body + pad + c == o + (nl + body + pad) + c
  {
    Assoc4(o, nl, body, pad);
  }

  lemma {:induction false} ChildrenBalanced(cast: string -> Option<string>, children: seq<Child>, isArray: bool,
                                            indent: nat, pretty: bool)
    requires PrintsFloats(cast)
    ensures Balanced(PrintChildren(cast, children, isArray, indent, pretty))
    decreases children
  {
    if children == [] {
      PlainBalanced("");
    } else {
      var first, last := children[0], |children| == 1;
      assert first in children;
      PrintBalanced(cast, first.tree, indent + 1, pretty);
      ChildBalanced(cast, first, last, isArray, indent, pretty);
      ChildrenBalanced(cast, children[1..], isArray, indent, pretty);
      BalancedAppend(PrintChild(cast, first, last, isArray, indent, pretty),
                     PrintChildren(cast, children[1..], isArray, indent, pretty));
    }
  }

  lemma ChildBalanced(cast: string -> Option<string>, child: Child, last: bool, isArray: bool, indent: nat, pretty: bool)
    requires Balanced(Print(cast, child.tree, indent + 1, pretty))
    ensures Balanced(PrintChild(cast, child, last, isArray, indent, pretty))
  {
    var a, b := Pad(indent + 1, pretty), Label(child.key, isArray, pretty);
    var c := Print(cast, child.tree, indent + 1, pretty);
    var d := if last then "" else ",";
    PadBalanced(indent + 1, pretty);
    LabelBalanced(child.key, isArray, pretty);
    PlainBalanced(d);
    BalancedAppend(a, b);
    BalancedAppend(a + b, c);
    BalancedAppend(a + b + c, d);
    BalancedAppend(a + b + c + d, NewLine(pretty));
  }
}
