/** The two layouts of the JSON writer differ in insignificant whitespace only. */
module JsonLayout {
  import opened Basics
  import opened PropertyTree
  import opened JsonWriter
  import opened JsonGrammar
  import opened JsonRoundTrip

  /** Where a scan of JSON text stands: outside string literals, inside one, or after a backslash in one. */
  datatype Mode = Outside | Inside | Escaped

  function Next(m: Mode, c: char): Mode {
    match m
    case Outside => if c == '\"' then Inside else Outside
    case Inside => if c == '\"' then Outside else if c == '\\' then Escaped else Inside
    case Escaped => Inside
  }

  function EndMode(m: Mode, s: string): Mode
    decreases |s|
  {
    if s == "" then m else EndMode(Next(m, s[0]), s[1..])
  }

  /** The text without the whitespace that stands outside string literals. */
  function Minify(m: Mode, s: string): string
    decreases |s|
  {
    if s == "" then ""
    else (if m.Outside? && IsWhitespace(s[0]) then "" else [s[0]]) + Minify(Next(m, s[0]), s[1..])
  }

  /** `s` consists of whole tokens and `t` is what is left of it after minifying. */
  predicate MinifiesTo(s: string, t: string) {
    EndMode(Outside, s) == Outside && Minify(Outside, s) == t
  }

  lemma {:induction false} EndModeAppend(m: Mode, a: string, b: string)
    ensures EndMode(m, a + b) == EndMode(EndMode(m, a), b)
    decreases |a|
  {
    if a == "" {
      assert a + b == b;
    } else {
      assert (a + b)[0] == a[0] && (a + b)[1..] == a[1..] + b;
      EndModeAppend(Next(m, a[0]), a[1..], b);
    }
  }

  lemma {:induction false} MinifyInTwo(m: Mode, a: string, b: string)
    ensures Minify(m, a + b) == Minify(m, a) + Minify(EndMode(m, a), b)
    decreases |a|
  {
    if a == "" {
      assert a + b == b;
    } else {
      assert (a + b)[0] == a[0] && (a + b)[1..] == a[1..] + b;
      var n := Next(m, a[0]);
      MinifyInTwo(n, a[1..], b);
      Assoc3(if m.Outside? && IsWhitespace(a[0]) then "" else [a[0]], Minify(n, a[1..]), Minify(EndMode(m, a), b));
    }
  }

  lemma ScanAppend(m: Mode, a: string, b: string)
    ensures EndMode(m, a + b) == EndMode(EndMode(m, a), b)
    ensures Minify(m, a + b) == Minify(m, a) + Minify(EndMode(m, a), b)
  {
    EndModeAppend(m, a, b);
    MinifyInTwo(m, a, b);
  }

  lemma MinifyAppend(a: string, a': string, b: string, b': string)
    requires MinifiesTo(a, a') && MinifiesTo(b, b')
    ensures MinifiesTo(a + b, a' + b')
  {
    ScanAppend(Outside, a, b);
  }

  lemma {:induction false} MinifyWhitespace(w: string)
    requires forall c <- w :: IsWhitespace(c)
    ensures MinifiesTo(w, "")
  {
    if w != "" {
      assert w[0] in w;
      MinifyWhitespace(w[1..]);
    }
  }

  lemma MinifyPad(indent: nat, pretty: bool)
    ensures MinifiesTo(Pad(indent, pretty), "") && Pad(indent, false) == ""
    ensures MinifiesTo(NewLine(pretty), "") && NewLine(false) == ""
  {
    SpacesAreWhitespace(4 * indent);
    MinifyWhitespace(Pad(indent, pretty));
    MinifyWhitespace(NewLine(pretty));
  }

  /** Text without whitespace or quotation marks is left as it is. */
  lemma {:induction false} MinifyPlain(s: string)
    requires forall c <- s :: !IsWhitespace(c) && c != '\"'
    ensures MinifiesTo(s, s)
  {
    if s != "" {
      assert s == [s[0]] + s[1..] && s[0] in s;
      assert forall c <- s[1..] :: c in s;
      MinifyPlain(s[1..]);
    }
  }

  /** One escaped character leaves the scan inside the literal and is kept whole. */
  lemma EscapedCharInside(c: char)
    ensures EndMode(Inside, EscapeChar(c)) == Inside && Minify(Inside, EscapeChar(c)) == EscapeChar(c)
  {
    var e := EscapeChar(c);
    if |e| == 1 {
      InsidePlain(e);
    } else {
      assert e[0] == '\\';
      assert e[1..][1..] == e[2..];
      if |e| == 6 {
        EscapedControlPlain(c);
      }
      InsidePlain(e[2..]);
      assert e == [e[0]] + ([e[1]] + e[2..]);
    }
  }

  lemma EscapedControlPlain(c: char)
    requires |EscapeChar(c)| == 6
    ensures forall d <- EscapeChar(c)[2..] :: d != '\"' && d != '\\'
  {
    assert c as int < 0x20;
    assert EscapeChar(c)[2..] == ['0', '0', HEX_DIGITS[c as int / 16], HEX_DIGITS[c as int % 16]];
  }

  lemma {:induction false} InsidePlain(s: string)
    requires forall c <- s :: c != '\"' && c != '\\'
    ensures EndMode(Inside, s) == Inside && Minify(Inside, s) == s
  {
    if s != "" {
      assert s == [s[0]] + s[1..] && s[0] in s;
      assert forall c <- s[1..] :: c in s;
      InsidePlain(s[1..]);
    }
  }

  lemma {:induction false} EscapedInside(text: string)
    ensures EndMode(Inside, Escape(text)) == Inside && Minify(Inside, Escape(text)) == Escape(text)
  {
    if text != "" {
      EscapedCharInside(text[0]);
      EscapedInside(text[1..]);
      ScanAppend(Inside, EscapeChar(text[0]), Escape(text[1..]));
    }
  }

  lemma MinifyString(text: string)
    ensures MinifiesTo("\"" + Escape(text) + "\"", "\"" + Escape(text) + "\"")
  {
    var quote := "\"";
    assert quote[1..] == "";
    assert EndMode(Outside, quote) == Inside && Minify(Outside, quote) == quote;
    assert EndMode(Inside, quote) == Outside && Minify(Inside, quote) == quote;
    EscapedInside(text);
    ScanAppend(Outside, quote, Escape(text));
    ScanAppend(Outside, quote + Escape(text), quote);
  }

  // ----- Number tokens

  predicate IsNumberChar(c: char) {
    IsDigit(c) || c in {'.', 'e', 'E', '+', '-'}
  }

  lemma {:induction false} DigitsAreDigits(s: string)
    ensures forall i | 0 <= i < DigitsLength(s) :: IsDigit(s[i])
  {
    if s != "" && IsDigit(s[0]) {
      DigitsAreDigits(s[1..]);
      forall i | 0 <= i < DigitsLength(s) ensures IsDigit(s[i]) {
        if i > 0 { assert s[i] == s[1..][i - 1]; }
      }
    }
  }

  lemma DigitsFrom(s: string, k: nat)
    requires k <= |s|
    ensures forall i | k <= i < k + DigitsLength(s[k..]) :: IsDigit(s[i])
  {
    DigitsAreDigits(s[k..]);
    forall i | k <= i < k + DigitsLength(s[k..]) ensures IsDigit(s[i]) {
      assert s[i] == s[k..][i - k];
    }
  }

  lemma WholeChars(s: string)
    ensures forall i | 0 <= i < WholeLength(s) :: IsNumberChar(s[i])
  {
    var minus := if s != "" && s[0] == '-' then 1 else 0;
    DigitsFrom(s, minus);
  }

  lemma FracChars(s: string, k: nat)
    requires k <= |s|
    ensures forall i | k <= i < k + FracLength(s[k..]) :: IsNumberChar(s[i])
  {
    if k < |s| {
      assert s[k..][1..] == s[k + 1..];
      DigitsFrom(s, k + 1);
    }
  }

  lemma ExpChars(s: string, k: nat)
    requires k <= |s|
    ensures forall i | k <= i < k + ExpLength(s[k..]) :: IsNumberChar(s[i])
  {
    if k < |s| {
      assert s[k..][1..] == s[k + 1..];
      var sign := SignLength(s[k + 1..]);
      assert s[k..][1 + sign..] == s[k + 1 + sign..];
      DigitsFrom(s, k + 1 + sign);
    }
  }

  lemma NumberChars(s: string)
    ensures forall i | 0 <= i < NumberLength(s) :: IsNumberChar(s[i])
  {
    var whole := WholeLength(s);
    WholeChars(s);
    FracChars(s, whole);
    ExpChars(s, whole + FracLength(s[whole..]));
  }

  lemma MinifyLeaf(cast: string -> Option<string>, data: string)
    requires PrintsFloats(cast)
    ensures MinifiesTo(LeafText(cast, data), LeafText(cast, data))
  {
    match cast(Escape(data))
    case None => MinifyString(data);
    case Some(token) =>
      if token !in NON_FINITE {
        NumberChars(token);
      }
      MinifyPlain(token);
  }

  // ----- Nodes

  /** The label before a member: only the blank after the colon goes. */
  lemma MinifyLabel(key: string, isArray: bool, pretty: bool)
    ensures MinifiesTo(Label(key, isArray, pretty), Label(key, isArray, false))
  {
    if isArray {
      assert MinifiesTo("", "");
    } else {
      var blank := if pretty then " " else "";
      var quoted := "\"" + Escape(key) + "\"";
      MinifyString(key);
      MinifyPlain(":");
      MinifyAppend(quoted, quoted, ":", ":");
      MinifyWhitespace(blank);
      MinifyAppend(quoted + ":", quoted + ":", blank, "");
      assert "\"" + Escape(key) + "\":" == quoted + ":";
      assert (quoted + ":") + "" == quoted + ":";
    }
  }

  /** Erasing insignificant whitespace from either layout leaves the compact layout. */
  lemma {:induction false} SameTokens(cast: string -> Option<string>, t: Tree, indent: nat, pretty: bool)
    requires PrintsFloats(cast)
    ensures MinifiesTo(Print(cast, t, indent, pretty), Print(cast, t, indent, false))
    decreases t
  {
    if IsLeaf(t, indent) {
      MinifyLeaf(cast, t.data);
    } else {
      var k := IsArray(t, indent);
      var body, body' := PrintChildren(cast, t.children, k, indent, pretty), PrintChildren(cast, t.children, k, indent, false);
      SameTokensChildren(cast, t.children, k, indent, pretty);
      MinifyPad(indent, pretty);
      MinifyPlain(Open(k));
      MinifyPlain(Close(k));
      MinifyAppend(Open(k), Open(k), NewLine(pretty), NewLine(false));
      MinifyAppend(Open(k) + NewLine(pretty), Open(k) + NewLine(false), body, body');
      MinifyAppend(Open(k) + NewLine(pretty) + body, Open(k) + NewLine(false) + body', Pad(indent, pretty), Pad(indent, false));
      MinifyAppend(Open(k) + NewLine(pretty) + body + Pad(indent, pretty),
                   Open(k) + NewLine(false) + body' + Pad(indent, false), Close(k), Close(k));
    }
  }

  lemma {:induction false} SameTokensChildren(cast: string -> Option<string>, children: seq<Child>, isArray: bool,
                                              indent: nat, pretty: bool)
    requires PrintsFloats(cast)
    ensures MinifiesTo(PrintChildren(cast, children, isArray, indent, pretty),
                       PrintChildren(cast, children, isArray, indent, false))
    decreases children
  {
    if children != [] {
      var first, last := children[0], |children| == 1;
      assert first in children;
      SameTokens(cast, first.tree, indent + 1, pretty);
      SameTokensChild(cast, first, last, isArray, indent, pretty);
      SameTokensChildren(cast, children[1..], isArray, indent, pretty);
      MinifyAppend(PrintChild(cast, first, last, isArray, indent, pretty), PrintChild(cast, first, last, isArray, indent, false),
                   PrintChildren(cast, children[1..], isArray, indent, pretty),
                   PrintChildren(cast, children[1..], isArray, indent, false));
    }
  }

  lemma SameTokensChild(cast: string -> Option<string>, child: Child, last: bool, isArray: bool, indent: nat, pretty: bool)
    requires MinifiesTo(Print(cast, child.tree, indent + 1, pretty), Print(cast, child.tree, indent + 1, false))
    ensures MinifiesTo(PrintChild(cast, child, last, isArray, indent, pretty),
                       PrintChild(cast, child, last, isArray, indent, false))
  {
    var a, a' := Pad(indent + 1, pretty), Pad(indent + 1, false);
    var b, b' := Label(child.key, isArray, pretty), Label(child.key, isArray, false);
    var c, c' := Print(cast, child.tree, indent + 1, pretty), Print(cast, child.tree, indent + 1, false);
    var d := if last then "" else ",";
    MinifyPad(indent + 1, pretty);
    MinifyLabel(child.key, isArray, pretty);
    MinifyPlain(d);
    MinifyAppend(a, a', b, b');
    MinifyAppend(a + b, a' + b', c, c');
    MinifyAppend(a + b + c, a' + b' + c', d, d);
    MinifyAppend(a + b + c + d, a' + b' + c' + d, NewLine(pretty), NewLine(false));
  }
}
