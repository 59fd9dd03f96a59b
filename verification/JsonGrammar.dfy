/** A reference reader for JSON text, written from sections 2 to 7 of RFC 8259 and independent of
    the writer. Escapes that denote a surrogate code unit are not accepted. */
module JsonGrammar {
  import opened Basics

  datatype Json =
    | JNull
    | JTrue
    | JFalse
    | JNumber(token: string)
    | JString(text: string)
    | JArray(items: seq<Json>)
    | JObject(members: seq<Member>)

  datatype Member = Member(name: string, value: Json)

  /** A value that was read, and the text that follows it. */
  datatype Read<+T> = Fail | Got(value: T, rest: string)

  // ----- Section 2: insignificant whitespace

  predicate IsWhitespace(c: char) {
    c == ' ' || c == '\t' || c == '\n' || c == '\r'
  }

  function SkipWs(s: string): (r: string)
    ensures |r| <= |s|
    ensures r == "" || !IsWhitespace(r[0])
  {
    if s != "" && IsWhitespace(s[0]) then SkipWs(s[1..]) else s
  }

  // ----- Section 6: numbers

  predicate IsDigit(c: char) {
    '0' <= c <= '9'
  }

  function DigitsLength(s: string): (n: nat)
    ensures n <= |s|
  {
    if s != "" && IsDigit(s[0]) then 1 + DigitsLength(s[1..]) else 0
  }

  /** int = zero / ( digit1-9 *DIGIT ); 0 when there is none. */
  function IntLength(s: string): (n: nat)
    ensures n <= |s|
  {
    if s != "" && s[0] == '0' then 1 else DigitsLength(s)
  }

  /** [ frac ], frac = decimal-point 1*DIGIT */
  function FracLength(s: string): (n: nat)
    ensures n <= |s|
  {
    if s != "" && s[0] == '.' && DigitsLength(s[1..]) > 0 then 1 + DigitsLength(s[1..]) else 0
  }

  function SignLength(s: string): (n: nat)
    ensures n <= |s|
  {
    if s != "" && (s[0] == '+' || s[0] == '-') then 1 else 0
  }

  /** [ exp ], exp = e [ minus / plus ] 1*DIGIT */
  function ExpLength(s: string): (n: nat)
    ensures n <= |s|
  {
    if s != "" && (s[0] == 'e' || s[0] == 'E') then
      var sign := SignLength(s[1..]);
      var digits := DigitsLength(s[1 + sign..]);
      if digits > 0 then 1 + sign + digits else 0
    else 0
  }

  /** [ minus ] int; 0 when there is none. */
  function WholeLength(s: string): (n: nat)
    ensures n <= |s|
  {
    var minus := if s != "" && s[0] == '-' then 1 else 0;
    var digits := IntLength(s[minus..]);
    if digits == 0 then 0 else minus + digits
  }

  /** The length of a number whose [ minus ] int has the given length. */
  function NumberFrom(s: string, whole: nat): (n: nat)
    requires whole <= |s|
    ensures whole <= n <= |s|
  {
    var withFrac := whole + FracLength(s[whole..]);
    withFrac + ExpLength(s[withFrac..])
  }

  /** The length of the longest number = [ minus ] int [ frac ] [ exp ] at the front; 0 when there is none. */
  function NumberLength(s: string): (n: nat)
    ensures n <= |s|
  {
    if WholeLength(s) == 0 then 0 else NumberFrom(s, WholeLength(s))
  }

  predicate IsNumber(s: string) {
    s != "" && NumberLength(s) == |s|
  }

  function ReadNumber(s: string): (r: Read<Json>)
    ensures r.Got? ==> |r.rest| < |s|
  {
    var n := NumberLength(s);
    if n > 0 then Got(JNumber(s[..n]), s[n..]) else Fail
  }

  // ----- Section 7: strings

  function HexValue(c: char): (v: int)
    ensures -1 <= v < 16
  {
    if '0' <= c <= '9' then c as int - '0' as int
    else if 'a' <= c <= 'f' then c as int - 'a' as int + 10
    else if 'A' <= c <= 'F' then c as int - 'A' as int + 10
    else -1
  }

  /** Four hexadecimal digits, or -1. */
  function Hex4(s: string): (v: int)
    requires |s| == 4
    ensures -1 <= v < 0x10000
  {
    if HexValue(s[0]) < 0 || HexValue(s[1]) < 0 || HexValue(s[2]) < 0 || HexValue(s[3]) < 0 then -1
    else 4096 * HexValue(s[0]) + 256 * HexValue(s[1]) + 16 * HexValue(s[2]) + HexValue(s[3])
  }

  /** One character of a string literal, escaped or not. */
  function ReadChar(s: string): (r: Read<char>)
    ensures r.Got? ==> |r.rest| < |s|
  {
    if s == "" || s[0] == '\"' || s[0] as int < 0x20 then Fail
    else if s[0] != '\\' then Got(s[0], s[1..])
    else if |s| < 2 then Fail
    else if s[1] == '\"' || s[1] == '\\' || s[1] == '/' then Got(s[1], s[2..])
    else if s[1] == 'b' then Got(8 as char, s[2..])
    else if s[1] == 'f' then Got(12 as char, s[2..])
    else if s[1] == 'n' then Got('\n', s[2..])
    else if s[1] == 'r' then Got('\r', s[2..])
    else if s[1] == 't' then Got('\t', s[2..])
    else if s[1] == 'u' && |s| >= 6 then
      var code := Hex4(s[2..6]);
      if code < 0 || 0xD800 <= code < 0xE000 then Fail else Got(code as char, s[6..])
    else Fail
  }

  /** The remainder of a string literal, after the opening quotation mark. */
  function ReadString(s: string): (r: Read<string>)
    ensures r.Got? ==> |r.rest| < |s|
    decreases |s|
  {
    if s != "" && s[0] == '\"' then Got("", s[1..])
    else
      match ReadChar(s)
      case Fail => Fail
      case Got(c, rest) =>
        match ReadString(rest)
        case Fail => Fail
        case Got(text, rest') => Got([c] + text, rest')
  }

  // ----- Sections 3 to 5: values, objects, arrays

  /** A literal name or a number. */
  function ReadScalar(s: string): (r: Read<Json>)
    ensures r.Got? ==> |r.rest| < |s|
  {
    if "null" <= s then Got(JNull, s[4..])
    else if "true" <= s then Got(JTrue, s[4..])
    else if "false" <= s then Got(JFalse, s[5..])
    else ReadNumber(s)
  }

  predicate StartsWith(s: string, c: char) {
    s != "" && s[0] == c
  }

  function ReadValue(s: string): (r: Read<Json>)
    ensures r.Got? ==> |r.rest| < |s|
    decreases |s|, 0
  {
    var t := SkipWs(s);
    if StartsWith(t, '\"') then
      match ReadString(t[1..])
      case Fail => Fail
      case Got(text, rest) => Got(JString(text), rest)
    else if StartsWith(t, '[') then
      var u := SkipWs(t[1..]);
      if StartsWith(u, ']') then Got(JArray([]), u[1..])
      else
        match ReadItems(t[1..])
        case Fail => Fail
        case Got(items, rest) => Got(JArray(items), rest)
    else if StartsWith(t, '{') then
      var u := SkipWs(t[1..]);
      if StartsWith(u, '}') then Got(JObject([]), u[1..])
      else
        match ReadMembers(t[1..])
        case Fail => Fail
        case Got(members, rest) => Got(JObject(members), rest)
    else ReadScalar(t)
  }

  /** value *( value-separator value ) end-array */
  function ReadItems(s: string): (r: Read<seq<Json>>)
    ensures r.Got? ==> |r.rest| < |s|
    decreases |s|, 1
  {
    match ReadValue(s)
    case Fail => Fail
    case Got(item, rest) =>
      var t := SkipWs(rest);
      if StartsWith(t, ']') then Got([item], t[1..])
      else if StartsWith(t, ',') then
        match ReadItems(t[1..])
        case Fail => Fail
        case Got(items, rest') => Got([item] + items, rest')
      else Fail
  }

  /** string name-separator value */
  function ReadMember(s: string): (r: Read<Member>)
    ensures r.Got? ==> |r.rest| < |s|
    decreases |s|, 1
  {
    var t := SkipWs(s);
    if !StartsWith(t, '\"') then Fail else
      match ReadString(t[1..])
      case Fail => Fail
      case Got(name, rest) =>
        var u := SkipWs(rest);
        if !StartsWith(u, ':') then Fail else
          match ReadValue(u[1..])
          case Fail => Fail
          case Got(value, rest') => Got(Member(name, value), rest')
  }

  /** member *( value-separator member ) end-object */
  function ReadMembers(s: string): (r: Read<seq<Member>>)
    ensures r.Got? ==> |r.rest| < |s|
    decreases |s|, 2
  {
    match ReadMember(s)
    case Fail => Fail
    case Got(member, rest) =>
      var t := SkipWs(rest);
      if StartsWith(t, '}') then Got([member], t[1..])
      else if StartsWith(t, ',') then
        match ReadMembers(t[1..])
        case Fail => Fail
        case Got(members, rest') => Got([member] + members, rest')
      else Fail
  }

  /** JSON-text = ws value ws */
  function Parse(s: string): Option<Json> {
    match ReadValue(s)
    case Fail => None
    case Got(value, rest) => if SkipWs(rest) == "" then Some(value) else None
  }

  // ----- Facts about the reader

  lemma {:induction false} SkipWsPrefix(w: string, s: string)
    requires forall c <- w :: IsWhitespace(c)
    ensures SkipWs(w + s) == SkipWs(s)
  {
    if w == "" {
      assert w + s == s;
    } else {
      assert (w + s)[1..] == w[1..] + s;
      SkipWsPrefix(w[1..], s);
    }
  }

  lemma SkipWsIdempotent(s: string)
    ensures SkipWs(SkipWs(s)) == SkipWs(s)
  {
  }

  /** Whitespace in front makes no difference to any reader. */
  lemma SkipAgrees(a: string, b: string)
    requires SkipWs(a) == SkipWs(b)
    ensures ReadValue(a) == ReadValue(b)
    ensures ReadMember(a) == ReadMember(b)
    ensures ReadItems(a) == ReadItems(b)
    ensures ReadMembers(a) == ReadMembers(b)
  {
  }

  predicate StartsNumber(c: char) {
    IsDigit(c) || c == '-'
  }

  /** A digit or a minus sign can only start a number. */
  lemma NumberOnly(s: string)
    requires s != "" && StartsNumber(s[0])
    ensures ReadScalar(s) == ReadNumber(s)
  {
    assert "null"[0] != s[0] && "true"[0] != s[0] && "false"[0] != s[0];
  }

  lemma ScalarOnly(s: string)
    requires s != "" && StartsNumber(s[0])
    ensures ReadValue(s) == ReadScalar(s)
  {
    assert SkipWs(s) == s;
  }

  lemma NumberBranch(s: string)
    requires NumberLength(s) > 0 && (IsDigit(s[0]) || s[0] == '-')
    ensures ReadValue(s) == Got(JNumber(s[..NumberLength(s)]), s[NumberLength(s)..])
  {
    ScalarOnly(s);
    NumberOnly(s);
  }

  lemma StringBranch(s: string, text: string, rest: string)
    requires StartsWith(s, '\"') && ReadString(s[1..]) == Got(text, rest)
    ensures ReadValue(s) == Got(JString(text), rest)
  {
    assert SkipWs(s) == s;
  }

  lemma OpenArray(inner: string)
    ensures ReadValue("[" + inner)
         == if StartsWith(SkipWs(inner), ']') then Got(JArray([]), SkipWs(inner)[1..])
            else match ReadItems(inner)
              case Fail => Fail
              case Got(items, rest) => Got(JArray(items), rest)
  {
    var s := "[" + inner;
    assert SkipWs(s) == s && s[1..] == inner;
  }

  lemma OpenObject(inner: string)
    ensures ReadValue("{" + inner)
         == if StartsWith(SkipWs(inner), '}') then Got(JObject([]), SkipWs(inner)[1..])
            else match ReadMembers(inner)
              case Fail => Fail
              case Got(members, rest) => Got(JObject(members), rest)
  {
    var s := "{" + inner;
    assert SkipWs(s) == s && s[1..] == inner;
  }

  lemma StringStep(s: string, c: char, after: string)
    requires !StartsWith(s, '\"') && ReadChar(s) == Got(c, after)
    ensures ReadString(s) == match ReadString(after)
                             case Fail => Fail
                             case Got(text, rest) => Got([c] + text, rest)
  {
  }

  // One step of each list reader, given what the value reader returned.

  lemma BadItem(s: string)
    requires ReadValue(s) == Fail
    ensures ReadItems(s) == Fail
  {
  }

  lemma BadMember(s: string)
    requires ReadMember(s) == Fail
    ensures ReadMembers(s) == Fail
  {
  }

  lemma LastItem(s: string, item: Json, after: string, rest: string)
    requires ReadValue(s) == Got(item, after) && SkipWs(after) == "]" + rest
    ensures ReadItems(s) == Got([item], rest)
  {
    assert ("]" + rest)[1..] == rest;
  }

  lemma MoreItems(s: string, item: Json, after: string, more: string)
    requires ReadValue(s) == Got(item, after) && SkipWs(after) == after && StartsWith(after, ',')
    requires SkipWs(after[1..]) == SkipWs(more)
    ensures ReadItems(s) == match ReadItems(more)
                            case Fail => Fail
                            case Got(items, rest) => Got([item] + items, rest)
  {
    SkipAgrees(after[1..], more);
  }

  lemma LastMember(s: string, member: Member, after: string, rest: string)
    requires ReadMember(s) == Got(member, after) && SkipWs(after) == "}" + rest
    ensures ReadMembers(s) == Got([member], rest)
  {
    assert ("}" + rest)[1..] == rest;
  }

  lemma MoreMembers(s: string, member: Member, after: string, more: string)
    requires ReadMember(s) == Got(member, after) && SkipWs(after) == after && StartsWith(after, ',')
    requires SkipWs(after[1..]) == SkipWs(more)
    ensures ReadMembers(s) == match ReadMembers(more)
                              case Fail => Fail
                              case Got(members, rest) => Got([member] + members, rest)
  {
    SkipAgrees(after[1..], more);
  }

  lemma NamedMember(s: string, name: string, after: string)
    requires StartsWith(s, '\"') && ReadString(s[1..]) == Got(name, after) && StartsWith(after, ':')
    ensures ReadMember(s) == match ReadValue(after[1..])
                             case Fail => Fail
                             case Got(value, rest) => Got(Member(name, value), rest)
  {
    assert SkipWs(s) == s && SkipWs(after) == after;
  }

  /** A character that can follow a number token without becoming part of it. */
  predicate EndsNumber(rest: string) {
    rest == "" || !(IsDigit(rest[0]) || rest[0] in {'.', 'e', 'E', '+', '-'})
  }

  lemma {:induction false} DigitsLocal(a: string, rest: string)
    requires EndsNumber(rest)
    ensures DigitsLength(a + rest) == DigitsLength(a)
  {
    if a == "" {
      assert a + rest == rest;
    } else {
      assert (a + rest)[1..] == a[1..] + rest;
      DigitsLocal(a[1..], rest);
    }
  }

  lemma FracLocal(a: string, rest: string)
    requires EndsNumber(rest)
    ensures FracLength(a + rest) == FracLength(a)
  {
    if a == "" {
      assert a + rest == rest;
    } else {
      assert (a + rest)[1..] == a[1..] + rest;
      DigitsLocal(a[1..], rest);
    }
  }

  lemma ExpLocal(a: string, rest: string)
    requires EndsNumber(rest)
    ensures ExpLength(a + rest) == ExpLength(a)
  {
    if a == "" {
      assert a + rest == rest;
    } else {
      assert (a + rest)[1..] == a[1..] + rest;
      var sign := SignLength(a[1..]);
      assert SignLength(a[1..] + rest) == sign by {
        if a[1..] == "" { assert a[1..] + rest == rest; }
      }
      assert (a + rest)[1 + sign..] == a[1 + sign..] + rest;
      DigitsLocal(a[1 + sign..], rest);
    }
  }

  lemma WholeLocal(a: string, rest: string)
    requires a != "" && EndsNumber(rest)
    ensures WholeLength(a + rest) == WholeLength(a)
  {
    var minus := if a[0] == '-' then 1 else 0;
    assert (a + rest)[minus..] == a[minus..] + rest;
    DigitsLocal(a[minus..], rest);
    if a[minus..] == "" {
      assert a[minus..] + rest == rest;
    }
  }

  /** Reading a number token stops exactly at its end. */
  lemma NumberLocal(a: string, rest: string)
    requires a != "" && EndsNumber(rest)
    ensures NumberLength(a + rest) == NumberLength(a)
  {
    WholeLocal(a, rest);
    NumberLocalFrom(a, WholeLength(a), rest);
  }

  lemma NumberLocalFrom(a: string, whole: nat, rest: string)
    requires whole <= |a| && EndsNumber(rest)
    ensures NumberFrom(a + rest, whole) == NumberFrom(a, whole)
  {
    FracLocalFrom(a, whole, rest);
    ExpLocalFrom(a, whole + FracLength(a[whole..]), rest);
  }

  lemma FracLocalFrom(a: string, k: nat, rest: string)
    requires k <= |a| && EndsNumber(rest)
    ensures FracLength((a + rest)[k..]) == FracLength(a[k..])
  {
    assert (a + rest)[k..] == a[k..] + rest;
    FracLocal(a[k..], rest);
  }

  lemma ExpLocalFrom(a: string, k: nat, rest: string)
    requires k <= |a| && EndsNumber(rest)
    ensures ExpLength((a + rest)[k..]) == ExpLength(a[k..])
  {
    assert (a + rest)[k..] == a[k..] + rest;
    ExpLocal(a[k..], rest);
  }
}
