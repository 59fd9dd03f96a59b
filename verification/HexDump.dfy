/** The hexadecimal text of elements the decoder does not know. */
module HexDump {
  import opened Basics

  const DIGITS := "0123456789abcdef"

  /** `"0x" << setw(2) << setfill('0') << hex << b << " "`. */
  function Group(b: byte): string {
    "0x" + [DIGITS[b / 16], DIGITS[b % 16]] + " "
  }

  function Dump(bytes: seq<byte>): string {
    if bytes == [] then "" else Group(bytes[0]) + Dump(bytes[1..])
  }

  /** The loop of `Visit(KLVUnknown)` and `Visit(KLVParseError)`. */
  method DumpValue(val: seq<byte>) returns (strval: string)
    ensures strval == Dump(val)
  {
    strval := "";
    var i := 0;
    while i < |val|
      invariant 0 <= i <= |val|
      invariant strval + Dump(val[i..]) == Dump(val)
    {
      assert val[i..][1..] == val[i + 1..];
      Assoc3(strval, Group(val[i]), Dump(val[i + 1..]));
      strval := strval + Group(val[i]);
      i := i + 1;
    }
    assert strval + "" == strval;
  }

  function DigitValue(c: char): (d: int)
    ensures -1 <= d < 16
  {
    if '0' <= c <= '9' then c as int - '0' as int
    else if 'a' <= c <= 'f' then c as int - 'a' as int + 10
    else -1
  }

  /** The byte of a group "0xNN " in front, or -1. */
  function ReadGroup(s: string): (b: int)
    ensures -1 <= b < 256
    ensures b >= 0 ==> |s| >= 5
  {
    if |s| < 5 || s[0] != '0' || s[1] != 'x' || s[4] != ' '
       || DigitValue(s[2]) < 0 || DigitValue(s[3]) < 0 then -1
    else 16 * DigitValue(s[2]) + DigitValue(s[3])
  }

  /** Read groups back into bytes. */
  function Undump(s: string): Option<seq<byte>> {
    if s == "" then Some([])
    else if ReadGroup(s) < 0 then None
    else match Undump(s[5..])
      case None => None
      case Some(more) => Some([ReadGroup(s)] + more)
  }

  lemma DigitIs(d: int)
    requires 0 <= d < 16
    ensures DigitValue(DIGITS[d]) == d
  {
  }

  lemma DigitOf(c: char)
    requires DigitValue(c) >= 0
    ensures DIGITS[DigitValue(c)] == c
  {
  }

  lemma SixteenDigits(hi: int, lo: int)
    requires 0 <= hi < 16 && 0 <= lo < 16
    ensures (16 * hi + lo) / 16 == hi && (16 * hi + lo) % 16 == lo
  {
  }

  lemma ReadsGroup(b: byte, rest: string)
    ensures ReadGroup(Group(b) + rest) == b
    ensures (Group(b) + rest)[5..] == rest
  {
    DigitIs(b / 16);
    DigitIs(b % 16);
  }

  lemma GroupRead(s: string)
    requires ReadGroup(s) >= 0
    ensures Group(ReadGroup(s)) == s[..5]
  {
    SixteenDigits(DigitValue(s[2]), DigitValue(s[3]));
    DigitOf(s[2]);
    DigitOf(s[3]);
  }

  /** Every byte sequence can be read back from its dump, which takes five characters a byte. */
  lemma {:induction false} DumpRoundTrip(bytes: seq<byte>)
    ensures Undump(Dump(bytes)) == Some(bytes)
    ensures |Dump(bytes)| == 5 * |bytes|
  {
    if bytes != [] {
      ReadsGroup(bytes[0], Dump(bytes[1..]));
      DumpRoundTrip(bytes[1..]);
      assert bytes == [bytes[0]] + bytes[1..];
    }
  }

  lemma DumpStep(s: string, b: byte, more: seq<byte>)
    requires |s| >= 5 && s[..5] == Group(b) && s[5..] == Dump(more)
    ensures Dump([b] + more) == s
  {
    assert ([b] + more)[1..] == more;
    assert s == s[..5] + s[5..];
  }

  /** Whatever reads back as bytes is the dump of those bytes, and of no others. */
  lemma {:induction false} UndumpRoundTrip(s: string)
    requires Undump(s).Some?
    ensures Dump(Undump(s).value) == s
    decreases |s|
  {
    if s != "" {
      GroupRead(s);
      UndumpRoundTrip(s[5..]);
      DumpStep(s, ReadGroup(s), Undump(s[5..]).value);
    }
  }
}
