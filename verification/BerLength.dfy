/** The BER length encoder, and the security set rebuilt around a value with it. */
module BerLength {
  import opened Basics

  /** The octets `encodeBERLength` writes; none when the length does not fit two octets. */
  function EncodeLength(len: nat): seq<byte> {
    if len <= 127 then [len]
    else if len < 256 then [0x81, len]
    else if len < 65536 then [0x82, len / 256, len % 256]
    else []
  }

  method EncodeBERLength(buffer: array<byte>, at: nat, len: nat) returns (written: nat)
    requires at + |EncodeLength(len)| <= buffer.Length
    modifies buffer
    ensures written == |EncodeLength(len)|
    ensures buffer[..] == old(buffer[..at]) + EncodeLength(len) + old(buffer[at + written..])
  {
    ghost var before := buffer[..];
    written := 0;
    if len <= 127 {
      written := 1;
      buffer[at] := len;
    } else if len > 127 && len < 256 {
      written := 2;
      buffer[at] := 0x81;
      buffer[at + 1] := len;
    } else if len >= 256 && len < 65536 {
      written := 3;
      buffer[at] := 0x82;
      buffer[at + 1] := len / 256;
      buffer[at + 2] := len % 256;
    }
    assert buffer[..] == before[..at] + EncodeLength(len) + before[at + written..];
  }

  // ----- Reading lengths, from section 8.1.3 of ITU-T X.690

  function BigEndian(octets: seq<byte>): nat {
    if octets == [] then 0
    else BigEndian(octets[..|octets| - 1]) * 256 + octets[|octets| - 1]
  }

  /** A length in definite form, and the number of octets it took. The indefinite form and the reserved
      first octet 0xFF are not accepted. */
  function DecodeLength(octets: seq<byte>): Option<(nat, nat)> {
    if octets == [] then None
    else if octets[0] < 0x80 then Some((octets[0], 1))
    else if octets[0] == 0x80 || octets[0] == 0xFF then None
    else
      var more := octets[0] - 0x80;
      if |octets| < 1 + more then None else Some((BigEndian(octets[1..1 + more]), 1 + more))
  }

  /** A reader recovers the length and consumes exactly the octets written, whatever follows. */
  lemma LengthRoundTrip(len: nat, rest: seq<byte>)
    requires len < 65536
    ensures DecodeLength(EncodeLength(len) + rest) == Some((len, |EncodeLength(len)|))
  {
    var octets := EncodeLength(len) + rest;
    if 127 < len < 256 {
      assert octets[1..2] == [len];
      assert BigEndian([len]) == BigEndian([]) * 256 + len by { assert [len][..0] == []; }
    } else if 256 <= len {
      var hi, lo := len / 256, len % 256;
      assert octets[1..3] == [hi, lo];
      assert [hi, lo][..1] == [hi] && [hi][..0] == [];
      assert BigEndian([hi]) == hi;
      assert BigEndian([hi, lo]) == hi * 256 + lo;
    }
  }

  /** No shorter definite form denotes the same length. */
  lemma LengthMinimal(octets: seq<byte>, len: nat, consumed: nat)
    requires DecodeLength(octets) == Some((len, consumed)) && len < 65536
    ensures |EncodeLength(len)| <= consumed
  {
    if consumed == 2 {
      assert octets[1..2][..0] == [];
      assert BigEndian(octets[1..2]) == octets[1];
    }
  }

  /** No encoded length is the beginning of another. */
  lemma LengthPrefixFree(len: nat, other: nat)
    requires len < 65536 && other < 65536 && EncodeLength(len) <= EncodeLength(other)
    ensures len == other
  {
    var rest := EncodeLength(other)[|EncodeLength(len)|..];
    assert EncodeLength(len) + rest == EncodeLength(other) == EncodeLength(other) + [];
    LengthRoundTrip(len, rest);
    LengthRoundTrip(other, []);
  }

  // ----- The rebuilt security set

  const SECURITY_SET_KEY: byte := 0x30
  const BUFFER_SIZE: nat := 0x0FFF

  function Frame(value: seq<byte>): seq<byte> {
    [SECURITY_SET_KEY] + EncodeLength(|value|) + value
  }

  /** Key 0x30, length and value, and the octets they took. */
  function DecodeFrame(octets: seq<byte>): Option<(seq<byte>, nat)> {
    if octets == [] || octets[0] != 0x30 then None
    else match DecodeLength(octets[1..])
      case None => None
      case Some((len, consumed)) =>
        if |octets| < 1 + consumed + len then None
        else Some((octets[1 + consumed..1 + consumed + len], 1 + consumed + len))
  }

  /** The rebuilt set reads back as the value, with exactly its own octets consumed, if and only if the
      value's length fits two octets. */
  lemma FrameRoundTrip(value: seq<byte>, rest: seq<byte>)
    ensures DecodeFrame(Frame(value) + rest) == Some((value, |Frame(value)|)) <==> |value| < 65536
  {
    var octets := Frame(value) + rest;
    var n := |EncodeLength(|value|)|;
    assert octets[0] == 0x30;
    assert octets[1..] == EncodeLength(|value|) + (value + rest);
    if |value| < 65536 {
      LengthRoundTrip(|value|, value + rest);
      assert octets[1 + n..1 + n + |value|] == value;
    }
  }

  /** The frame fits the buffers exactly for values of up to 4091 bytes. */
  lemma FrameFits(value: seq<byte>)
    ensures |Frame(value)| <= BUFFER_SIZE <==> |value| <= 4091
  {
  }

  /** `Visit(KLVSecurityLocalMetadataSet)`: the bytes handed to the security set parser. */
  method RebuildSecuritySet(klv: seq<byte>) returns (parsed: seq<byte>)
    requires |Frame(klv)| <= BUFFER_SIZE
    ensures parsed == Frame(klv)
    ensures DecodeFrame(parsed) == Some((klv, |parsed|))
  {
    var ss := new byte[BUFFER_SIZE](_ => 0);
    var value := new byte[BUFFER_SIZE](_ => 0);
    CopyInto(value, 0, klv);
    ss[0] := SECURITY_SET_KEY;
    assert ss[..1] == [SECURITY_SET_KEY];
    var encoded := EncodeBERLength(ss, 1, |klv|);
    encoded := encoded + 1;
    assert ss[..encoded] == [SECURITY_SET_KEY] + EncodeLength(|klv|);
    assert value[..|klv|] == klv;
    CopyInto(ss, encoded, value[..|klv|]);
    var len := |klv| + encoded;
    parsed := ss[..len];
    assert parsed == Frame(klv);
    FrameRoundTrip(klv, []);
    assert Frame(klv) + [] == Frame(klv);
  }

  /** `memcpy(to + at, bytes, len)`. */
  method CopyInto(to: array<byte>, at: nat, bytes: seq<byte>)
    requires at + |bytes| <= to.Length
    modifies to
    ensures to[..] == old(to[..at]) + bytes + old(to[at + |bytes|..])
  {
    ghost var before := to[..];
    var i := 0;
    while i < |bytes|
      invariant 0 <= i <= |bytes|
      invariant forall j :: 0 <= j < i ==> to[at + j] == bytes[j]
      invariant forall j :: 0 <= j < at || at + i <= j < to.Length ==> to[j] == before[j]
    {
      to[at + i] := bytes[i];
      i := i + 1;
    }
    assert to[..] == before[..at] + bytes + before[at + |bytes|..];
  }
}
