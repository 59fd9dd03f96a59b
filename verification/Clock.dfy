/** The two clocks of Clock.cpp, and the exact error of the PCR arithmetic against sections 2.4.3.4
    and 2.4.3.5 of ISO/IEC 13818-1. */
module Clock {
  import opened Basics
  import opened Bits

  /** The six bytes of the program_clock_reference fields of an adaptation field. */
  type Pcr = s: seq<byte> | |s| == 6 witness [0, 0, 0, 0, 0, 0]

  // ----- What the code computes

  /** `PCRClock::baseTime`. */
  function BaseTimeOf(p: Pcr): nat {
    BitOr(BitOr(BitOr(ShiftLeft(p[0], 33 - 8), ShiftLeft(p[1], 33 - 16)), ShiftLeft(p[2], 33 - 24)),
          ShiftLeft(p[3], 33 - 32))
  }

  /** `PCRClock::extTime`: the shift binds before the mask. */
  function ExtTimeOf(p: Pcr): nat {
    BitOr(BitAnd(p[4], ShiftLeft(0x01, 9)), p[5])
  }

  /** `PCRClock::time`. */
  function TimeOf(p: Pcr): nat {
    BaseTimeOf(p) * 300 + ExtTimeOf(p)
  }

  // ----- What the standard defines

  /** program_clock_reference_base, 33 bits. */
  function StandardBase(p: Pcr): (b: nat)
    ensures b < 0x2_0000_0000
  {
    p[0] as int * 0x200_0000 + p[1] as int * 0x2_0000 + p[2] as int * 0x200 + p[3] as int * 2 + p[4] as int / 0x80
  }

  /** program_clock_reference_extension, 9 bits, after 6 reserved bits. */
  function StandardExt(p: Pcr): (e: nat)
    ensures e < 0x200
  {
    p[4] as int % 2 * 0x100 + p[5]
  }

  /** PCR(i) = PCR_base(i) * 300 + PCR_ext(i). */
  function StandardPcr(p: Pcr): nat {
    StandardBase(p) * 300 + StandardExt(p)
  }

  /** The fields as a multiplexer writes them, with the reserved bits set. */
  function EncodePcr(base: nat, ext: nat): Pcr
    requires base < 0x2_0000_0000 && ext < 0x200
  {
    [base / 0x200_0000, base / 0x2_0000 % 0x100, base / 0x200 % 0x100, base / 2 % 0x100,
     base % 2 * 0x80 + 0x7E + ext / 0x100, ext % 0x100]
  }

  lemma EncodeDecode(base: nat, ext: nat)
    requires base < 0x2_0000_0000 && ext < 0x200
    ensures StandardBase(EncodePcr(base, ext)) == base
    ensures StandardExt(EncodePcr(base, ext)) == ext
  {
    var b3 := base / 2;
    var b2 := b3 / 0x100;
    var b1 := b2 / 0x100;
    assert base / 0x200 == b2;
    assert base / 0x2_0000 == b1;
    assert base / 0x200_0000 == b1 / 0x100;
    var low := base % 2 * 0x80 + 0x7E + ext / 0x100;
    assert low / 0x80 == base % 2 && low % 2 == ext / 0x100;
  }

  // ----- The error

  lemma Powers()
    ensures Pow2(1) == 2 && Pow2(8) == 0x100 && Pow2(9) == 0x200
    ensures Pow2(17) == 0x2_0000 && Pow2(25) == 0x200_0000
  {
    assert Pow2(1) == 2;
    PowEight(1);
    PowEight(9);
    PowEight(17);
    PowEight(0);
  }

  /** Or-ing the next byte, shifted less by 8, to the bytes before it. */
  lemma NextByte(high: nat, b: byte, shift: nat)
    ensures BitOr(high * Pow2(shift + 8), ShiftLeft(b, shift)) == (high * 0x100 + b) * Pow2(shift)
  {
    PowEight(shift);
    assert high * Pow2(shift + 8) == high * 0x100 * Pow2(shift);
    assert b as int * Pow2(shift) <= 255 * Pow2(shift);
    OrDisjoint(high, shift + 8, b * Pow2(shift));
  }

  lemma PowEight(shift: nat)
    ensures Pow2(shift + 8) == 0x100 * Pow2(shift)
  {
    PowFour(shift);
    PowFour(shift + 4);
  }

  lemma PowFour(shift: nat)
    ensures Pow2(shift + 4) == 0x10 * Pow2(shift)
  {
    assert Pow2(shift + 1) == 2 * Pow2(shift);
    assert Pow2(shift + 2) == 2 * Pow2(shift + 1);
    assert Pow2(shift + 3) == 2 * Pow2(shift + 2);
    assert Pow2(shift + 4) == 2 * Pow2(shift + 3);
  }

  /** The shifted bytes do not overlap. */
  lemma BaseTimeIsSum(p: Pcr)
    ensures BaseTimeOf(p)
         == p[0] as int * 0x200_0000 + p[1] as int * 0x2_0000 + p[2] as int * 0x200 + p[3] as int * 2
  {
    Powers();
    var a: nat := p[0];
    var b: nat := a * 0x100 + p[1];
    var c: nat := b * 0x100 + p[2];
    NextByte(a, p[1], 17);
    NextByte(b, p[2], 9);
    NextByte(c, p[3], 1);
  }

  lemma ExtTimeIsLowByte(p: Pcr)
    ensures ExtTimeOf(p) == p[5]
  {
    assert Pow2(8) == 0x100 && Pow2(9) == 0x200;
    AndDisjoint(0x01, 9, p[4]);
    assert BitAnd(p[4], ShiftLeft(0x01, 9)) == 0;
    OrDisjoint(0, 8, p[5]);
  }

  lemma LowBit(high: nat, bit: nat)
    requires bit < 2
    ensures (high * 2 + bit) % 2 == bit && (high * 2 + bit) / 2 == high
  {
  }

  lemma LowByte(high: nat, low: nat)
    requires low < 0x100
    ensures (high * 0x100 + low) % 0x100 == low && (high * 0x100 + low) / 0x100 == high
  {
  }

  lemma HalfOfBase(p: Pcr)
    ensures BaseTimeOf(p) == StandardBase(p) - p[4] as int / 0x80
    ensures StandardBase(p) % 2 == p[4] as int / 0x80
  {
    BaseTimeIsSum(p);
    var half: nat := p[0] as int * 0x100_0000 + p[1] as int * 0x1_0000 + p[2] as int * 0x100 + p[3] as int;
    var bit: nat := p[4] as int / 0x80;
    LowBit(half, bit);
    assert StandardBase(p) == half * 2 + bit;
  }

  /** What is lost of 300 * base + ext when the base is rounded down to even and the extension is cut. */
  lemma PcrError(base: nat, ext: nat)
    requires ext < 0x200
    ensures var error := (base * 300 + ext) - ((base - base % 2) * 300 + ext % 0x100);
            error == 300 * (base % 2) + 0x100 * (ext / 0x100) && error in {0, 256, 300, 556}
  {
    assert ext / 0x100 == 0 || ext / 0x100 == 1;
    assert base % 2 == 0 || base % 2 == 1;
  }

  /** The base read is the standard's, rounded down to even; the extension is the standard's modulo
      256; and the whole PCR falls short by one of four amounts. */
  lemma ExactError(p: Pcr)
    ensures BaseTimeOf(p) == StandardBase(p) - StandardBase(p) % 2
    ensures BaseTimeOf(p) < 0x2_0000_0000
    ensures ExtTimeOf(p) == StandardExt(p) % 0x100
    ensures StandardPcr(p) - TimeOf(p) == 300 * (StandardBase(p) % 2) + 0x100 * (StandardExt(p) / 0x100)
    ensures StandardPcr(p) - TimeOf(p) in {0, 256, 300, 556}
  {
    HalfOfBase(p);
    ExtTimeIsLowByte(p);
    LowByte(p[4] as int % 2, p[5]);
    PcrError(StandardBase(p), StandardExt(p));
  }

  /** For every base and extension a multiplexer can send, what the code makes of them. */
  lemma ReadEncoded(base: nat, ext: nat)
    requires base < 0x2_0000_0000 && ext < 0x200
    ensures BaseTimeOf(EncodePcr(base, ext)) == base - base % 2
    ensures TimeOf(EncodePcr(base, ext)) == base * 300 + ext <==> base % 2 == 0 && ext < 0x100
  {
    EncodeDecode(base, ext);
    ExactError(EncodePcr(base, ext));
  }

  lemma RoundedDown(m: nat, n: nat)
    requires m <= n
    ensures m - m % 2 <= n - n % 2
    ensures -1 <= ((n - n % 2) - (m - m % 2)) - (n - m) <= 1
  {
  }

  /** The reading keeps the order of the true bases, and stays within one tick of their distance. */
  lemma BaseTimeMonotone(p: Pcr, q: Pcr)
    requires StandardBase(p) <= StandardBase(q)
    ensures BaseTimeOf(p) <= BaseTimeOf(q)
    ensures -1 <= (BaseTimeOf(q) - BaseTimeOf(p)) - (StandardBase(q) - StandardBase(p)) <= 1
  {
    ExactError(p);
    ExactError(q);
    RoundedDown(StandardBase(p), StandardBase(q));
  }

  // ----- The objects

  class PCRClock {
    const time_: array<byte>

    ghost predicate Valid()
      reads this
    {
      time_.Length == 6
    }

    ghost function Fields(): Pcr
      requires Valid()
      reads this, time_
    {
      time_[..]
    }

    constructor ()
      ensures Valid() && fresh(time_)
      ensures Fields() == [0, 0, 0, 0, 0, 0]
    {
      time_ := new byte[6](_ => 0);
      new;
      assert time_[..] == [0, 0, 0, 0, 0, 0];
    }

    /** `memcpy(time_, time, 6)`. */
    method SetTime(time: seq<byte>)
      requires Valid() && |time| >= 6
      modifies time_
      ensures Fields() == time[..6]
    {
      for i := 0 to 6
        invariant time_[..i] == time[..i]
      {
        time_[i] := time[i];
      }
      assert time_[..] == time_[..6];
    }

    method BaseTime() returns (pcrBase: uint64)
      requires Valid()
      ensures pcrBase == BaseTimeOf(Fields())
      ensures pcrBase == StandardBase(Fields()) - StandardBase(Fields()) % 2
    {
      ExactError(Fields());
      pcrBase := BitOr(BitOr(BitOr(ShiftLeft(time_[0], 33 - 8), ShiftLeft(time_[1], 33 - 16)),
                             ShiftLeft(time_[2], 33 - 24)),
                       ShiftLeft(time_[3], 33 - 32));
    }

    method ExtTime() returns (pcrExt: nat)
      requires Valid()
      ensures pcrExt == StandardExt(Fields()) % 0x100
    {
      ExactError(Fields());
      pcrExt := BitAnd(time_[4], ShiftLeft(0x01, 9));
      pcrExt := BitOr(pcrExt, time_[5]);
    }

    method Time() returns (pcr: uint64)
      requires Valid()
      ensures pcr == StandardPcr(Fields()) - 300 * (StandardBase(Fields()) % 2) - 0x100 * (StandardExt(Fields()) / 0x100)
    {
      ExactError(Fields());
      var pcrBase := BaseTime();
      var pcrExt := ExtTime();
      pcr := pcrBase * 300 + pcrExt;
    }
  }

  class SystemClock {
    var time_: uint64

    constructor ()
      ensures time_ == 0
    {
      time_ := 0;
    }

    method SetTime(time: uint64)
      modifies this
      ensures time_ == time
    {
      time_ := time;
    }

    method Time() returns (t: uint64)
      ensures t == time_
    {
      t := time_;
    }
  }
}
