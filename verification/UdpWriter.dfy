/** Sending a text as a series of datagrams. */
module UdpWriter {
  import opened Basics

  const BUFLEN: nat := 1000

  /** The datagrams of a text: full ones, and a last one with what is left. */
  function Chunks(data: string): seq<string>
    decreases |data|
  {
    if data == "" then []
    else if |data| <= BUFLEN then [data]
    else [data[..BUFLEN]] + Chunks(data[BUFLEN..])
  }

  // ----- The counter

  predicate FitsInt(x: int) {
    -0x8000_0000 <= x < 0x8000_0000
  }

  /** A length converted to `int`: modulo 2^32, into the range of `int`. */
  function ToInt(length: nat): (x: int)
    ensures FitsInt(x)
  {
    var low := length % 0x1_0000_0000;
    if low < 0x8000_0000 then low else low - 0x1_0000_0000
  }

  /** The loop's counter after `k` datagrams. */
  function Left(length: nat, k: nat): int {
    ToInt(length) - BUFLEN * k
  }

  /** The counter never overflows if and only if the length itself fits an `int`: only then does the
      sending of the text have a defined meaning. */
  lemma CounterFits(length: nat)
    ensures (forall k: nat :: k <= (length + 999) / 1000 ==> FitsInt(Left(length, k))) <==> FitsInt(length)
  {
    var n := (length + 999) / 1000;
    assert length <= 1000 * n < length + 1000;
    if length >= 0x8000_0000 {
      assert ToInt(length) < length - 0x1_0000_0000 + 0x8000_0000;
      assert !FitsInt(Left(length, n));
    }
  }

  class UdpImpl {
    var open: bool              // the socket is valid
    var datagrams: seq<string>  // what has been handed to sendto

    constructor (open: bool)
      ensures this.open == open && datagrams == []
    {
      this.open, datagrams := open, [];
    }

    /** `UdpImpl::send`; the length must fit the `int` the loop counts down in. */
    method Send(data: string)
      requires FitsInt(|data|)
      modifies this`datagrams
      ensures datagrams == old(datagrams) + if open then Chunks(data) else []
    {
      if !open {
        return;
      }
      var bufsiz: int := BUFLEN;
      var nLeft: int := |data|;
      var i := 0;
      while i < |data|
        invariant nLeft == |data| - i
        invariant i < |data| ==> bufsiz == BUFLEN
        invariant datagrams + Chunks(data[if i < |data| then i else |data|..]) == old(datagrams) + Chunks(data)
      {
        if nLeft < bufsiz {
          bufsiz := nLeft;
        }
        ghost var left := data[i..];
        ghost var before := datagrams;
        datagrams := datagrams + [data[i..i + bufsiz]];
        i := i + BUFLEN;
        nLeft := nLeft - BUFLEN;
        ghost var rest := data[if i < |data| then i else |data|..];
        assert Chunks(left) == [left[..bufsiz]] + Chunks(rest) by {
          if i < |data| {
            assert rest == left[BUFLEN..];
          } else {
            assert rest == "" && left[..bufsiz] == left;
          }
        }
        assert data[i - BUFLEN..i - BUFLEN + bufsiz] == left[..bufsiz];
        Assoc3(before, [left[..bufsiz]], Chunks(rest));
      }
    }
  }

  /** The datagrams join to the text; they are as few as they can be, all full but the last, which is
      not empty. */
  lemma {:induction false} ChunksConserve(data: string)
    ensures Concat(Chunks(data)) == data
    ensures |Chunks(data)| == (|data| + 999) / 1000
    ensures forall k :: 0 <= k < |Chunks(data)| ==>
              if k < |Chunks(data)| - 1 then |Chunks(data)[k]| == 1000 else 1 <= |Chunks(data)[k]| <= 1000
    decreases |data|
  {
    if data == "" {
    } else if |data| <= BUFLEN {
      assert [data][1..] == [] && data + "" == data;
    } else {
      var head, more := data[..BUFLEN], data[BUFLEN..];
      ChunksConserve(more);
      assert Chunks(data)[1..] == Chunks(more);
      assert data == head + more;
      forall k | 0 <= k < |Chunks(data)|
        ensures if k < |Chunks(data)| - 1 then |Chunks(data)[k]| == 1000 else 1 <= |Chunks(data)[k]| <= 1000
      {
        if k > 0 { assert Chunks(data)[k] == Chunks(more)[k - 1]; }
      }
    }
  }
}
