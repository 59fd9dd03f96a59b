/** The sample buffer: a vector of bytes that grows at its end. */
module AccessUnit {
  import opened Basics

  class AccessUnit {
    var sodb: seq<byte>

    constructor ()
      ensures sodb == []
    {
      sodb := [];
    }

    /** Copies the bytes to the end of the buffer, one by one. */
    method Insert(bytes: seq<byte>)
      modifies this
      ensures sodb == old(sodb) + bytes
    {
      var i := 0;
      while i < |bytes|
        invariant 0 <= i <= |bytes|
        invariant sodb == old(sodb) + bytes[..i]
      {
        sodb := sodb + [bytes[i]];
        assert bytes[..i + 1] == bytes[..i] + [bytes[i]];
        i := i + 1;
      }
      assert bytes[..i] == bytes;
    }

    method Clear()
      modifies this
      ensures sodb == []
    {
      sodb := [];
    }

    method Length() returns (n: nat)
      ensures n == |sodb|
    {
      n := |sodb|;
    }
  }
}
