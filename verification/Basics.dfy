/** Shared value types: bytes, 64-bit words, options and concatenation. */
module Basics {

  type byte = x: int | 0 <= x < 256

  const TWO_64: int := 0x1_0000_0000_0000_0000

  type uint64 = x: int | 0 <= x < 0x1_0000_0000_0000_0000

  datatype Option<+T> = None | Some(value: T)

  /** The concatenation of a sequence of sequences. */
  function Concat<T>(ss: seq<seq<T>>): seq<T> {
    if ss == [] then [] else ss[0] + Concat(ss[1..])
  }

  function Sum(ns: seq<nat>): nat {
    if ns == [] then 0 else ns[0] + Sum(ns[1..])
  }

  // Re-bracketing of concatenations; each step is one associativity fact.
  lemma Assoc3<T>(a: seq<T>, b: seq<T>, c: seq<T>)
    ensures (a + b) + c == a + (b + c)
  {
  }

  lemma Assoc4<T>(a: seq<T>, b: seq<T>, c: seq<T>, d: seq<T>)
    ensures a + b + c + d == a + (b + c + d)
    ensures a + b + c + d == a + (b + (c + d))
  {
    Assoc3(a, b, c);
    Assoc3(a, b + c, d);
    Assoc3(b, c, d);
  }

  lemma Assoc5<T>(a: seq<T>, b: seq<T>, c: seq<T>, d: seq<T>, e: seq<T>)
    ensures a + b + c + d + e == a + (b + c + d + e)
    ensures a + b + c + d + e == a + (b + (c + (d + e)))
  {
    Assoc4(a, b, c, d);
    Assoc3(a, b + c + d, e);
    Assoc4(b, c, d, e);
  }

  lemma Assoc6<T>(a: seq<T>, b: seq<T>, c: seq<T>, d: seq<T>, e: seq<T>, f: seq<T>)
    ensures a + b + c + d + e + f == a + (b + c + d + e + f)
    ensures a + b + c + d + e + f == a + (b + (c + (d + (e + f))))
  {
    Assoc5(a, b, c, d, e);
    Assoc3(a, b + c + d + e, f);
    Assoc5(b, c, d, e, f);
  }
}
