/** Bytes, and small facts on sequences shared by the other modules. */
module Bytes {

  datatype Option<+T> = None | Some(value: T)

  type byte = b: int | 0 <= b < 256

  // The masks of the frame splitter on an unsigned char, as arithmetic on its value.

  /** b & 0xE0 */
  function TopThreeBits(b: byte): byte {
    b - b % 32
  }

  /** b & 0x1F */
  function LowFiveBits(b: byte): byte {
    b % 32
  }

  /** b & ~0x80 */
  function ClearBit7(b: byte): byte {
    b % 128
  }

  /** b | 0x80 */
  function SetBit7(b: byte): byte {
    if b >= 128 then b else b + 128
  }

  /** b | 0x40 */
  function SetBit6(b: byte): byte {
    if b % 128 >= 64 then b else b + 64
  }

  function Flatten<T>(ss: seq<seq<T>>): seq<T> {
    if ss == [] then [] else ss[0] + Flatten(ss[1..])
  }

  lemma {:induction false} FlattenAppend<T>(a: seq<seq<T>>, b: seq<seq<T>>)
    ensures Flatten(a + b) == Flatten(a) + Flatten(b)
  {
    if a == [] {
      assert a + b == b;
    } else {
      assert (a + b)[1..] == a[1..] + b;
      FlattenAppend(a[1..], b);
    }
  }

  lemma FlattenOne<T>(s: seq<T>)
    ensures Flatten([s]) == s
  {
    assert Flatten([s]) == s + Flatten([]);
  }

  lemma AppendAssociates<T>(a: seq<T>, b: seq<T>, c: seq<T>)
    ensures a + (b + c) == (a + b) + c
  {
  }

  lemma TakeNext<T>(s: seq<T>, n: nat)
    requires n < |s|
    ensures s[..n] + [s[n]] == s[..n + 1]
  {
  }
}
