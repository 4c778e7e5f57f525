/** Bytes and big-endian numbers. */
module Bytes {

  newtype byte = x: int | 0 <= x < 256

  /** The number a big-endian byte string spells. */
  function BigEndian(s: seq<byte>): (n: nat)
  {
    if s == [] then 0 else 256 * BigEndian(s[..|s| - 1]) + s[|s| - 1] as int
  }

  function Power256(k: nat): nat { if k == 0 then 1 else 256 * Power256(k - 1) }

  lemma {:induction false} BigEndianBound(s: seq<byte>)
    ensures BigEndian(s) < Power256(|s|)
  {
    if s != [] { BigEndianBound(s[..|s| - 1]); }
  }
}
