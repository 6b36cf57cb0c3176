/** Bytes as the original's `uint8_t`, and its unsigned lengths. */
module Bytes {

  type byte = bv8

  /** The same where the original computes with it as a number. */
  newtype uint8 = x: int | 0 <= x < 256

  lemma XorTwice(a: byte, b: byte)
    ensures (a ^ b) ^ b == a && a ^ 0 == a
  {
  }

  lemma ByteValue(n: nat)
    requires n < 256
    ensures (n as byte) as nat == n
  {
    if n < 16 { } else if n < 128 { } else { }
  }

  function Zeros(n: nat): (r: seq<byte>)
    ensures |r| == n && forall i :: 0 <= i < n ==> r[i] == 0
  { seq(n, i => 0) }

  /** `n - offset` on `uint32_t`. */
  function UnsignedLength(n: nat, offset: nat): nat { (n - offset) % 0x1_0000_0000 }

  /** A range that starts at `offset` and has that length ends within `n`. */
  predicate InBounds(n: nat, offset: nat) { offset + UnsignedLength(n, offset) <= n }

  /** The length wraps, to nearly 2^32, exactly when the range would start past
      the end. */
  lemma LengthWraps(n: nat, offset: nat)
    requires n < 0x1_0000_0000 && offset < 0x1_0000_0000
    ensures InBounds(n, offset) <==> offset <= n
    ensures offset <= n ==> UnsignedLength(n, offset) == n - offset
    ensures n < offset ==> UnsignedLength(n, offset) == 0x1_0000_0000 - (offset - n)
  {
  }
}
