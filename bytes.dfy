/** Bytes and the big-endian unsigned 32-bit integer of struct format ">I". */
module Bytes {
  newtype byte = x: int | 0 <= x < 256

  const TWO_32: int := 0x1_0000_0000

  /** The value of four bytes read as a big-endian unsigned 32-bit integer. */
  function U32BE(b: seq<byte>): (n: nat)
    requires |b| == 4
    ensures n < TWO_32
  {
    ((b[0] as int * 256 + b[1] as int) * 256 + b[2] as int) * 256 + b[3] as int
  }

  /** The four big-endian bytes of an unsigned 32-bit integer. */
  function U32Bytes(n: nat): (b: seq<byte>)
    requires n < TWO_32
    ensures |b| == 4
  {
    [(n / 0x100_0000) as byte, (n / 0x1_0000 % 256) as byte, (n / 0x100 % 256) as byte, (n % 256) as byte]
  }

  /** Reading back the bytes of a 32-bit integer gives the integer. */
  lemma U32BytesRoundTrip(n: nat)
    requires n < TWO_32
    ensures U32BE(U32Bytes(n)) == n
  {
    var q1, r0 := n / 256, n % 256;
    var q2, r1 := q1 / 256, q1 % 256;
    var q3, r2 := q2 / 256, q2 % 256;
    assert n == q1 * 256 + r0;
    assert q1 == q2 * 256 + r1;
    assert q2 == q3 * 256 + r2;
    assert n / 0x100 % 256 == r1;
    assert n / 0x1_0000 == q2;
    assert n / 0x1_0000 % 256 == r2;
    assert n / 0x100_0000 == q3;
  }

  /** Every four bytes are the encoding of the integer they denote: the encoding is a bijection. */
  lemma U32BEBytes(b: seq<byte>)
    requires |b| == 4
    ensures U32Bytes(U32BE(b)) == b
  {
    var n := U32BE(b);
    var q2 := b[0] as int * 256 + b[1] as int;
    var q1 := q2 * 256 + b[2] as int;
    assert n == q1 * 256 + b[3] as int;
    assert n % 256 == b[3] as int && n / 256 == q1;
    assert q1 % 256 == b[2] as int && q1 / 256 == q2;
    assert q2 % 256 == b[1] as int && q2 / 256 == b[0] as int;
    assert n / 0x100 == q1;
    assert n / 0x1_0000 == q1 / 256;
    assert n / 0x100_0000 == q2 / 256;
  }
}
