/** Bytes and the big-endian numbers of the wire formats. */
module Bytes {

  newtype byte = x: int | 0 <= x < 256

  /** binary.BigEndian.AppendUint16(nil, uint16(n)): the conversion keeps the low sixteen bits. */
  function PutU16(n: nat): (r: seq<byte>)
    ensures |r| == 2
  {
    [(n / 256 % 256) as byte, (n % 256) as byte]
  }

  /** binary.BigEndian.Uint16(s[at:at+2]). */
  function U16At(s: seq<byte>, at: nat): (r: nat)
    requires at + 2 <= |s|
    ensures r < 0x10000
  {
    s[at] as nat * 256 + s[at + 1] as nat
  }

  lemma U16RoundTrip(n: nat, s: seq<byte>, at: nat)
    requires at + 2 <= |s| && s[at..at + 2] == PutU16(n)
    ensures U16At(s, at) == n % 0x10000
    ensures n < 0x10000 ==> U16At(s, at) == n
  {
    assert s[at] == PutU16(n)[0] && s[at + 1] == PutU16(n)[1];
    assert n == n / 256 * 256 + n % 256;
    assert n / 256 == n / 0x10000 * 256 + n / 256 % 256;
  }

  /** The piece in the middle is where it was put. */
  lemma Middle<T>(pre: seq<T>, mid: seq<T>, post: seq<T>)
    ensures (pre + mid + post)[|pre|..|pre| + |mid|] == mid
  {
  }
}
