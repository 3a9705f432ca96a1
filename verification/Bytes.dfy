/** Bytes, optional values, and the little-endian words that `memcpy` of a `size_t` writes. */
module Bytes {
  type byte = x: int | 0 <= x < 256

  datatype Option<+T> = None | Some(value: T)

  /** One more than the largest `size_t`. */
  const WORD_LIMIT: nat := 0x1_0000_0000_0000_0000
  const WORD_BYTES: nat := 8

  function Power256(n: nat): nat {
    if n == 0 then 1 else 256 * Power256(n - 1)
  }

  /** The `n` low bytes of `v`, least significant first. */
  function ToLittleEndian(v: nat, n: nat): (bytes: seq<byte>)
    ensures |bytes| == n
  {
    if n == 0 then [] else [v % 256] + ToLittleEndian(v / 256, n - 1)
  }

  function FromLittleEndian(bytes: seq<byte>): nat {
    if bytes == [] then 0 else bytes[0] + 256 * FromLittleEndian(bytes[1..])
  }

  lemma {:induction false} LittleEndianBound(bytes: seq<byte>)
    ensures FromLittleEndian(bytes) < Power256(|bytes|)
  {
    if bytes != [] {
      LittleEndianBound(bytes[1..]);
    }
  }

  lemma {:induction false} DecodeOfEncode(v: nat, n: nat)
    requires v < Power256(n)
    ensures FromLittleEndian(ToLittleEndian(v, n)) == v
  {
    if n > 0 {
      DecodeOfEncode(v / 256, n - 1);
      assert ToLittleEndian(v, n)[1..] == ToLittleEndian(v / 256, n - 1);
    }
  }

  lemma {:induction false} EncodeOfDecode(bytes: seq<byte>)
    ensures ToLittleEndian(FromLittleEndian(bytes), |bytes|) == bytes
  {
    if bytes != [] {
      EncodeOfDecode(bytes[1..]);
      var rest := FromLittleEndian(bytes[1..]);
      assert (bytes[0] + 256 * rest) % 256 == bytes[0] && (bytes[0] + 256 * rest) / 256 == rest;
      assert bytes == [bytes[0]] + bytes[1..];
    }
  }

  lemma WordLimitIsPower()
    ensures Power256(WORD_BYTES) == WORD_LIMIT
  {
    assert Power256(4) == 0x1_0000_0000;
    assert Power256(8) == 256 * 256 * 256 * 256 * Power256(4);
  }

  /** The eight bytes of a `size_t`. */
  function WordBytes(v: nat): (bytes: seq<byte>)
    requires v < WORD_LIMIT
    ensures |bytes| == WORD_BYTES
  {
    ToLittleEndian(v, WORD_BYTES)
  }

  function WordAt(data: seq<byte>, at: nat): (v: nat)
    requires at + WORD_BYTES <= |data|
    ensures v < WORD_LIMIT
  {
    WordLimitIsPower();
    LittleEndianBound(data[at..at + WORD_BYTES]);
    FromLittleEndian(data[at..at + WORD_BYTES])
  }

  /** A word and its eight bytes determine each other, wherever the bytes lie. */
  lemma WordRoundTrip(data: seq<byte>, at: nat, v: nat)
    requires v < WORD_LIMIT && at + WORD_BYTES <= |data|
    ensures data[at..at + WORD_BYTES] == WordBytes(v) <==> WordAt(data, at) == v
  {
    WordLimitIsPower();
    DecodeOfEncode(v, WORD_BYTES);
    EncodeOfDecode(data[at..at + WORD_BYTES]);
  }
}
