/** Base32 encoding without padding (section 6 of RFC 4648), as
    `base32.StdEncoding.WithPadding(base32.NoPadding)` produces it: every group of five
    bytes becomes eight characters, and a final group of k < 5 bytes becomes the first
    ceil(8k/5) characters of the group padded with zero bytes. */
module Base32 {
  import opened Common

  const Alphabet: string := "ABCDEFGHIJKLMNOPQRSTUVWXYZ234567"

  predicate InAlphabet(s: string)
  {
    forall i :: 0 <= i < |s| ==> s[i] in Alphabet
  }

  /** The 40-bit big-endian value of a group of five bytes. */
  function GroupValue(g: Bytes): (n: nat)
    requires |g| == 5
    ensures n < 0x100_0000_0000
  {
    (((g[0] as int * 256 + g[1]) * 256 + g[2]) * 256 + g[3]) * 256 + g[4]
  }

  function Pow32(k: nat): (p: nat)
    ensures p >= 1
  {
    if k == 0 then 1 else 32 * Pow32(k - 1)
  }

  /** The first `count` five-bit digits of a group, most significant first. */
  function GroupChars(n: nat, count: nat): (s: string)
    requires count <= 8
    ensures |s| == count
    ensures InAlphabet(s)
  {
    if count == 0 then ""
    else GroupChars(n, count - 1) + [Alphabet[(n / Pow32(8 - count)) % 32]]
  }

  /** The number of characters that carry the bits of k bytes. */
  function CharsFor(k: nat): nat
  {
    (8 * k + 4) / 5
  }

  function EncodeNoPadding(data: Bytes): (s: string)
    ensures |s| == CharsFor(|data|)
    ensures InAlphabet(s)
  {
    if |data| == 0 then ""
    else if |data| >= 5 then GroupChars(GroupValue(data[..5]), 8) + EncodeNoPadding(data[5..])
    else
      var padded := data + seq(5 - |data|, _ => 0);
      GroupChars(GroupValue(padded), CharsFor(|data|))
  }

  /** Sixteen random bytes always encode to 26 characters of the alphabet. */
  lemma SixteenBytes(data: Bytes)
    requires |data| == 16
    ensures |EncodeNoPadding(data)| == 26
    ensures InAlphabet(EncodeNoPadding(data))
  {
  }
}
