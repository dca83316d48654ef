/** Digests as lower-case hexadecimal text, with the hash function left open. */
module Hashing {
  import opened PyText

  type Byte = b: int | 0 <= b < 256

  /** What SHA-256 returns. */
  type Digest = d: seq<Byte> | |d| == 32 witness [0, 0, 0, 0, 0, 0, 0, 0, 0, 0, 0, 0, 0, 0, 0, 0, 0, 0, 0, 0, 0, 0, 0, 0, 0, 0, 0, 0, 0, 0, 0, 0]

  /** SHA-256 on ASCII text, and on a Python string.  Nothing is assumed about either. */
  type HashFn = string -> Digest
  type StrHash = PyStr -> Digest

  /** `hexdigest()`. */
  function HexDigest(d: seq<Byte>): PyStr {
    seq(2 * |d|, i requires 0 <= i < 2 * |d| =>
      HexDigit(if i % 2 == 0 then d[i / 2] / 16 else d[i / 2] % 16) as int)
  }

  /** Two lower-case digits per byte, the high one first. */
  lemma {:induction false} HexDigestReads(d: seq<Byte>, i: nat)
    requires i < |d|
    ensures var t := HexDigest(d);
            && |t| == 2 * |d| && LowerHex(t[2 * i]) && LowerHex(t[2 * i + 1])
            && 16 * NibbleOf(t[2 * i]) + NibbleOf(t[2 * i + 1]) == d[i]
  {}

  predicate LowerHex(c: Code) { '0' as int <= c <= '9' as int || 'a' as int <= c <= 'f' as int }

  function NibbleOf(c: Code): int
    requires LowerHex(c)
  {
    if c <= '9' as int then c - '0' as int else c - 'a' as int + 10
  }

  lemma {:induction false} HexDigestInjective(c: seq<Byte>, d: seq<Byte>)
    requires HexDigest(c) == HexDigest(d)
    ensures c == d
  {
    assert |HexDigest(c)| == 2 * |c| && |HexDigest(d)| == 2 * |d|;
    forall i | 0 <= i < |c| ensures c[i] == d[i] {
      assert HexDigest(c)[2 * i] == HexDigest(d)[2 * i];
      assert HexDigest(c)[2 * i + 1] == HexDigest(d)[2 * i + 1];
      HexDigitRoundTrip(c[i] / 16);
      HexDigitRoundTrip(c[i] % 16);
      HexDigitRoundTrip(d[i] / 16);
      HexDigitRoundTrip(d[i] % 16);
    }
  }
}
