/** The leading-zero-bit test a digest must pass (`CheckBitHash`). The digest
    is first spelled out as a string of 256 '0'/'1' characters, eight per
    byte, and the first `difficulty` characters are then inspected one by one.
    Go reports an index past the end of that string as a run-time panic; the
    model returns it as an outcome of its own instead of a boolean. */
module BitCheck {
  import Format

  type Byte = n: nat | n < 256

  /** A SHA-256 digest: exactly 32 bytes. */
  type Digest = s: seq<Byte> | |s| == 32 witness seq(32, _ => 0)

  /** Number of bits in a digest. */
  const DigestBits: nat := 256

  /** What `CheckBitHash` does: return a boolean, or panic with Go's
      "index out of range [index] with length length". */
  datatype Outcome = Returned(ok: bool) | IndexPanic(index: nat, length: nat)

  /** Bit i of a digest, counting from the most significant bit of byte 0:
      bit 7 - i%8 of byte i/8. This is the reference reading of "leading
      bits", independent of any string rendering. */
  function DigestBit(h: seq<Byte>, i: nat): (b: nat)
    requires i < 8 * |h|
    ensures b < 2
  {
    Format.Bit(h[i / 8], 7 - i % 8)
  }

  /** The first d bits of the digest are all zero (vacuous for d <= 0). */
  predicate LeadingZeroBits(h: Digest, d: int)
    requires d <= DigestBits
  {
    forall i: nat :: i < d ==> DigestBit(h, i) == 0
  }

  /** The bit string built by appending `%08b` of every byte, byte 0 first. */
  function BitString(h: seq<Byte>): (bits: string)
    ensures |bits| == 8 * |h|
  {
    if |h| == 0 then "" else BitString(h[..|h| - 1]) + Format.Binary(h[|h| - 1], 8)
  }

  /** Character i of the bit string is '0' or '1' according to bit i of the
      digest, for every position of the string. */
  lemma {:induction false} BitStringSpellsBits(h: seq<Byte>)
    ensures forall i: nat :: i < 8 * |h| ==> BitString(h)[i] == Format.DigitChar(DigestBit(h, i))
  {
    if |h| > 0 {
      var init := h[..|h| - 1];
      var last := h[|h| - 1];
      BitStringSpellsBits(init);
      forall i: nat | i < 8 * |h|
        ensures BitString(h)[i] == Format.DigitChar(DigestBit(h, i))
      {
        if i < 8 * |init| {
          assert BitString(h)[i] == BitString(init)[i];
          assert DigestBit(h, i) == DigestBit(init, i);
        } else {
          var j := i - 8 * |init|;
          assert i / 8 == |init| && i % 8 == j;
          Format.BinaryDigit(last, 8, j);
        }
      }
    }
  }

  /** The loop `for i := start; i < d; i++ { if bits[i] != '0' { return false } }`,
      followed by `return true`, where reading past the end of `bits` panics. */
  function Scan(bits: string, start: nat, d: int): (r: Outcome)
    requires start <= |bits|
    ensures r == Returned(true) <==> d <= |bits| && forall k :: start <= k < d ==> bits[k] == '0'
    ensures r.IndexPanic? <==> |bits| < d && forall k :: start <= k < |bits| ==> bits[k] == '0'
    ensures r.IndexPanic? ==> r.index == r.length == |bits|
    decreases d - start
  {
    if d <= start then Returned(true)
    else if start == |bits| then IndexPanic(start, |bits|)
    else if bits[start] != '0' then Returned(false)
    else Scan(bits, start + 1, d)
  }

  /** `CheckBitHash(hash, difficulty)`. For difficulty <= 256 it returns
      whether the first `difficulty` bits are zero; above 256 it returns
      false if a one bit comes first and panics at index 256 otherwise. */
  function CheckBitHash(h: Digest, difficulty: int): (r: Outcome)
    ensures r == Returned(true) <==> difficulty <= DigestBits && LeadingZeroBits(h, difficulty)
    ensures r.IndexPanic? <==> DigestBits < difficulty && LeadingZeroBits(h, DigestBits)
    ensures r.IndexPanic? ==> r == IndexPanic(DigestBits, DigestBits)
  {
    BitStringSpellsBits(h);
    Scan(BitString(h), 0, difficulty)
  }

  /** A difficulty of zero or less is met by every digest: the loop body
      never runs. */
  lemma CheckVacuous(h: Digest, difficulty: int)
    requires difficulty <= 0
    ensures CheckBitHash(h, difficulty) == Returned(true)
  {
  }

  /** Meeting a difficulty means meeting every smaller one. */
  lemma CheckMonotone(h: Digest, d: int, e: int)
    requires e <= d
    requires CheckBitHash(h, d) == Returned(true)
    ensures CheckBitHash(h, e) == Returned(true)
  {
  }

  /** The full difficulty of 256 is met exactly by the all-zero digest. */
  lemma CheckFullIffZero(h: Digest)
    ensures CheckBitHash(h, DigestBits) == Returned(true) <==> forall k :: 0 <= k < 32 ==> h[k] == 0
  {
    if LeadingZeroBits(h, DigestBits) {
      forall k | 0 <= k < 32
        ensures h[k] == 0
      {
        forall j: nat | j < 8
          ensures Format.Bit(h[k], j) == 0
        {
          var i := 8 * k + (7 - j);
          assert i / 8 == k && i % 8 == 7 - j;
          assert DigestBit(h, i) == 0;
        }
        Format.ZeroIffNoBitSet(h[k], 8);
      }
    }
    if forall k :: 0 <= k < 32 ==> h[k] == 0 {
      forall i: nat | i < DigestBits
        ensures DigestBit(h, i) == 0
      {
        Format.ZeroHasNoBit(7 - i % 8);
      }
    }
  }

  /** The all-zero digest meets difficulty 8; difficulty 257 reads past the
      256-character bit string and panics rather than returning false. */
  lemma ZeroDigestOutcomes()
    ensures CheckBitHash(seq(32, _ => 0), 8) == Returned(true)
    ensures CheckBitHash(seq(32, _ => 0), 257) == IndexPanic(256, 256)
  {
    var z: Digest := seq(32, _ => 0);
    CheckFullIffZero(z);
    CheckMonotone(z, DigestBits, 8);
  }
}
