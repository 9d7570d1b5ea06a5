/** The two integer verbs of Go's fmt package that the miner relies on:
    `%d` for the nonce in the payload and `%08b` for each digest byte.
    Each rendering comes with the value it denotes, so that the round trip
    `value(render(n)) == n` can be proved rather than assumed. */
module Format {

  predicate IsDigit(c: char) { '0' <= c <= '9' }

  function DigitChar(d: nat): (c: char)
    requires d < 10
    ensures IsDigit(c)
  {
    ('0' as int + d) as char
  }

  function DigitValue(c: char): (d: nat)
    requires IsDigit(c)
    ensures d < 10
    ensures DigitChar(d) == c
  {
    c as int - '0' as int
  }

  predicate AllDigits(s: string) { forall i :: 0 <= i < |s| ==> IsDigit(s[i]) }

  /** `%d` of a non-negative integer: at least one digit, no sign, and no
      leading zero except for zero itself. */
  function Decimal(n: nat): (s: string)
    ensures |s| >= 1 && AllDigits(s)
    ensures s[0] == '0' <==> n == 0
    ensures s[0] == '0' ==> |s| == 1
  {
    if n < 10 then [DigitChar(n)] else Decimal(n / 10) + [DigitChar(n % 10)]
  }

  /** The number a string of decimal digits denotes, most significant first. */
  function DecimalValue(s: string): nat
    requires AllDigits(s)
  {
    if |s| == 0 then 0 else DecimalValue(s[..|s| - 1]) * 10 + DigitValue(s[|s| - 1])
  }

  lemma {:induction false} DecimalRoundTrip(n: nat)
    ensures DecimalValue(Decimal(n)) == n
  {
    if n >= 10 {
      var s := Decimal(n);
      assert s[..|s| - 1] == Decimal(n / 10);
      DecimalRoundTrip(n / 10);
    }
  }

  /** Two nonces print the same only if they are the same number. */
  lemma DecimalInjective(n: nat, m: nat)
    ensures Decimal(n) == Decimal(m) ==> n == m
  {
    DecimalRoundTrip(n);
    DecimalRoundTrip(m);
  }

  function Pow2(k: nat): (p: nat)
    ensures p >= 1
  {
    if k == 0 then 1 else 2 * Pow2(k - 1)
  }

  /** Bit k (k = 0 is the least significant) of the binary expansion of n. */
  function Bit(n: nat, k: nat): (b: nat)
    ensures b < 2
  {
    if k == 0 then n % 2 else Bit(n / 2, k - 1)
  }

  /** `%0<width>b` of n: the low `width` binary digits of n, most significant
      first. For a value below 2^width this is exactly what Go prints. */
  function Binary(n: nat, width: nat): (s: string)
    ensures |s| == width
    ensures forall i :: 0 <= i < |s| ==> s[i] == '0' || s[i] == '1'
    ensures width > 0 ==> s[width - 1] == DigitChar(n % 2)
  {
    if width == 0 then "" else Binary(n / 2, width - 1) + [DigitChar(n % 2)]
  }

  /** The number a string of '0'/'1' digits denotes, most significant first. */
  function BinaryValue(s: string): nat
    requires forall i :: 0 <= i < |s| ==> s[i] == '0' || s[i] == '1'
  {
    if |s| == 0 then 0 else BinaryValue(s[..|s| - 1]) * 2 + DigitValue(s[|s| - 1])
  }

  /** Character j of the fixed-width rendering is bit width-1-j of n: the
      most significant bit comes first. */
  lemma {:induction false} BinaryDigit(n: nat, width: nat, j: nat)
    requires j < width
    ensures Binary(n, width)[j] == DigitChar(Bit(n, width - 1 - j))
  {
    if j < width - 1 {
      BinaryDigit(n / 2, width - 1, j);
      assert Bit(n, width - 1 - j) == Bit(n / 2, width - 2 - j);
    }
  }

  /** Reading the rendering back gives n, for every n that fits the width. */
  lemma {:induction false} BinaryRoundTrip(n: nat, width: nat)
    requires n < Pow2(width)
    ensures forall i :: 0 <= i < width ==> Binary(n, width)[i] == '0' || Binary(n, width)[i] == '1'
    ensures BinaryValue(Binary(n, width)) == n
  {
    if width > 0 {
      var s := Binary(n, width);
      BinaryRoundTrip(n / 2, width - 1);
      assert s[..width - 1] == Binary(n / 2, width - 1);
    }
  }

  /** None of the low `width` bits of n is set. */
  predicate NoBitSet(n: nat, width: nat)
  {
    forall k: nat :: k < width ==> Bit(n, k) == 0
  }

  /** A number below 2^width is zero exactly when its low `width` bits are. */
  lemma ZeroIffNoBitSet(n: nat, width: nat)
    requires n < Pow2(width)
    ensures NoBitSet(n, width) <==> n == 0
  {
    if n == 0 {
      forall k: nat | k < width
        ensures Bit(n, k) == 0
      {
        ZeroHasNoBit(k);
      }
    }
    if NoBitSet(n, width) {
      NoBitSetIsZero(n, width);
    }
  }

  lemma {:induction false} NoBitSetIsZero(n: nat, width: nat)
    requires n < Pow2(width)
    requires NoBitSet(n, width)
    ensures n == 0
  {
    if width > 0 {
      forall k: nat | k < width - 1
        ensures Bit(n / 2, k) == 0
      {
        assert Bit(n, k + 1) == Bit(n / 2, k);
      }
      NoBitSetIsZero(n / 2, width - 1);
      assert n % 2 == Bit(n, 0) == 0;
    }
  }

  lemma {:induction false} ZeroHasNoBit(k: nat)
    ensures Bit(0, k) == 0
  {
    if k > 0 {
      ZeroHasNoBit(k - 1);
    }
  }
}
