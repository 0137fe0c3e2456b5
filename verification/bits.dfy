/**
 The number-to-text conversions the LCD driver uses to pick nibbles out of a
 byte: JavaScript's `n.toString(2)` and `s.padStart(width, '0')`, together with
 the arithmetic bit numbering they are proved against.
 */
module Bits {

  /** Bit k of x, bit 0 being the least significant. */
  function BitOf(x: nat, k: nat): bool
  {
    if k == 0 then x % 2 == 1 else BitOf(x / 2, k - 1)
  }

  function Pow2(k: nat): (p: nat)
    ensures p >= 1
  {
    if k == 0 then 1 else 2 * Pow2(k - 1)
  }

  /** The binary digit character for one bit. */
  function Digit(b: bool): char
  {
    if b then '1' else '0'
  }

  /** `n.toString(2)` for a non-negative integer: the shortest binary numeral,
      most significant digit first, "0" for zero. */
  function ToBinary(n: nat): (s: string)
    ensures |s| > 0 && s[0] == Digit(n > 0)
    ensures forall i :: 0 <= i < |s| ==> s[i] == '0' || s[i] == '1'
    decreases n
  {
    if n < 2 then [Digit(n == 1)] else ToBinary(n / 2) + [Digit(n % 2 == 1)]
  }

  function Repeat(c: char, count: nat): (s: string)
    ensures |s| == count
    ensures forall i :: 0 <= i < count ==> s[i] == c
  {
    if count == 0 then [] else Repeat(c, count - 1) + [c]
  }

  /** `s.padStart(width, fill)`: fill characters are prepended until the
      string is `width` long; a string already that long is left alone. */
  function PadStart(s: string, width: nat, fill: char): (r: string)
    ensures |r| == if |s| < width then width else |s|
    ensures r[|r| - |s|..] == s
    ensures forall i :: 0 <= i < |r| - |s| ==> r[i] == fill
  {
    if |s| >= width then s else Repeat(fill, width - |s|) + s
  }

  /** The width-digit binary numeral of n, most significant digit first
      (higher bits of n are dropped). */
  function FixedBinary(n: nat, width: nat): (s: string)
    ensures |s| == width
    ensures forall i :: 0 <= i < width ==> s[i] == Digit(BitOf(n, width - 1 - i))
  {
    if width == 0 then [] else FixedBinary(n / 2, width - 1) + [Digit(n % 2 == 1)]
  }

  lemma {:induction false} ZeroBits(k: nat)
    ensures !BitOf(0, k)
  {
    if k > 0 {
      ZeroBits(k - 1);
    }
  }

  lemma PadStartAppend(s: string, c: char, width: nat, fill: char)
    requires |s| + 1 <= width
    ensures PadStart(s + [c], width, fill) == PadStart(s, width - 1, fill) + [c]
  {
    if |s| + 1 < width {
      assert Repeat(fill, width - |s| - 1) + (s + [c]) == (Repeat(fill, width - 1 - |s|) + s) + [c];
    }
  }

  /** Every digit of zero is '0'. */
  lemma {:induction false} FixedZero(width: nat)
    ensures FixedBinary(0, width) == Repeat('0', width)
  {
    if width > 0 {
      FixedZero(width - 1);
    }
  }

  /** The single-digit numeral padded to any width is that digit after zeros. */
  lemma PaddedDigit(n: nat, width: nat)
    requires n < 2 && width >= 1
    ensures PadStart(ToBinary(n), width, '0') == FixedBinary(n, width)
  {
    var d := Digit(n == 1);
    assert ToBinary(n) == [d];
    FixedZero(width - 1);
    assert FixedBinary(n, width) == Repeat('0', width - 1) + [d];
    if width == 1 {
      assert Repeat('0', 0) + [d] == [d];
    }
  }

  /** Zero-padding the shortest numeral to a width that can hold n gives the
      fixed-width numeral: the text route the driver takes agrees with the
      arithmetic one. */
  lemma {:induction false} PaddedBinary(n: nat, width: nat)
    requires width >= 1 && n < Pow2(width)
    ensures PadStart(ToBinary(n), width, '0') == FixedBinary(n, width)
    decreases n
  {
    if n < 2 {
      PaddedDigit(n, width);
    } else {
      assert Pow2(1) == 2;
      var upper := ToBinary(n / 2);
      var d := Digit(n % 2 == 1);
      PaddedBinary(n / 2, width - 1);
      assert |PadStart(upper, width - 1, '0')| == width - 1;
      PadStartAppend(upper, d, width, '0');
      assert ToBinary(n) == upper + [d];
      assert FixedBinary(n, width) == FixedBinary(n / 2, width - 1) + [d];
    }
  }

  /** For a byte, the eight-character numeral the driver builds has bit 7 - i
      of the byte at position i. */
  lemma ByteBinary(n: nat)
    requires n < 256
    ensures |PadStart(ToBinary(n), 8, '0')| == 8
    ensures forall i :: 0 <= i < 8 ==> PadStart(ToBinary(n), 8, '0')[i] == Digit(BitOf(n, 7 - i))
  {
    assert Pow2(8) == 256;
    PaddedBinary(n, 8);
  }

  /** Bit k of the high nibble is bit k + 4 of the byte. */
  lemma HighNibbleBit(n: nat, k: nat)
    requires k < 4
    ensures BitOf(n / 16, k) == BitOf(n, k + 4)
  {
    calc {
      BitOf(n, k + 4);
      BitOf(n / 2, k + 3);
      BitOf(n / 2 / 2, k + 2);
      BitOf(n / 2 / 2 / 2, k + 1);
      BitOf(n / 2 / 2 / 2 / 2, k);
      { assert n / 2 / 2 / 2 / 2 == n / 16; }
      BitOf(n / 16, k);
    }
  }

  /** Bit k of the low nibble is bit k of the byte. */
  lemma LowNibbleBit(n: nat, k: nat)
    requires k < 4
    ensures BitOf(n % 16, k) == BitOf(n, k)
  {
    assert (n % 16) / 2 == (n / 2) % 8;
    assert ((n / 2) % 8) / 2 == (n / 2 / 2) % 4;
    assert ((n / 2 / 2) % 4) / 2 == (n / 2 / 2 / 2) % 2;
    if k == 1 {
      assert BitOf(n % 16, 1) == BitOf((n / 2) % 8, 0);
    } else if k == 2 {
      assert BitOf(n % 16, 2) == BitOf((n / 2) % 8, 1) == BitOf((n / 2 / 2) % 4, 0);
      assert BitOf(n, 2) == BitOf(n / 2, 1) == BitOf(n / 2 / 2, 0);
    } else if k == 3 {
      assert BitOf(n % 16, 3) == BitOf((n / 2) % 8, 2) == BitOf((n / 2 / 2) % 4, 1)
          == BitOf((n / 2 / 2 / 2) % 2, 0);
      assert BitOf(n, 3) == BitOf(n / 2, 2) == BitOf(n / 2 / 2, 1) == BitOf(n / 2 / 2 / 2, 0);
    }
  }
}
