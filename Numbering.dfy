/**
 * Decimal page numbers: `String(n).padStart(width, "0")`, used with width 3
 * for chapter pages and width 4 for volume pages.  `padStart` only ever adds
 * zeros on the left; a number with `width` or more digits is left as it is.
 */
module Numbering {
  import opened Lex

  function Pow10(k: nat): (p: nat)
    ensures p >= 1
  {
    if k == 0 then 1 else 10 * Pow10(k - 1)
  }

  predicate IsDigit(c: char)
  {
    '0' <= c <= '9'
  }

  function DigitChar(d: nat): char
    requires d < 10
  {
    ('0' as int + d) as char
  }

  function DigitValue(c: char): nat
  {
    if IsDigit(c) then c as int - '0' as int else 0
  }

  /** `String(n)` for a non-negative integer: its decimal digits without leading zeros. */
  function NatToString(n: nat): string
    decreases n
  {
    if n < 10 then [DigitChar(n)] else NatToString(n / 10) + [DigitChar(n % 10)]
  }

  function Zeros(k: nat): (z: string)
    ensures |z| == k
  {
    if k == 0 then [] else Zeros(k - 1) + ['0']
  }

  /** `s.padStart(width, "0")`. */
  function PadStart(s: string, width: nat): string
  {
    if |s| >= width then s else Zeros(width - |s|) + s
  }

  /** `String(n).padStart(width, "0")`. */
  function PadNum(n: nat, width: nat): string
  {
    PadStart(NatToString(n), width)
  }

  /** The number a string of decimal digits denotes (an independent reading of the digits). */
  function DecimalValue(s: string): nat
  {
    if s == [] then 0 else 10 * DecimalValue(s[..|s| - 1]) + DigitValue(s[|s| - 1])
  }

  /** The last `k` decimal digits of `n`, most significant first. */
  function FixedDigits(n: nat, k: nat): (r: string)
    ensures |r| == k
    ensures forall i :: 0 <= i < k ==> IsDigit(r[i])
  {
    if k == 0 then [] else FixedDigits(n / 10, k - 1) + [DigitChar(n % 10)]
  }

  lemma {:induction false} NatToStringNonEmpty(n: nat)
    ensures |NatToString(n)| >= 1
  {
  }

  lemma {:induction false} NatToStringDigits(n: nat)
    ensures forall i :: 0 <= i < |NatToString(n)| ==> IsDigit(NatToString(n)[i])
    decreases n
  {
    if n >= 10 { NatToStringDigits(n / 10); }
  }

  /** A padded number is a non-empty string of decimal digits. */
  lemma PadNumDigits(n: nat, width: nat)
    ensures |PadNum(n, width)| >= 1
    ensures forall i :: 0 <= i < |PadNum(n, width)| ==> IsDigit(PadNum(n, width)[i])
  {
    NatToStringDigits(n);
    var s := NatToString(n);
    if |s| < width {
      var z := Zeros(width - |s|);
      assert forall i :: 0 <= i < |z| ==> IsDigit(z[i]) by { ZerosAreFixedDigitsOfZero(width - |s|); }
      forall i | 0 <= i < |z + s| ensures IsDigit((z + s)[i]) {
        if i < |z| { assert (z + s)[i] == z[i]; } else { assert (z + s)[i] == s[i - |z|]; }
      }
    }
  }

  /** `String(n)` has at most `k` digits exactly when `n < 10^k`. */
  lemma {:induction false} NatToStringLength(n: nat, k: nat)
    requires k >= 1
    ensures |NatToString(n)| <= k <==> n < Pow10(k)
    decreases n
  {
    if n >= 10 {
      if k == 1 {
        NatToStringNonEmpty(n / 10);
      } else {
        NatToStringLength(n / 10, k - 1);
      }
    }
  }

  lemma {:induction false} ZerosAreFixedDigitsOfZero(k: nat)
    ensures FixedDigits(0, k) == Zeros(k)
  {
    if k > 0 { ZerosAreFixedDigitsOfZero(k - 1); }
  }

  /** Below `10^k`, padding to `k` places gives exactly the `k` low digits. */
  lemma {:induction false} PadNumIsFixedDigits(n: nat, k: nat)
    requires k >= 1 && n < Pow10(k)
    ensures PadNum(n, k) == FixedDigits(n, k)
    decreases n
  {
    NatToStringLength(n, k);
    if n < 10 {
      ZerosAreFixedDigitsOfZero(k - 1);
      assert Zeros(k - 1) + [DigitChar(n)] == Zeros(k - |NatToString(n)|) + NatToString(n);
    } else {
      NatToStringLength(n, 1);
      assert k >= 2;
      PadNumIsFixedDigits(n / 10, k - 1);
      NatToStringLength(n / 10, k - 1);
      var t := NatToString(n / 10);
      assert Zeros(k - |NatToString(n)|) + NatToString(n) == (Zeros(k - 1 - |t|) + t) + [DigitChar(n % 10)];
    }
  }

  lemma {:induction false} SamePrefixLess(p: string, x: string, y: string)
    requires LexLess(x, y)
    ensures LexLess(p + x, p + y)
    decreases |p|
  {
    if |p| > 0 {
      SamePrefixLess(p[1..], x, y);
      assert (p + x)[0] == p[0] == (p + y)[0];
      assert (p + x)[1..] == p[1..] + x && (p + y)[1..] == p[1..] + y;
    }
    assert (p + x)[|p|..] == x && (p + y)[|p|..] == y;
  }

  /** Fixed-width digit strings compare like the numbers they denote. */
  lemma {:induction false} FixedDigitsOrder(n: nat, m: nat, k: nat)
    requires n < m < Pow10(k)
    ensures LexLess(FixedDigits(n, k), FixedDigits(m, k))
  {
    var dn, dm := DigitChar(n % 10), DigitChar(m % 10);
    if n / 10 == m / 10 {
      assert n % 10 < m % 10;
      assert LexLess([dn], [dm]);
      SamePrefixLess(FixedDigits(n / 10, k - 1), [dn], [dm]);
    } else {
      FixedDigitsOrder(n / 10, m / 10, k - 1);
      LexLessAppend(FixedDigits(n / 10, k - 1), FixedDigits(m / 10, k - 1), [dn], [dm]);
    }
  }

  /** Below `10^k`, padded numbers have exactly `k` characters and sort in numeric order. */
  lemma PadNumOrder(n: nat, m: nat, k: nat)
    requires k >= 1 && n < m < Pow10(k)
    ensures |PadNum(n, k)| == k && |PadNum(m, k)| == k
    ensures LexLess(PadNum(n, k), PadNum(m, k))
  {
    PadNumIsFixedDigits(n, k);
    PadNumIsFixedDigits(m, k);
    FixedDigitsOrder(n, m, k);
  }

  /** `padStart` does not truncate: from `10^k` on, the number is printed in full, with more than `k` digits. */
  lemma PadNumNoTruncation(n: nat, k: nat)
    requires k >= 1 && n >= Pow10(k)
    ensures PadNum(n, k) == NatToString(n) && |PadNum(n, k)| > k
  {
    NatToStringLength(n, k);
  }

  lemma {:induction false} DecimalValueOfNatToString(n: nat)
    ensures DecimalValue(NatToString(n)) == n
    decreases n
  {
    if n >= 10 {
      DecimalValueOfNatToString(n / 10);
      var s := NatToString(n);
      assert s[..|s| - 1] == NatToString(n / 10);
    } else {
      assert NatToString(n)[..0] == [];
    }
  }

  lemma {:induction false} DecimalValueOfZeros(k: nat)
    ensures DecimalValue(Zeros(k)) == 0
  {
    if k > 0 {
      DecimalValueOfZeros(k - 1);
      assert Zeros(k)[..k - 1] == Zeros(k - 1);
    }
  }

  lemma {:induction false} DecimalValueIgnoresLeadingZeros(k: nat, s: string)
    ensures DecimalValue(Zeros(k) + s) == DecimalValue(s)
    decreases |s|
  {
    if s == [] {
      assert Zeros(k) + s == Zeros(k);
      DecimalValueOfZeros(k);
    } else {
      var t := Zeros(k) + s;
      assert t[..|t| - 1] == Zeros(k) + s[..|s| - 1];
      DecimalValueIgnoresLeadingZeros(k, s[..|s| - 1]);
    }
  }

  /** Padding keeps the number: reading the padded digits back gives `n`, at every width. */
  lemma PadNumValue(n: nat, width: nat)
    ensures DecimalValue(PadNum(n, width)) == n
  {
    DecimalValueOfNatToString(n);
    var s := NatToString(n);
    if |s| < width { DecimalValueIgnoresLeadingZeros(width - |s|, s); }
  }

  /** Distinct numbers get distinct padded names, at any width: padding never truncates. */
  lemma PadNumInjective(n: nat, m: nat, k: nat)
    requires n != m
    ensures PadNum(n, k) != PadNum(m, k)
  {
    PadNumValue(n, k);
    PadNumValue(m, k);
  }
}
