/**
 * Decimal rendering of a counter or a byte offset: `String(value)` and
 * `String(value).padStart(width, '0')`, with the reader that inverts both.
 */
module Decimal {
  const DIGITS := "0123456789"

  predicate IsDigit(c: char) { '0' <= c <= '9' }

  predicate AllDigits(s: string) { forall i :: 0 <= i < |s| ==> IsDigit(s[i]) }

  function Render(n: nat): (s: string)
    ensures |s| > 0 && AllDigits(s)
  {
    if n < 10 then [DIGITS[n]] else Render(n / 10) + [DIGITS[n % 10]]
  }

  function Zeros(count: nat): (s: string)
    ensures |s| == count && forall i :: 0 <= i < count ==> s[i] == '0'
  {
    seq(count, _ => '0')
  }

  function PadStart(s: string, width: nat): string {
    if |s| >= width then s else Zeros(width - |s|) + s
  }

  /** The number a digit string denotes; leading zeros are insignificant. */
  function Value(s: string): nat
    requires AllDigits(s)
  {
    if s == "" then 0 else 10 * Value(s[..|s| - 1]) + (s[|s| - 1] - '0') as nat
  }

  lemma {:induction false} RenderRoundTrip(n: nat)
    ensures Value(Render(n)) == n
  {
    if n >= 10 {
      RenderRoundTrip(n / 10);
      assert Render(n)[..|Render(n)| - 1] == Render(n / 10);
    }
  }

  lemma {:induction false} LeadingZeros(zeros: nat, s: string)
    requires AllDigits(s)
    ensures AllDigits(Zeros(zeros) + s) && Value(Zeros(zeros) + s) == Value(s)
  {
    var t := Zeros(zeros) + s;
    if s != "" {
      LeadingZeros(zeros, s[..|s| - 1]);
      assert t[..|t| - 1] == Zeros(zeros) + s[..|s| - 1];
    } else if zeros > 0 {
      LeadingZeros(zeros - 1, s);
      assert t[..|t| - 1] == Zeros(zeros - 1) + s;
    }
  }

  /** Padding is a minimum width, never a cap, and never changes the number read back. */
  lemma PaddedRoundTrip(n: nat, width: nat)
    ensures AllDigits(PadStart(Render(n), width))
    ensures Value(PadStart(Render(n), width)) == n
    ensures |PadStart(Render(n), width)| >= width
  {
    RenderRoundTrip(n);
    if |Render(n)| < width {
      LeadingZeros(width - |Render(n)|, Render(n));
    }
  }

  function Pow10(k: nat): nat {
    if k == 0 then 1 else 10 * Pow10(k - 1)
  }

  /** A number has at most `k` digits exactly when it is below ten to the `k`. */
  lemma {:induction false} RenderLength(n: nat, k: nat)
    requires k > 0
    ensures |Render(n)| <= k <==> n < Pow10(k)
  {
    if n < 10 {
      Pow10Grows(k);
    } else if k == 1 {
      assert |Render(n)| >= 2;
    } else {
      RenderLength(n / 10, k - 1);
      assert n < Pow10(k) <==> n / 10 < Pow10(k - 1);
    }
  }

  lemma {:induction false} Pow10Grows(k: nat)
    ensures Pow10(k) >= 1 && (k > 0 ==> Pow10(k) >= 10)
  {
    if k > 0 { Pow10Grows(k - 1); }
  }

  // ---------- Digits at the head of a text ----------

  function LeadingDigits(s: string): (d: string)
    ensures AllDigits(d) && |d| <= |s|
  {
    if s == "" || !IsDigit(s[0]) then "" else [s[0]] + LeadingDigits(s[1..])
  }

  lemma {:induction false} LeadingDigitsAre(d: string, rest: string)
    requires AllDigits(d) && (rest == "" || !IsDigit(rest[0]))
    ensures LeadingDigits(d + rest) == d
  {
    if d == "" {
      assert d + rest == rest;
    } else {
      assert (d + rest)[0] == d[0] && (d + rest)[1..] == d[1..] + rest;
      LeadingDigitsAre(d[1..], rest);
    }
  }
}
