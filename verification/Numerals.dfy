/** Decimal numerals: `str(n)`, the ten-digit form `{n:010d}`, and reading them back. */
module Numerals {
  import Seqs

  predicate IsDigit(c: char) {
    '0' <= c <= '9'
  }

  predicate AllDigits(s: string) {
    forall i :: 0 <= i < |s| ==> IsDigit(s[i])
  }

  function Digit(n: nat): char
    requires n < 10
  {
    (48 + n) as char
  }

  /** `str(n)` */
  function Decimal(n: nat): string {
    if n < 10 then [Digit(n)] else Decimal(n / 10) + [Digit(n % 10)]
  }

  /** `str(n)` of any integer */
  function Signed(n: int): string {
    if n < 0 then "-" + Decimal(-n) else Decimal(n)
  }

  /** The number a digit string denotes. */
  function Value(s: string): nat
    requires AllDigits(s)
  {
    if s == "" then 0 else Value(s[..|s| - 1]) * 10 + (s[|s| - 1] as int - 48)
  }

  lemma {:induction false} DecimalReads(n: nat)
    ensures Decimal(n) != "" && AllDigits(Decimal(n)) && Value(Decimal(n)) == n
  {
    if n >= 10 {
      DecimalReads(n / 10);
      Seqs.InitOfSnoc(Decimal(n / 10), Digit(n % 10));
    } else {
      var s := [Digit(n)];
      assert s[..0] == "";
    }
  }

  function Pow10(k: nat): nat {
    if k == 0 then 1 else 10 * Pow10(k - 1)
  }

  /** `k` digits suffice exactly for numbers below ten to the `k`. */
  lemma {:induction false} DecimalLength(n: nat, k: nat)
    requires k > 0
    ensures |Decimal(n)| <= k <==> n < Pow10(k)
  {
    if k == 1 {
      assert n >= 10 ==> |Decimal(n / 10)| >= 1;
      assert Pow10(1) == 10 * Pow10(0);
    } else if n >= 10 {
      DecimalLength(n / 10, k - 1);
    } else {
      PowAtLeast(k);
    }
  }

  lemma {:induction false} PowAtLeast(k: nat)
    requires k > 0
    ensures Pow10(k) >= 10
  {
    if k > 1 {
      PowAtLeast(k - 1);
    }
  }

  function Zeros(k: nat): string {
    seq(k, _ => '0')
  }

  /** `{n:010d}` */
  function Padded(n: nat): string {
    var d := Decimal(n);
    if |d| >= 10 then d else Zeros(10 - |d|) + d
  }

  lemma {:induction false} LeadingZeros(k: nat, s: string)
    requires AllDigits(s)
    ensures AllDigits(Zeros(k) + s) && Value(Zeros(k) + s) == Value(s)
    decreases |s|, k
  {
    if s != "" {
      LeadingZeros(k, s[..|s| - 1]);
      assert (Zeros(k) + s)[..k + |s| - 1] == Zeros(k) + s[..|s| - 1];
    } else if k > 0 {
      LeadingZeros(k - 1, s);
      assert (Zeros(k) + s)[..k - 1] == Zeros(k - 1) + s;
    }
  }

  lemma PaddedReads(n: nat)
    ensures AllDigits(Padded(n)) && Value(Padded(n)) == n
    ensures |Padded(n)| == 10 <==> n < Pow10(10)
  {
    DecimalReads(n);
    DecimalLength(n, 10);
    if |Decimal(n)| < 10 {
      LeadingZeros(10 - |Decimal(n)|, Decimal(n));
    }
  }

  /** How many digits a text starts with. */
  function LeadingDigits(s: string): (k: nat)
    ensures k <= |s| && AllDigits(s[..k])
  {
    if s != "" && IsDigit(s[0]) then
      var k := LeadingDigits(s[1..]);
      assert forall i :: 0 <= i < k + 1 ==> s[i] == if i == 0 then s[0] else s[1..][..k][i - 1];
      k + 1
    else 0
  }

  /** How many digits a text ends with. */
  function TrailingDigits(s: string): (k: nat)
    ensures k <= |s| && AllDigits(s[|s| - k..])
  {
    if s != "" && IsDigit(s[|s| - 1]) then
      var k := TrailingDigits(s[..|s| - 1]);
      assert s[|s| - 1 - k..] == s[..|s| - 1][|s| - 1 - k..] + [s[|s| - 1]];
      k + 1
    else 0
  }

  lemma {:induction false} LeadingDigitsOf(d: string, rest: string)
    requires AllDigits(d) && (rest == "" || !IsDigit(rest[0]))
    ensures LeadingDigits(d + rest) == |d|
  {
    if d == "" {
      assert d + rest == rest;
    } else {
      assert (d + rest)[1..] == d[1..] + rest;
      LeadingDigitsOf(d[1..], rest);
    }
  }

  lemma {:induction false} TrailingDigitsOf(before: string, d: string)
    requires AllDigits(d) && (before == "" || !IsDigit(before[|before| - 1]))
    ensures TrailingDigits(before + d) == |d|
  {
    if d == "" {
      assert before + d == before;
    } else {
      var n := |d| - 1;
      assert (before + d)[..|before| + n] == before + d[..n];
      TrailingDigitsOf(before, d[..n]);
    }
  }
}
