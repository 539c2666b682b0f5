/** Decimal printing of naturals, as strconv.Itoa does it. */
module Decimal {

  predicate IsDigit(c: char) { '0' <= c <= '9' }

  predicate AllDigits(s: string) { forall i :: 0 <= i < |s| ==> IsDigit(s[i]) }

  function Digit(d: nat): (c: char)
    requires d < 10
    ensures IsDigit(c)
  {
    '0' + d as char
  }

  function Itoa(n: nat): (s: string)
    ensures |s| > 0 && AllDigits(s)
  {
    if n < 10 then [Digit(n)] else Itoa(n / 10) + [Digit(n % 10)]
  }

  function ValueOf(s: string): (n: nat)
    requires AllDigits(s)
  {
    if |s| == 0 then 0 else 10 * ValueOf(s[..|s| - 1]) + (s[|s| - 1] - '0') as nat
  }

  /** Reading the digits back gives the number. */
  lemma {:induction false} ItoaRoundTrip(n: nat)
    ensures ValueOf(Itoa(n)) == n
  {
    if n < 10 {
      assert ValueOf([]) == 0;
      assert Itoa(n)[..0] == [];
    } else {
      ItoaRoundTrip(n / 10);
      assert Itoa(n)[..|Itoa(n)| - 1] == Itoa(n / 10);
    }
  }

  lemma ItoaInjective(m: nat, n: nat)
    requires Itoa(m) == Itoa(n)
    ensures m == n
  {
    ItoaRoundTrip(m);
    ItoaRoundTrip(n);
  }

  // ---- numbers behind a prefix ----

  predicate EndsInDigit(s: string) { |s| > 0 && IsDigit(s[|s| - 1]) }

  /** Of two splits of one name into a prefix and digits, the longer prefix ends in a digit. */
  lemma LongerPrefixEndsInDigit(p: string, q: string, m: string, n: string)
    requires AllDigits(m) && p + m == q + n && |p| < |q|
    ensures EndsInDigit(q)
  {
    assert (q + n)[|q| - 1] == q[|q| - 1];
    assert (p + m)[|q| - 1] == m[|q| - 1 - |p|];
  }

  /** So a prefix that does not end in a digit and the digits behind it can be told apart. */
  lemma PrefixAndNumber(p: string, q: string, m: string, n: string)
    requires !EndsInDigit(p) && !EndsInDigit(q) && AllDigits(m) && AllDigits(n)
    requires p + m == q + n
    ensures p == q && m == n
  {
    if |p| < |q| {
      LongerPrefixEndsInDigit(p, q, m, n);
    } else if |q| < |p| {
      LongerPrefixEndsInDigit(q, p, n, m);
    } else {
      assert (p + m)[..|p|] == p && (q + n)[..|q|] == q;
      assert (p + m)[|p|..] == m && (q + n)[|q|..] == n;
    }
  }
}
