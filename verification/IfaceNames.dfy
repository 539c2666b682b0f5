/** The names pkg/danmep gives to the interfaces of one Pod. */
module IfaceNames {
  import opened Decimal

  /** `legacy` is the scheme in which a chosen prefix is the whole name. */
  function CalculateIfaceName(legacy: bool, chosen: string, default: string, id: nat): string {
    if id == 0 then "eth0"
    else if chosen != "" then (if legacy then chosen else chosen + Itoa(id))
    else default + Itoa(id)
  }

  ghost function Prefix(chosen: string, default: string): string { if chosen != "" then chosen else default }

  /**
    Every name of the numbered scheme is a prefix followed by the sequence id; the legacy scheme differs
    only in that a chosen name stands alone.  The first interface is eth0 in both.
   */
  lemma NameIsNumbered(chosen: string, default: string, id: nat)
    ensures CalculateIfaceName(false, chosen, default, id)
      == (if id == 0 then "eth" else Prefix(chosen, default)) + Itoa(id)
    ensures CalculateIfaceName(true, chosen, default, id)
      == if id != 0 && chosen != "" then chosen else CalculateIfaceName(false, chosen, default, id)
  {
  }

  /**
    Unique names: with prefixes that do not end in a digit, two interfaces of a Pod share a name
    only if they share an id.
   */
  lemma NumberedNamesDistinct(c: string, d: string, default: string, m: nat, n: nat)
    requires !EndsInDigit(Prefix(c, default)) && !EndsInDigit(Prefix(d, default))
    requires CalculateIfaceName(false, c, default, m) == CalculateIfaceName(false, d, default, n)
    ensures m == n
  {
    NameIsNumbered(c, default, m);
    NameIsNumbered(d, default, n);
    PrefixAndNumber(if m == 0 then "eth" else Prefix(c, default), if n == 0 then "eth" else Prefix(d, default),
                    Itoa(m), Itoa(n));
    ItoaInjective(m, n);
  }

  /**
    The shorter prefix, with some leading digits of its number, is the longer prefix; the other
    digits are the longer one's number.
   */
  ghost predicate SplitsDifferently(p: string, m: nat, q: string, n: nat) {
    && |p| <= |q| && |q| - |p| < |Itoa(m)|
    && q == p + Itoa(m)[..|q| - |p|] && Itoa(n) == Itoa(m)[|q| - |p|..]
  }

  lemma SplitMeets(p: string, m: nat, q: string, n: nat)
    requires |p| <= |q|
    ensures p + Itoa(m) == q + Itoa(n) <==> SplitsDifferently(p, m, q, n)
  {
    var k := |q| - |p|;
    if p + Itoa(m) == q + Itoa(n) {
      assert (p + Itoa(m))[..|q|] == q && (q + Itoa(n))[|q|..] == Itoa(n);
      assert |Itoa(m)| == k + |Itoa(n)|;
      assert (p + Itoa(m))[..|q|] == p + Itoa(m)[..k];
      assert (p + Itoa(m))[|q|..] == Itoa(m)[k..];
    }
    if SplitsDifferently(p, m, q, n) {
      assert Itoa(m) == Itoa(m)[..k] + Itoa(m)[k..];
    }
  }

  /** What the scheme puts in front of the number. */
  ghost function Stem(chosen: string, default: string, id: nat): string {
    if id == 0 then "eth" else Prefix(chosen, default)
  }

  /**
    Exactly when two names of the numbered scheme meet: one prefix and number split the name
    differently from the other.
   */
  lemma NumberedNamesMeetExactly(c: string, d: string, default: string, m: nat, n: nat)
    ensures CalculateIfaceName(false, c, default, m) == CalculateIfaceName(false, d, default, n) <==>
      var p, q := Stem(c, default, m), Stem(d, default, n);
      if |p| <= |q| then SplitsDifferently(p, m, q, n) else SplitsDifferently(q, n, p, m)
  {
    NameIsNumbered(c, default, m);
    NameIsNumbered(d, default, n);
    var p, q := Stem(c, default, m), Stem(d, default, n);
    if |p| <= |q| {
      SplitMeets(p, m, q, n);
    } else {
      SplitMeets(q, n, p, m);
    }
  }

  /** The condition on prefixes is needed: "eth" and "eth1" meet at "eth11". */
  lemma DigitPrefixCollides()
    ensures CalculateIfaceName(false, "eth", "eth", 11) == CalculateIfaceName(false, "eth1", "eth", 1)
  {
  }

  /**
    Under the legacy scheme a chosen name stands alone, so two interfaces share a name exactly
    when a chosen name is repeated, or spells a name that the scheme itself gives.
   */
  lemma LegacyNamesMeetExactly(c: string, d: string, default: string, m: nat, n: nat)
    requires m != n && !EndsInDigit(default)
    ensures CalculateIfaceName(true, c, default, m) == CalculateIfaceName(true, d, default, n) <==>
      if m == 0 then d == "eth0"
      else if n == 0 then c == "eth0"
      else if c == "" && d == "" then false
      else if c == "" then d == default + Itoa(m)
      else if d == "" then c == default + Itoa(n)
      else c == d
  {
    assert Itoa(0) == "0";
    assert "eth" + "0" == "eth0";
    forall i: nat, j: nat | i != j ensures default + Itoa(i) != default + Itoa(j) {
      if default + Itoa(i) == default + Itoa(j) {
        PrefixAndNumber(default, default, Itoa(i), Itoa(j));
        ItoaInjective(i, j);
      }
    }
    forall i: nat | i != 0 ensures default + Itoa(i) != "eth" + Itoa(0) {
      if default + Itoa(i) == "eth" + Itoa(0) {
        PrefixAndNumber(default, "eth", Itoa(i), Itoa(0));
        ItoaInjective(i, 0);
      }
    }
  }
}
