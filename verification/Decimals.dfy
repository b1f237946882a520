/** Decimal numerals, as written by itoa and fmt's %d and read back by fmt's scanner. */
module Decimals {

  predicate IsDigit(c: char) { '0' <= c <= '9' }

  function Digit(d: nat): char
    requires d < 10
  {
    '0' + d as char
  }

  function Value(s: string): nat
    requires forall c | c in s :: IsDigit(c)
  {
    if s == "" then 0
    else
      assert IsDigit(s[|s| - 1]);
      Value(s[..|s| - 1]) * 10 + (s[|s| - 1] as int - '0' as int)
  }

  function Decimal(n: nat): string
  {
    if n < 10 then [Digit(n)] else Decimal(n / 10) + [Digit(n % 10)]
  }

  /** A numeral is a non-empty digit string that reads back as its number. */
  lemma {:induction false} DecimalReads(n: nat)
    ensures Decimal(n) != ""
    ensures forall c | c in Decimal(n) :: IsDigit(c)
    ensures Value(Decimal(n)) == n
  {
    if n >= 10 {
      DecimalReads(n / 10);
      var s := Decimal(n);
      assert s[..|s| - 1] == Decimal(n / 10);
    } else {
      assert Decimal(n)[..0] == "";
    }
  }

  /** Numerals are read from left to right: the first digit counts for the most. */
  lemma {:induction false} ValueIsPositional(c: char, s: string)
    requires IsDigit(c) && forall d | d in s :: IsDigit(d)
    ensures Value([c] + s) == (c as int - '0' as int) * Pow10(|s|) + Value(s)
  {
    if s == "" {
      assert ([c] + s)[..0] == "";
    } else {
      var front, last := s[..|s| - 1], s[|s| - 1];
      assert last in s && forall d | d in front :: d in s;
      ValueIsPositional(c, front);
      assert ([c] + s)[..|s|] == [c] + front && ([c] + s)[|s|] == last;
      TimesTen(c as int - '0' as int, Pow10(|front|), Value(front));
    }
  }

  lemma TimesTen(d: int, p: int, v: int)
    ensures (d * p + v) * 10 == d * (10 * p) + v * 10
  {
  }

  /** And written without leading zeros. */
  lemma {:induction false} NoLeadingZero(n: nat)
    ensures Decimal(n) != "" && (n > 0 ==> Decimal(n)[0] != '0')
    ensures n < 10 ==> Decimal(n) == ["0123456789"[n]]
  {
    if n >= 10 { NoLeadingZero(n / 10); }
  }

  lemma DecimalInjective(i: nat, j: nat)
    requires Decimal(i) == Decimal(j)
    ensures i == j
  {
    DecimalReads(i);
    DecimalReads(j);
  }

  lemma {:induction false} DecimalLength(n: nat, bound: nat, digits: nat)
    requires n < bound && bound == Pow10(digits) && digits > 0
    ensures |Decimal(n)| <= digits
  {
    if n >= 10 {
      DecimalLength(n / 10, bound / 10, digits - 1);
    }
  }

  function Pow10(k: nat): nat { if k == 0 then 1 else 10 * Pow10(k - 1) }

  /** itoa: prepends digits until nothing is left. */
  method Itoa(i: int) returns (s: string)
    ensures s == if i < 0 then "" else Decimal(i)
  {
    if i == 0 {
      return "0";
    }
    s := "";
    var rest := i;
    while rest > 0
      invariant i < 0 ==> rest == i && s == ""
      invariant i > 0 ==> rest >= 0 && Decimal(i) == (if rest == 0 then "" else Decimal(rest)) + s
    {
      s := [Digit(rest % 10)] + s;
      rest := rest / 10;
    }
  }
}
