/** Decimal and hexadecimal numerals, as strconv prints and parses them. */
module Numerals {
  type Base = b: nat | b == 10 || b == 16 witness 10

  function DigitChar(d: nat): char
    requires d < 16
  {
    if d < 10 then '0' + d as char else 'a' + (d - 10) as char
  }

  /** The value of a digit in either case, or 16 for any other character. */
  function DigitValue(c: char): (d: nat)
    ensures d <= 16
  {
    if '0' <= c <= '9' then (c - '0') as nat
    else if 'a' <= c <= 'f' then (c - 'a') as nat + 10
    else if 'A' <= c <= 'F' then (c - 'A') as nat + 10
    else 16
  }

  predicate IsNumeral(s: string, base: Base) {
    forall k :: 0 <= k < |s| ==> DigitValue(s[k]) < base
  }

  function Value(s: string, base: Base): nat {
    if s == [] then 0 else Value(s[..|s| - 1], base) * base + DigitValue(s[|s| - 1])
  }

  function Format(n: nat, base: Base): (s: string)
    ensures s != []
    decreases n
  {
    if n < base then [DigitChar(n)]
    else
      assert n / base < n by { Quotient(n, base); }
      Format(n / base, base) + [DigitChar(n % base)]
  }

  lemma Quotient(n: nat, base: Base)
    requires base <= n
    ensures n / base < n
  {
    if base == 10 {
      assert n / 10 < n;
    }
  }

  lemma Division(n: nat, base: Base)
    ensures 0 <= n % base < base && n / base * base + n % base == n
  {
    if base == 10 {
      assert n / 10 * 10 + n % 10 == n;
    }
  }

  lemma DigitInverse(d: nat)
    requires d < 16
    ensures DigitValue(DigitChar(d)) == d
  {
  }

  /** Reading back a number gives the number. */
  lemma {:induction false} ValueFormat(n: nat, base: Base)
    ensures IsNumeral(Format(n, base), base) && Value(Format(n, base), base) == n
    decreases n
  {
    if n < base {
      DigitInverse(n);
      assert [DigitChar(n)][..0] == [];
    } else {
      Quotient(n, base);
      Division(n, base);
      ValueFormat(n / base, base);
      DigitInverse(n % base);
      var s := Format(n, base);
      assert s[..|s| - 1] == Format(n / base, base);
    }
  }

  function Pow(base: Base, e: nat): nat {
    if e == 0 then 1 else Pow(base, e - 1) * base
  }

  /** No leading zeroes: the length of a numeral is bounded by the number. */
  lemma {:induction false} FormatLength(n: nat, base: Base, e: nat)
    requires 1 <= e && n < Pow(base, e)
    ensures |Format(n, base)| <= e
    decreases e
  {
    if n >= base && e > 1 {
      Quotient(n, base);
      if base == 10 {
        assert n / 10 < Pow(10, e - 1);
      } else {
        assert n / 16 < Pow(16, e - 1);
      }
      FormatLength(n / base, base, e - 1);
    } else {
      assert Pow(base, 1) == Pow(base, 0) * base;
    }
  }
}
