/**
 Printed numbers. The library formats list positions with "%i", component identifiers with "%i",
 and the identifiers of the radio network with upper-case hexadecimal of a minimum width.
 */
module Text {

  const DIGITS := "0123456789ABCDEF"

  function DigitValue(c: char): nat {
    if '0' <= c <= '9' then (c - '0') as nat
    else if 'A' <= c <= 'F' then (c - 'A') as nat + 10
    else 16
  }

  /** The numeral of n in base 10 or 16, padded on the left with zeros to `width` digits. */
  function Numeral(n: nat, base: nat, width: nat): string
    requires base == 10 || base == 16
    decreases n, width
  {
    if n < base && width <= 1 then [DIGITS[n]]
    else if base == 10 then Numeral(n / 10, 10, if width <= 1 then 0 else width - 1) + [DIGITS[n % 10]]
    else Numeral(n / 16, 16, if width <= 1 then 0 else width - 1) + [DIGITS[n % 16]]
  }

  function NumeralValue(s: string, base: nat): nat {
    if s == "" then 0
    else NumeralValue(s[..|s| - 1], base) * base + DigitValue(s[|s| - 1])
  }

  predicate IsDigits(s: string, base: nat) {
    forall i :: 0 <= i < |s| ==> DigitValue(s[i]) < base
  }

  /** A numeral consists of digits, has the requested width at least, and reads back as its number. */
  lemma {:induction false} NumeralReadsBack(n: nat, base: nat, width: nat)
    requires base == 10 || base == 16
    ensures var s := Numeral(n, base, width);
      && |s| >= 1 && |s| >= width
      && IsDigits(s, base)
      && NumeralValue(s, base) == n
    decreases n, width
  {
    var w := if width <= 1 then 0 else width - 1;
    if n < base && width <= 1 {
      AppendDigit("", n, base);
      assert "" + [DIGITS[n]] == [DIGITS[n]];
    } else if base == 10 {
      NumeralReadsBack(n / 10, 10, w);
      AppendDigit(Numeral(n / 10, 10, w), n % 10, 10);
    } else {
      NumeralReadsBack(n / 16, 16, w);
      AppendDigit(Numeral(n / 16, 16, w), n % 16, 16);
    }
  }

  lemma AppendDigit(s: string, d: nat, base: nat)
    requires base == 10 || base == 16
    requires d < base && IsDigits(s, base)
    ensures IsDigits(s + [DIGITS[d]], base)
    ensures NumeralValue(s + [DIGITS[d]], base) == NumeralValue(s, base) * base + d
  {
    var t := s + [DIGITS[d]];
    assert t[..|t| - 1] == s;
    assert DigitValue(DIGITS[d]) == d;
  }

  /** Only zero is printed with a leading zero when no width is asked for. */
  lemma {:induction false} NoLeadingZero(n: nat, base: nat)
    requires base == 10 || base == 16
    ensures n > 0 ==> Numeral(n, base, 0)[0] != '0'
    decreases n
  {
    if n >= base {
      NoLeadingZero(n / base, base);
      NumeralReadsBack(n / base, base, 0);
    }
  }

  function Decimal(n: nat): string {
    Numeral(n, 10, 0)
  }

  /** "%i" of a possibly negative number. */
  function SignedDecimal(i: int): string {
    if i < 0 then "-" + Decimal(-i) else Decimal(i)
  }

  lemma SignedDecimalInjective(i: int, j: int)
    requires SignedDecimal(i) == SignedDecimal(j)
    ensures i == j
  {
    NumeralReadsBack(if i < 0 then -i else i, 10, 0);
    NumeralReadsBack(if j < 0 then -j else j, 10, 0);
    assert DigitValue('-') == 16;
    if i < 0 {
      assert SignedDecimal(i)[0] == '-';
      assert SignedDecimal(i)[1..] == Decimal(-i);
    }
    if j < 0 {
      assert SignedDecimal(j)[0] == '-';
      assert SignedDecimal(j)[1..] == Decimal(-j);
    }
  }

  lemma NumeralInjective(m: nat, n: nat, base: nat, width: nat)
    requires base == 10 || base == 16
    requires Numeral(m, base, width) == Numeral(n, base, width)
    ensures m == n
  {
    NumeralReadsBack(m, base, width);
    NumeralReadsBack(n, base, width);
  }
}
