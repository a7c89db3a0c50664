/**
 What a printed bit rate stands for: the text is read as a decimal number of six places and a unit, and the rate
 is the number times the unit.
 */
module RateReading {
  import opened Options
  import opened QosRequirements
  import Text

  /** Millionths of a unit, and the unit in bits per second. */
  datatype Rate = Rate(millionths: nat, unit: nat)

  predicate IsUnit(u: nat) {
    u == 1 || u == 1_000 || u == 1_000_000 || u == 1_000_000_000 || u == 1_000_000_000_000
  }

  function UnitOf(text: string): (u: Option<nat>)
    ensures u.Some? ==> IsUnit(u.value)
  {
    if text == "bps" then Some(1)
    else if text == "Kbps" then Some(1_000)
    else if text == "Mbps" then Some(1_000_000)
    else if text == "Gbps" then Some(1_000_000_000)
    else if text == "Tbps" then Some(1_000_000_000_000)
    else None
  }

  /** Position of the first c, or the length. */
  function Position(s: string, c: char): (n: nat)
    ensures n <= |s| && (n < |s| ==> s[n] == c) && c !in s[..n]
  {
    if s == "" || s[0] == c then 0 else 1 + Position(s[1..], c)
  }

  /** Digits, a point, six digits, a space and a unit. */
  function ReadRate(s: string): Option<Rate> {
    var i, j := Position(s, '.'), Position(s, ' ');
    if j >= |s| || j != i + 7 then None else ReadParts(s[..i], s[i + 1..j], s[j + 1..])
  }

  function ReadParts(whole: string, places: string, unit: string): Option<Rate> {
    if !Text.IsDigits(whole, 10) || !Text.IsDigits(places, 10) then None
    else
      var u :- UnitOf(unit);
      Some(Rate(Text.NumeralValue(whole, 10) * 1_000_000 + Text.NumeralValue(places, 10), u))
  }

  lemma {:induction false} PositionIs(x: string, c: char, y: string)
    requires c !in x
    ensures Position(x + ([c] + y), c) == |x|
  {
    if x == "" {
      assert x + ([c] + y) == [c] + y;
    } else {
      assert x[0] in x && (x + ([c] + y))[1..] == x[1..] + ([c] + y);
      PositionIs(x[1..], c, y);
    }
  }

  function Power(base: nat, n: nat): nat {
    if n == 0 then 1 else base * Power(base, n - 1)
  }

  /** A number of at most w digits is printed with exactly w of them. */
  lemma {:induction false} NumeralWidth(n: nat, w: nat)
    requires w >= 1 && n < Power(10, w)
    ensures |Text.Numeral(n, 10, w)| == w
    decreases w
  {
    if w > 1 {
      assert n / 10 < Power(10, w - 1);
      NumeralWidth(n / 10, w - 1);
    } else {
      assert Power(10, 1) == 10 * Power(10, 0);
    }
  }

  lemma SixPlaces(n: nat)
    requires n < 1_000_000
    ensures |Text.Numeral(n, 10, 6)| == 6
  {
    assert Power(10, 1) == 10 && Power(10, 2) == 100 && Power(10, 3) == 1_000;
    assert Power(10, 4) == 10_000 && Power(10, 5) == 100_000 && Power(10, 6) == 1_000_000;
    NumeralWidth(n, 6);
  }

  /** Where the parts of a text of this form are. */
  lemma PartsAre(x: string, y: string, z: string)
    requires '.' !in x && ' ' !in x && ' ' !in y && |y| == 6
    ensures var s := x + ("." + (y + (" " + z)));
      && Position(s, '.') == |x| && Position(s, ' ') == |x| + 7
      && s[..|x|] == x && s[|x| + 1..|x| + 7] == y && s[|x| + 8..] == z
  {
    var s := x + ("." + (y + (" " + z)));
    PositionIs(x, '.', y + (" " + z));
    assert s == (x + "." + y) + ([' '] + z);
    PositionIs(x + "." + y, ' ', z);
  }

  lemma NumberAndUnit(x: string, y: string, z: string)
    requires '.' !in x && ' ' !in x && ' ' !in y && |y| == 6
    ensures ReadRate(x + ("." + (y + (" " + z)))) == ReadParts(x, y, z)
  {
    PartsAre(x, y, z);
    assert |x + ("." + (y + (" " + z)))| == |x| + 8 + |z|;
  }

  lemma UnitRead(bps: nat)
    ensures UnitOf(UnitName(bps)) == Some(Divisor(bps))
  {
    assert |"bps"| == 3 && |"Kbps"| == 4;
    assert "Kbps"[0] == 'K' && "Mbps"[0] == 'M' && "Gbps"[0] == 'G' && "Tbps"[0] == 'T';
  }

  lemma WholeAndPlaces(q: nat)
    ensures q / 1_000_000 * 1_000_000 + q % 1_000_000 == q
  {
  }

  lemma PlacesRead(i: nat, f: nat, q: nat, unit: string)
    requires f < 1_000_000 && q == i * 1_000_000 + f
    ensures ReadRate(Text.Decimal(i) + ("." + (Text.Numeral(f, 10, 6) + (" " + unit)))) ==
            if UnitOf(unit).Some? then Some(Rate(q, UnitOf(unit).value)) else None
  {
    NoMarks(i, 0);
    NoMarks(f, 6);
    SixPlaces(f);
    NumberAndUnit(Text.Decimal(i), Text.Numeral(f, 10, 6), unit);
    PartsRead(i, f, q, unit);
  }

  lemma PartsRead(i: nat, f: nat, q: nat, unit: string)
    requires q == i * 1_000_000 + f
    ensures ReadParts(Text.Decimal(i), Text.Numeral(f, 10, 6), unit) ==
            if UnitOf(unit).Some? then Some(Rate(q, UnitOf(unit).value)) else None
  {
    Text.NumeralReadsBack(i, 10, 0);
    Text.NumeralReadsBack(f, 10, 6);
  }

  lemma TextRead(bps: nat)
    ensures ReadRate(RateText(bps)) == Some(Rate(Millionths(bps), Divisor(bps)))
  {
    var q := Millionths(bps);
    UnitRead(bps);
    WholeAndPlaces(q);
    PlacesRead(q / 1_000_000, q % 1_000_000, q, UnitName(bps));
  }

  /** No number of millionths of the unit is nearer to the rate. */
  predicate Nearest(r: Rate, bps: nat) {
    var off: int := 2 * (r.millionths * r.unit - 1_000_000 * bps);
    -(r.unit as int) <= off <= r.unit
  }

  /** The largest unit that is not above the rate, or one bit per second. */
  predicate LargestUnit(u: nat, bps: nat) {
    IsUnit(u) && (u <= bps || u == 1) && forall v: nat :: IsUnit(v) && v <= bps ==> v <= u
  }

  predicate StandsFor(r: Rate, bps: nat) {
    Nearest(r, bps) && LargestUnit(r.unit, bps)
  }

  /** The text of a rate reads back as that rate, to the nearest millionth of the largest unit that is not above it. */
  lemma RateReadsBack(bps: nat)
    ensures ReadRate(RateText(bps)).Some? && StandsFor(ReadRate(RateText(bps)).value, bps)
  {
    TextRead(bps);
    MillionthsStandFor(bps);
  }

  lemma MillionthsStandFor(bps: nat)
    ensures StandsFor(Rate(Millionths(bps), Divisor(bps)), bps)
  {
    Rounded(bps, Divisor(bps));
    DivisorIsLargest(bps);
  }

  lemma DivisorIsLargest(bps: nat)
    ensures LargestUnit(Divisor(bps), bps)
  {
  }

  lemma Rounded(bps: nat, d: nat)
    requires d > 0
    ensures Nearest(Rate((2 * bps * 1_000_000 + d) / (2 * d), d), bps)
  {
    var n := 2 * bps * 1_000_000 + d;
    var p := n / (2 * d);
    assert n == p * (2 * d) + n % (2 * d) && n % (2 * d) < 2 * d;
    assert 2 * (p * d) == p * (2 * d);
  }

  // ---------- Whole bits per second ----------

  /** The rate in bits per second. */
  function BitsPerSecond(r: Rate): nat {
    r.millionths * r.unit / 1_000_000
  }

  /** The nearest rate that can be printed: exact below a gigabit, then to the kilobit, and from a terabit on to the megabit. */
  function Printable(bps: nat): nat {
    if bps < 1_000_000_000 then bps
    else if bps < 1_000_000_000_000 then (bps + 500) / 1_000 * 1_000
    else (bps + 500_000) / 1_000_000 * 1_000_000
  }

  lemma RateReadsPrintable(bps: nat)
    ensures ReadRate(RateText(bps)).Some? && BitsPerSecond(ReadRate(RateText(bps)).value) == Printable(bps)
  {
    TextRead(bps);
    if bps < 1_000_000_000 {
      MillionthsOfSmall(bps);
    } else if bps < 1_000_000_000_000 {
      MillionthsOfLarge(bps);
    } else {
      MillionthsOfHuge(bps);
    }
  }

  lemma MillionthsOfHuge(n: nat)
    requires n >= 1_000_000_000_000
    ensures Millionths(n) == (n + 500_000) / 1_000_000
  {
    assert 2 * n * 1_000_000 + 1_000_000_000_000 == 2_000_000 * (n + 500_000);
  }
}
