/** The shape shared by the student and teacher code generators:
    `${prefix}${year.toString().slice(-2)}${(count + 1).toString().padStart(width, '0')}`. */
module Codes {
  import opened Text

  function YearCode(prefix: string, year: nat, count: nat, width: nat): string {
    prefix + LastTwo(Decimal(year)) + PadStart(Decimal(count + 1), width, '0')
  }

  /** Whatever the year, the code is the prefix followed only by digits, at
      least one for the year and at least `width` for the count. */
  lemma YearCodeDigits(prefix: string, year: nat, count: nat, width: nat)
    ensures var r := YearCode(prefix, year, count, width);
      |r| >= |prefix| + 1 + width && r[..|prefix|] == prefix
      && forall i :: |prefix| <= i < |r| ==> IsDigit(r[i])
  {
    var y, n := LastTwo(Decimal(year)), PadStart(Decimal(count + 1), width, '0');
    LastTwoOfDigits(Decimal(year));
    PaddedDigits(Decimal(count + 1), width);
    var r := prefix + y + n;
    forall i | |prefix| <= i < |r| ensures IsDigit(r[i]) {
      if i < |prefix| + |y| {
        assert r[i] == y[i - |prefix|];
      } else {
        assert r[i] == n[i - |prefix| - |y|];
      }
    }
  }


  /** The code starts with the prefix; for a year of at least two digits the next
      two characters read as the year modulo 100 and the rest reads as
      `count + 1`. */
  lemma YearCodeParts(prefix: string, year: nat, count: nat, width: nat)
    requires year >= 10
    ensures var r := YearCode(prefix, year, count, width);
      |r| >= |prefix| + 2 && r[..|prefix|] == prefix
      && r[|prefix|..|prefix| + 2] == LastTwo(Decimal(year))
      && r[|prefix| + 2..] == PadStart(Decimal(count + 1), width, '0')
  {
    YearDigits(year);
  }

  lemma YearCodeValues(prefix: string, year: nat, count: nat, width: nat)
    requires year >= 10
    ensures var r := YearCode(prefix, year, count, width);
      |r| >= |prefix| + 2
      && (forall i :: |prefix| <= i < |r| ==> IsDigit(r[i]))
      && DecimalValue(r[|prefix|..|prefix| + 2]) == year % 100
      && DecimalValue(r[|prefix| + 2..]) == count + 1
  {
    var yy := LastTwo(Decimal(year));
    var n := PadStart(Decimal(count + 1), width, '0');
    YearDigits(year);
    PaddedDecimalRoundTrip(count + 1, width);
    Digits3(prefix, yy, n);
  }

  lemma Digits3(a: string, b: string, c: string)
    requires |b| == 2
    requires forall i :: 0 <= i < |b| ==> IsDigit(b[i])
    requires forall i :: 0 <= i < |c| ==> IsDigit(c[i])
    ensures var r := a + b + c;
      (forall i :: |a| <= i < |r| ==> IsDigit(r[i]))
      && r[|a|..|a| + 2] == b && r[|a| + 2..] == c
  {
    var r := a + b + c;
    forall i | |a| <= i < |r| ensures IsDigit(r[i]) {
      if i < |a| + 2 { assert r[i] == b[i - |a|]; } else { assert r[i] == c[i - |a| - 2]; }
    }
    assert r[|a|..|a| + 2] == b;
    assert r[|a| + 2..] == c;
  }

  /** The suffix has at least `width` digits, and exactly `width` when
      `count + 1` has no more. */
  lemma YearCodeLength(prefix: string, year: nat, count: nat, width: nat)
    requires year >= 10
    ensures |YearCode(prefix, year, count, width)| >= |prefix| + 2 + width
    ensures width >= 1 && count + 1 < Pow10(width) ==> |YearCode(prefix, year, count, width)| == |prefix| + 2 + width
  {
    YearDigits(year);
    if width >= 1 && count + 1 < Pow10(width) {
      DecimalLength(count + 1, width);
    }
  }

  /** Different counts give different codes in the same year. */
  lemma YearCodeInjective(prefix: string, year: nat, c1: nat, c2: nat, width: nat)
    requires year >= 10 && c1 != c2
    ensures YearCode(prefix, year, c1, width) != YearCode(prefix, year, c2, width)
  {
    YearCodeValues(prefix, year, c1, width);
    YearCodeValues(prefix, year, c2, width);
  }

  /** A code whose prefix has no lower-case letter is unchanged by the
      `uppercase` setter. */
  lemma YearCodeUppercase(prefix: string, year: nat, count: nat, width: nat)
    requires ToUpper(prefix) == prefix
    ensures ToUpper(YearCode(prefix, year, count, width)) == YearCode(prefix, year, count, width)
  {
    var yy := LastTwo(Decimal(year));
    var n := PadStart(Decimal(count + 1), width, '0');
    var r := prefix + yy + n;
    PaddedDecimalRoundTrip(count + 1, width);
    forall i | 0 <= i < |r| ensures UpperChar(r[i]) == r[i] {
      if i < |prefix| {
        assert r[i] == prefix[i] == ToUpper(prefix)[i];
      } else if i < |prefix| + |yy| {
        assert r[i] == yy[i - |prefix|];
        assert yy[i - |prefix|] == Decimal(year)[|Decimal(year)| - |yy| + i - |prefix|];
      } else {
        assert r[i] == n[i - |prefix| - |yy|];
      }
    }
  }
}
