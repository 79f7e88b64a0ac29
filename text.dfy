/** The JavaScript string operations the backend relies on: `trim`, the second
    word of `split(' ')`, `toUpperCase` on letters, decimal `toString` and
    `padStart`. */
module Text {
  import opened Common

  /** The characters `String.prototype.trim` removes (ECMAScript WhiteSpace and
      LineTerminator). */
  predicate IsSpace(c: char) {
    c in Spaces
  }

  const Spaces: set<char> := {
    '\U{9}', '\U{A}', '\U{B}', '\U{C}', '\U{D}', ' ', '\U{A0}', '\U{1680}',
    '\U{2000}', '\U{2001}', '\U{2002}', '\U{2003}', '\U{2004}', '\U{2005}', '\U{2006}', '\U{2007}',
    '\U{2008}', '\U{2009}', '\U{200A}', '\U{2028}', '\U{2029}', '\U{202F}', '\U{205F}', '\U{3000}', '\U{FEFF}'}

  /** The first position at or after `i` that does not hold white space. */
  function LeadFrom(s: string, i: nat): (n: nat)
    requires i <= |s|
    ensures i <= n <= |s| && (n == |s| || !IsSpace(s[n]))
    ensures forall k :: i <= k < n ==> IsSpace(s[k])
    decreases |s| - i
  {
    if i < |s| && IsSpace(s[i]) then LeadFrom(s, i + 1) else i
  }

  /** The last position, down from `j` but not below `lo`, that follows a
      character which is not white space (`lo` when there is none). */
  function TrailTo(s: string, lo: nat, j: nat): (m: nat)
    requires lo <= j <= |s|
    ensures lo <= m <= j && (m == lo || !IsSpace(s[m - 1]))
    ensures forall k :: m <= k < j ==> IsSpace(s[k])
    decreases j
  {
    if lo < j && IsSpace(s[j - 1]) then TrailTo(s, lo, j - 1) else j
  }

  /** The number of white-space characters `trim` removes at the start. */
  function Lead(s: string): (n: nat)
    ensures n <= |s|
  {
    LeadFrom(s, 0)
  }

  /** `s.trim()`: the infix of `s` between its leading and its trailing white
      space; it neither starts nor ends with white space. */
  function Trim(s: string): (r: string)
    ensures |r| <= |s|
    ensures r == [] || (!IsSpace(r[0]) && !IsSpace(r[|r| - 1]))
    ensures Lead(s) + |r| <= |s| && r == s[Lead(s)..Lead(s) + |r|]
    ensures forall i :: 0 <= i < Lead(s) ==> IsSpace(s[i])
    ensures forall i :: Lead(s) + |r| <= i < |s| ==> IsSpace(s[i])
  {
    s[Lead(s)..TrailTo(s, Lead(s), |s|)]
  }

  /** An optional string field declared `trim: true`: the setter stores it trimmed. */
  function TrimField(s: Option<string>): Option<string> {
    if s.Some? then Some(Trim(s.value)) else None
  }

  /** A string is blank exactly when it trims to the empty string. */
  lemma TrimEmpty(s: string)
    ensures Trim(s) == [] <==> forall i :: 0 <= i < |s| ==> IsSpace(s[i])
  {
  }

  /** Trimming twice is trimming once. */
  lemma TrimIdempotent(s: string)
    ensures Trim(Trim(s)) == Trim(s)
  {
    var r := Trim(s);
    assert Lead(r) == 0;
    assert TrailTo(r, 0, |r|) == |r|;
  }

  /** Everything before the first space (all of `s` when it has none). */
  function FirstWord(s: string): (r: string)
    ensures ' ' !in r
    ensures |r| <= |s| && r == s[..|r|]
    ensures |r| < |s| ==> s[|r|] == ' '
  {
    if s == [] || s[0] == ' ' then [] else [s[0]] + FirstWord(s[1..])
  }

  /** `s.split(' ')[1]`: `None` (undefined) when `s` has no space, otherwise the
      text between the first space and the next one, possibly empty. */
  function SecondWord(s: string): (r: Option<string>)
    ensures r.None? <==> ' ' !in s
    ensures r.Some? ==> ' ' !in r.value
  {
    var w := FirstWord(s);
    if |w| == |s| then
      assert s == w;
      None
    else
      Some(FirstWord(s[|w| + 1..]))
  }

  /** Splitting a header built as "<scheme> <token>" gives back the token. */
  lemma {:induction false} SecondWordOfPair(scheme: string, token: string, rest: string)
    requires ' ' !in scheme && ' ' !in token
    requires rest == [] || rest[0] == ' '
    ensures SecondWord(scheme + " " + token + rest) == Some(token)
  {
    var s := scheme + " " + token + rest;
    FirstWordOfSpaceFree(scheme, " " + token + rest);
    assert s[|scheme| + 1..] == token + rest;
    FirstWordOfSpaceFree(token, rest);
  }

  lemma {:induction false} FirstWordOfSpaceFree(a: string, b: string)
    requires ' ' !in a
    requires b == [] || b[0] == ' '
    ensures FirstWord(a + b) == a
  {
    if a != [] {
      assert (a + b)[1..] == a[1..] + b;
      FirstWordOfSpaceFree(a[1..], b);
    }
  }

  /** `toUpperCase` on one character; letters outside ASCII are kept as they are. */
  function UpperChar(c: char): (r: char)
    ensures 'a' <= c <= 'z' ==> 'A' <= r <= 'Z'
    ensures !('a' <= c <= 'z') ==> r == c
  {
    if 'a' <= c <= 'z' then (c as int - 32) as char else c
  }

  function ToUpper(s: string): (r: string)
    ensures |r| == |s|
    ensures forall i :: 0 <= i < |s| ==> r[i] == UpperChar(s[i])
  {
    seq(|s|, i requires 0 <= i < |s| => UpperChar(s[i]))
  }

  lemma ToUpperIdempotent(s: string)
    ensures ToUpper(ToUpper(s)) == ToUpper(s)
  {
  }

  predicate IsDigit(c: char) {
    '0' <= c <= '9'
  }

  function DigitChar(d: nat): (c: char)
    requires d < 10
    ensures IsDigit(c)
  {
    ('0' as int + d) as char
  }

  function DigitValue(c: char): (d: nat)
    requires IsDigit(c)
    ensures d < 10 && DigitChar(d) == c
  {
    c as int - '0' as int
  }

  /** `n.toString()` for a non-negative integer. */
  function Decimal(n: nat): (r: string)
    ensures |r| >= 1
    ensures forall i :: 0 <= i < |r| ==> IsDigit(r[i])
    decreases n
  {
    if n < 10 then [DigitChar(n)] else Decimal(n / 10) + [DigitChar(n % 10)]
  }

  /** The value of a string of digits, read left to right. */
  function DecimalValue(s: string): nat
    requires forall i :: 0 <= i < |s| ==> IsDigit(s[i])
  {
    if s == [] then 0 else DecimalValue(s[..|s| - 1]) * 10 + DigitValue(s[|s| - 1])
  }

  /** Printing and reading a number back gives the number. */
  lemma {:induction false} DecimalRoundTrip(n: nat)
    ensures DecimalValue(Decimal(n)) == n
    decreases n
  {
    if n >= 10 {
      var s := Decimal(n);
      assert s[..|s| - 1] == Decimal(n / 10);
      DecimalRoundTrip(n / 10);
    }
  }

  function Pow10(k: nat): (p: nat)
    ensures p >= 1
  {
    if k == 0 then 1 else 10 * Pow10(k - 1)
  }

  /** A number below 10^k prints with at most k digits, and one at or above 10^(k-1)
      with at least k. */
  lemma {:induction false} DecimalLength(n: nat, k: nat)
    requires k >= 1
    ensures n < Pow10(k) ==> |Decimal(n)| <= k
    ensures n >= Pow10(k - 1) ==> |Decimal(n)| >= k
    decreases n
  {
    if n >= 10 {
      if k >= 2 {
        DecimalLength(n / 10, k - 1);
      } else {
        assert Pow10(1) == 10;
      }
    } else if k >= 2 {
      assert Pow10(k - 1) >= 10 by { Pow10Grows(k - 1); }
    }
  }

  lemma {:induction false} Pow10Grows(k: nat)
    requires k >= 1
    ensures Pow10(k) >= 10
  {
    if k > 1 { Pow10Grows(k - 1); }
  }

  function Repeat(c: char, k: nat): (r: string)
    ensures |r| == k && forall i :: 0 <= i < k ==> r[i] == c
  {
    seq(k, _ => c)
  }

  /** `s.padStart(width, c)`: left-pads to `width`, never truncates. */
  function PadStart(s: string, width: nat, c: char): (r: string)
    ensures |r| == if |s| >= width then |s| else width
    ensures r[|r| - |s|..] == s
    ensures forall i :: 0 <= i < |r| - |s| ==> r[i] == c
  {
    if |s| >= width then s else Repeat(c, width - |s|) + s
  }

  /** Leading zeros do not change the value of a digit string. */
  lemma {:induction false} LeadingZeros(k: nat, s: string)
    requires forall i :: 0 <= i < |s| ==> IsDigit(s[i])
    ensures DecimalValue(Repeat('0', k) + s) == DecimalValue(s)
    decreases |s|
  {
    var z := Repeat('0', k);
    if s == [] {
      assert z + s == z;
      ZerosValue(k);
    } else {
      var t := z + s;
      assert t[..|t| - 1] == z + s[..|s| - 1];
      LeadingZeros(k, s[..|s| - 1]);
    }
  }

  lemma {:induction false} ZerosValue(k: nat)
    ensures DecimalValue(Repeat('0', k)) == 0
  {
    if k > 0 {
      assert Repeat('0', k)[..k - 1] == Repeat('0', k - 1);
      ZerosValue(k - 1);
    }
  }

  /** The last two characters of a run of digits are digits. */
  lemma LastTwoOfDigits(s: string)
    requires forall i :: 0 <= i < |s| ==> IsDigit(s[i])
    ensures forall i :: 0 <= i < |LastTwo(s)| ==> IsDigit(LastTwo(s)[i])
  {
    var t := LastTwo(s);
    forall i | 0 <= i < |t| ensures IsDigit(t[i]) {
      assert t[i] == s[|s| - |t| + i];
    }
  }

  /** Padding a run of digits with zeros leaves a run of digits. */
  lemma PaddedDigits(s: string, width: nat)
    requires forall i :: 0 <= i < |s| ==> IsDigit(s[i])
    ensures forall i :: 0 <= i < |PadStart(s, width, '0')| ==> IsDigit(PadStart(s, width, '0')[i])
  {
    var r := PadStart(s, width, '0');
    forall i | 0 <= i < |r| ensures IsDigit(r[i]) {
      if i >= |r| - |s| {
        assert r[i] == r[|r| - |s|..][i - (|r| - |s|)];
      }
    }
  }

  /** The zero-padded decimal of `n` reads back as `n`. */
  lemma PaddedDecimalRoundTrip(n: nat, width: nat)
    ensures forall i :: 0 <= i < |PadStart(Decimal(n), width, '0')| ==> IsDigit(PadStart(Decimal(n), width, '0')[i])
    ensures DecimalValue(PadStart(Decimal(n), width, '0')) == n
  {
    var d := Decimal(n);
    DecimalRoundTrip(n);
    if |d| < width {
      LeadingZeros(width - |d|, d);
    }
  }

  /** `s.slice(-2)`: the last two characters, or all of a shorter string. */
  function LastTwo(s: string): (r: string)
    ensures |r| == if |s| < 2 then |s| else 2
    ensures r == s[|s| - |r|..]
  {
    if |s| < 2 then s else s[|s| - 2..]
  }

  /** The last character of a decimal is the number's last digit. */
  lemma LastDigit(n: nat)
    ensures Decimal(n)[|Decimal(n)| - 1] == DigitChar(n % 10)
  {
  }

  /** `year.toString().slice(-2)` for a year of two digits or more: two digits
      whose value is the year modulo 100. */
  lemma YearDigits(y: nat)
    requires y >= 10
    ensures |LastTwo(Decimal(y))| == 2
    ensures forall i :: 0 <= i < 2 ==> IsDigit(LastTwo(Decimal(y))[i])
    ensures DecimalValue(LastTwo(Decimal(y))) == y % 100
  {
    var q, d := y / 10, y % 10;
    DecimalStep(y);
    var p := Decimal(q);
    LastDigit(q);
    LastTwoDigits(p, d);
    var t := [DigitChar(q % 10), DigitChar(d)];
    assert LastTwo(Decimal(y)) == t;
    TwoDigitValue(q % 10, d);
    HundredsSplit(y);
  }

  lemma DecimalStep(y: nat)
    requires y >= 10
    ensures Decimal(y) == Decimal(y / 10) + [DigitChar(y % 10)]
  {
  }

  lemma LastTwoDigits(p: string, d: nat)
    requires |p| >= 1 && d < 10
    ensures LastTwo(p + [DigitChar(d)]) == [p[|p| - 1], DigitChar(d)]
  {
  }

  lemma TwoDigitValue(a: nat, b: nat)
    requires a < 10 && b < 10
    ensures DecimalValue([DigitChar(a), DigitChar(b)]) == a * 10 + b
  {
    var t := [DigitChar(a), DigitChar(b)];
    var h := [DigitChar(a)];
    assert t[..1] == h;
    assert h[..0] == [];
    assert DecimalValue(h) == DigitValue(DigitChar(a)) == a;
    assert DecimalValue(t) == DecimalValue(h) * 10 + DigitValue(DigitChar(b));
  }

  lemma HundredsSplit(y: nat)
    ensures y % 100 == ((y / 10) % 10) * 10 + y % 10
  {
    var q := y / 10;
    var r := (q % 10) * 10 + y % 10;
    assert y == 10 * q + y % 10;
    assert q == 10 * (q / 10) + q % 10;
    assert y == 100 * (q / 10) + r;
    assert 0 <= r < 100;
  }
}
