/** String helpers shared by the two pages: the ordering that stands in for
    `String.prototype.localeCompare`, the case mappings that stand in for
    `toUpperCase` / `toLowerCase`, and the decimal rendering that template
    literals apply to a number. */
module Text {

  /** Three-way comparison of two strings, character code by character code;
      a proper prefix sorts first. Returns -1, 0 or 1 like `localeCompare`. */
  function Compare(a: string, b: string): (r: int)
    ensures -1 <= r <= 1
    ensures r == 0 <==> a == b
  {
    if a == [] && b == [] then 0
    else if a == [] then -1
    else if b == [] then 1
    else if a[0] < b[0] then -1
    else if a[0] > b[0] then 1
    else
      var r := Compare(a[1..], b[1..]);
      assert a == [a[0]] + a[1..] && b == [b[0]] + b[1..];
      r
  }

  /** Swapping the operands negates the comparison. */
  lemma {:induction false} CompareAntisymmetric(a: string, b: string)
    ensures Compare(b, a) == -Compare(a, b)
  {
    if a != [] && b != [] && a[0] == b[0] {
      CompareAntisymmetric(a[1..], b[1..]);
    }
  }

  /** "Sorts no later than" is transitive. */
  lemma {:induction false} CompareTransitive(a: string, b: string, c: string)
    requires Compare(a, b) <= 0 && Compare(b, c) <= 0
    ensures Compare(a, c) <= 0
  {
    if a != [] && b != [] && c != [] && a[0] == b[0] == c[0] {
      CompareTransitive(a[1..], b[1..], c[1..]);
    }
  }

  // ---------------------------------------------------------------------
  // Clock times

  predicate IsDigit(c: char) { '0' <= c <= '9' }

  function DigitValue(c: char): nat
    requires IsDigit(c)
  {
    c as int - '0' as int
  }

  /** A zero-padded 24-hour "HH:MM" time such as "08:30". */
  predicate IsClockTime(t: string) {
    |t| == 5 && IsDigit(t[0]) && IsDigit(t[1]) && t[2] == ':' &&
    '0' <= t[3] <= '5' && IsDigit(t[4])
  }

  /** Minutes since midnight of a clock time. */
  function MinutesOfDay(t: string): nat
    requires IsClockTime(t)
  {
    (10 * DigitValue(t[0]) + DigitValue(t[1])) * 60 + 10 * DigitValue(t[3]) + DigitValue(t[4])
  }

  /** On zero-padded clock times the string order is chronological order. */
  lemma ClockOrderIsChronological(s: string, t: string)
    requires IsClockTime(s) && IsClockTime(t)
    ensures Compare(s, t) <= 0 <==> MinutesOfDay(s) <= MinutesOfDay(t)
  {
    var hs, ht := 10 * DigitValue(s[0]) + DigitValue(s[1]), 10 * DigitValue(t[0]) + DigitValue(t[1]);
    var ms, mt := 10 * DigitValue(s[3]) + DigitValue(s[4]), 10 * DigitValue(t[3]) + DigitValue(t[4]);
    assert ms < 60 && mt < 60;
    assert MinutesOfDay(s) == hs * 60 + ms && MinutesOfDay(t) == ht * 60 + mt;
    assert MinutesOfDay(s) <= MinutesOfDay(t) <==> hs < ht || (hs == ht && ms <= mt);
    if s[0] == t[0] {
      assert Compare(s, t) == Compare(s[1..], t[1..]);
      if s[1] == t[1] {
        assert Compare(s[1..], t[1..]) == Compare(s[2..], t[2..]);
        assert Compare(s[2..], t[2..]) == Compare(s[3..], t[3..]);
        if s[3] == t[3] {
          assert Compare(s[3..], t[3..]) == Compare(s[4..], t[4..]);
        }
      }
    }
  }

  // ---------------------------------------------------------------------
  // Case mapping

  function UpperChar(c: char): char {
    if 'a' <= c <= 'z' then (c as int - 32) as char else c
  }

  function LowerChar(c: char): char {
    if 'A' <= c <= 'Z' then (c as int + 32) as char else c
  }

  function ToUpper(s: string): string {
    seq(|s|, i requires 0 <= i < |s| => UpperChar(s[i]))
  }

  function ToLower(s: string): string {
    seq(|s|, i requires 0 <= i < |s| => LowerChar(s[i]))
  }

  /** The two mappings identify exactly the same pairs of characters. */
  lemma SameLetterEitherWay(c: char, d: char)
    ensures UpperChar(c) == UpperChar(d) <==> LowerChar(c) == LowerChar(d)
  {
  }

  /** `a` and `b` spell the same text when letter case is disregarded. */
  predicate EqualIgnoringCase(a: string, b: string) {
    |a| == |b| && forall i :: 0 <= i < |a| ==> UpperChar(a[i]) == UpperChar(b[i])
  }

  /** Upper-casing `s` yields the upper-case text `t` exactly when `s` and `t`
      are equal up to case: no trimming, padding or partial match. */
  lemma ToUpperEqualsIff(s: string, t: string)
    requires ToUpper(t) == t
    ensures ToUpper(s) == t <==> EqualIgnoringCase(s, t)
  {
  }

  /** Lower-casing `s` yields the lower-case text `t` exactly when `s` and `t`
      are equal up to case. */
  lemma ToLowerEqualsIff(s: string, t: string)
    requires ToLower(t) == t
    ensures ToLower(s) == t <==> EqualIgnoringCase(s, t)
  {
  }

  // ---------------------------------------------------------------------
  // Decimal rendering of a non-negative integer

  function DigitChar(d: nat): (c: char)
    requires d < 10
    ensures IsDigit(c) && DigitValue(c) == d
  {
    ('0' as int + d) as char
  }

  /** The digits a template literal prints for `n`, without leading zeros. */
  function NatToString(n: nat): string {
    if n < 10 then [DigitChar(n)] else NatToString(n / 10) + [DigitChar(n % 10)]
  }

  predicate AllDigits(s: string) {
    forall i :: 0 <= i < |s| ==> IsDigit(s[i])
  }

  /** The number a string of decimal digits denotes. */
  function DigitsValue(s: string): nat
    requires AllDigits(s)
  {
    if s == [] then 0 else 10 * DigitsValue(s[..|s| - 1]) + DigitValue(s[|s| - 1])
  }

  /** The rendering is a non-empty string of digits that reads back as `n`. */
  lemma {:induction false} NatToStringRoundTrip(n: nat)
    ensures NatToString(n) != [] && AllDigits(NatToString(n))
    ensures DigitsValue(NatToString(n)) == n
  {
    if n >= 10 {
      NatToStringRoundTrip(n / 10);
      var s := NatToString(n);
      assert s[..|s| - 1] == NatToString(n / 10);
    }
  }

  /** A positive number's rendering does not start with a zero. */
  lemma {:induction false} NatToStringNoLeadingZero(n: nat)
    ensures n >= 1 ==> NatToString(n)[0] != '0'
  {
    if n >= 10 {
      NatToStringNoLeadingZero(n / 10);
      NatToStringRoundTrip(n / 10);
      assert NatToString(n)[0] == NatToString(n / 10)[0];
    }
  }

  /** Distinct numbers render as distinct strings. */
  lemma NatToStringInjective(m: nat, n: nat)
    requires NatToString(m) == NatToString(n)
    ensures m == n
  {
    NatToStringRoundTrip(m);
    NatToStringRoundTrip(n);
  }

  /** A run of digits followed by text that starts with a space can be split
      back into the two parts. */
  lemma DigitPrefixUnique(d1: string, t1: string, d2: string, t2: string)
    requires AllDigits(d1) && AllDigits(d2)
    requires t1 != [] && t1[0] == ' ' && t2 != [] && t2[0] == ' '
    requires d1 + t1 == d2 + t2
    ensures d1 == d2 && t1 == t2
  {
    assert (d1 + t1)[|d1|] == ' ' && (d2 + t2)[|d2|] == ' ';
    assert d1 == (d1 + t1)[..|d1|];
    assert d2 == (d2 + t2)[..|d2|];
    assert t1 == (d1 + t1)[|d1|..];
    assert t2 == (d2 + t2)[|d2|..];
  }
}
