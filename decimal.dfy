/**
 * Decimal numerals as the C library reads and writes them: `sprintf("%d")`
 * for the non-negative numbers that build vertex and edge names, and the
 * `%d` conversion of `sscanf` (an optional sign followed by the longest run
 * of digits) used to decode rectangle vertex names.
 */
module Decimal {
  import opened Seqs

  predicate IsDigit(c: char)
  {
    '0' <= c <= '9'
  }

  function DigitChar(d: nat): (c: char)
    requires d < 10
    ensures IsDigit(c)
  {
    ['0', '1', '2', '3', '4', '5', '6', '7', '8', '9'][d]
  }

  function DigitValue(c: char): (d: nat)
    requires IsDigit(c)
    ensures d < 10 && DigitChar(d) == c
  {
    (c as int - '0' as int)
  }

  /** `sprintf(buff, "%d", n)` for n >= 0. */
  function NatToString(n: nat): (s: string)
    ensures |s| >= 1 && forall k :: 0 <= k < |s| ==> IsDigit(s[k])
  {
    if n < 10 then [DigitChar(n)] else NatToString(n / 10) + [DigitChar(n % 10)]
  }

  /** The value of a string of digits, most significant first. */
  function DigitsToNat(s: string): nat
    requires forall k :: 0 <= k < |s| ==> IsDigit(s[k])
  {
    if s == [] then 0 else 10 * DigitsToNat(s[..|s| - 1]) + DigitValue(s[|s| - 1])
  }

  /** Reading back a numeral gives the number it was written from. */
  lemma {:induction false} DigitsOfNatToString(n: nat)
    ensures DigitsToNat(NatToString(n)) == n
  {
    if n >= 10 {
      var s := NatToString(n);
      assert s[..|s| - 1] == NatToString(n / 10);
      DigitsOfNatToString(n / 10);
    }
  }

  /** Different numbers are written differently (so "e%d" names are distinct). */
  lemma NatToStringInjective(a: nat, b: nat)
    requires NatToString(a) == NatToString(b)
    ensures a == b
  {
    DigitsOfNatToString(a);
    DigitsOfNatToString(b);
  }

  /** The number of digits at the front of `s`. */
  function LeadingDigits(s: string): (n: nat)
    ensures n <= |s| && forall k :: 0 <= k < n ==> IsDigit(s[k])
    ensures n < |s| ==> !IsDigit(s[n])
  {
    if s == [] || !IsDigit(s[0]) then 0 else 1 + LeadingDigits(s[1..])
  }

  lemma {:induction false} LeadingDigitsOfNumeral(d: string, rest: string)
    requires forall k :: 0 <= k < |d| ==> IsDigit(d[k])
    requires rest == [] || !IsDigit(rest[0])
    ensures LeadingDigits(d + rest) == |d|
  {
    if d != [] {
      assert (d + rest)[1..] == d[1..] + rest;
      LeadingDigitsOfNumeral(d[1..], rest);
    }
  }

  /**
   * sscanf's `%d`: an optional '+' or '-' and at least one digit. The result
   * holds the value and how many characters were consumed; None when no
   * digit follows. The white space `%d` skips first is not skipped here.
   */
  function ScanInt(s: string): (r: Option<(int, nat)>)
    ensures r.Some? ==> 1 <= r.value.1 <= |s|
  {
    var signed := |s| > 0 && (s[0] == '-' || s[0] == '+');
    var body := if signed then s[1..] else s;
    var n := LeadingDigits(body);
    if n == 0 then None
    else
      var v: int := DigitsToNat(body[..n]);
      var value: int := if signed && s[0] == '-' then -v else v;
      Some((value, n + (if signed then 1 else 0)))
  }

  /** `%d` reads back what `%d` wrote, and stops where the numeral ends. */
  lemma ScanNatToString(n: nat, rest: string)
    requires rest == [] || !IsDigit(rest[0])
    ensures ScanInt(NatToString(n) + rest) == Some((n, |NatToString(n)|))
  {
    var d := NatToString(n);
    var s := d + rest;
    assert s[0] != '-' && s[0] != '+' by {
      assert s[0] == d[0];
    }
    assert LeadingDigits(s) == |d| by {
      LeadingDigitsOfNumeral(d, rest);
    }
    assert DigitsToNat(s[..|d|]) == n by {
      assert s[..|d|] == d;
      DigitsOfNatToString(n);
    }
  }

  /** `%d` reads a minus sign followed by a numeral as the negated number. */
  lemma ScanNegated(n: nat, rest: string)
    requires rest == [] || !IsDigit(rest[0])
    ensures ScanInt(['-'] + (NatToString(n) + rest)) == Some((-(n as int), |NatToString(n)| + 1))
  {
    var body := NatToString(n) + rest;
    ScanNatToString(n, rest);
    assert IsDigit(body[0]) by {
      assert body[0] == NatToString(n)[0];
    }
    ScanMinus(body, n, |NatToString(n)|);
  }

  /** A minus sign in front of an unsigned numeral negates what `%d` reads. */
  lemma ScanMinus(body: string, v: int, used: nat)
    requires |body| > 0 && IsDigit(body[0]) && ScanInt(body) == Some((v, used))
    ensures ScanInt(['-'] + body) == Some((-v, used + 1))
  {
    var s := ['-'] + body;
    assert s[0] == '-' && s[1..] == body;
  }
}
