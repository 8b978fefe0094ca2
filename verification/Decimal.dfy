/** Decimal notation of integers, as `%d` prints and scans it. */
module Decimal {
  import opened Wrappers
  import opened Text

  predicate IsDigit(c: char) { '0' <= c <= '9' }

  function DigitChar(d: nat): char
    requires d < 10
  {
    '0' + d as char
  }

  function DigitValue(c: char): nat
    requires IsDigit(c)
  {
    (c - '0') as nat
  }

  function Digits(n: nat): string {
    if n < 10 then [DigitChar(n)] else Digits(n / 10) + [DigitChar(n % 10)]
  }

  function IntText(i: int): string { if i < 0 then "-" + Digits(-i) else Digits(i) }

  function ValueOf(s: string): nat
    requires All(s, IsDigit)
  {
    if s == "" then 0 else 10 * ValueOf(s[..|s| - 1]) + DigitValue(s[|s| - 1])
  }

  /** Length of the longest run of digits at the front. */
  function DigitRun(s: string): (n: nat)
    ensures n <= |s| && All(s[..n], IsDigit) && (n < |s| ==> !IsDigit(s[n]))
  {
    if s == "" || !IsDigit(s[0]) then 0
    else
      var n := DigitRun(s[1..]);
      assert s[..n + 1] == [s[0]] + s[1..][..n];
      n + 1
  }

  /** An optional sign and at least one digit; what follows is returned. */
  function ScanInt(s: string): Option<(int, string)> {
    var signed := s != "" && (s[0] == '-' || s[0] == '+');
    var body := if signed then s[1..] else s;
    var n := DigitRun(body);
    if n == 0 then None
    else
      var v: int := ValueOf(body[..n]);
      Some((if signed && s[0] == '-' then -v else v, body[n..]))
  }

  lemma {:induction false} DigitsRoundTrip(n: nat)
    ensures Digits(n) != "" && All(Digits(n), IsDigit) && ValueOf(Digits(n)) == n
  {
    if n >= 10 {
      DigitsRoundTrip(n / 10);
      assert Digits(n)[..|Digits(n)| - 1] == Digits(n / 10);
    }
  }

  lemma {:induction false} DigitRunOf(digits: string, rest: string)
    requires All(digits, IsDigit) && (rest != "" ==> !IsDigit(rest[0]))
    ensures DigitRun(digits + rest) == |digits|
  {
    if digits == "" {
      assert digits + rest == rest;
    } else {
      assert (digits + rest)[1..] == digits[1..] + rest;
      DigitRunOf(digits[1..], rest);
    }
  }

  /** Scanning a printed integer gives it back, whatever non-digit text follows. */
  lemma IntTextRoundTrip(i: int, rest: string)
    requires rest != "" ==> !IsDigit(rest[0])
    ensures ScanInt(IntText(i) + rest) == Some((i, rest))
  {
    hide Digits, DigitRun, ValueOf;
    var digits := Digits(if i < 0 then -i else i);
    DigitsRoundTrip(if i < 0 then -i else i);
    DigitRunOf(digits, rest);
    var s := IntText(i) + rest;
    if i < 0 {
      assert s[1..] == digits + rest;
    } else {
      assert s[0] == digits[0];
    }
    assert (digits + rest)[..|digits|] == digits && (digits + rest)[|digits|..] == rest;
  }

  lemma {:induction false} DigitsInjective(m: nat, n: nat)
    requires Digits(m) == Digits(n)
    ensures m == n
  {
    DigitsRoundTrip(m);
    DigitsRoundTrip(n);
  }
}
