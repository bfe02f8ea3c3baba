/**
 * Decimal text as JavaScript writes and reads it: `String(n)` for a natural
 * number, and the digit run that `parseInt` and `\d+` consume.
 */
module Decimal {
  predicate IsDigit(c: char) {
    '0' <= c <= '9'
  }

  predicate AllDigits(s: string) {
    forall i :: 0 <= i < |s| ==> IsDigit(s[i])
  }

  function DigitChar(d: nat): (c: char)
    requires d < 10
    ensures IsDigit(c) && DigitOf(c) == d
  {
    ('0' as int + d) as char
  }

  function DigitOf(c: char): (d: nat)
    requires IsDigit(c)
    ensures d < 10
  {
    c as int - '0' as int
  }

  /** `String(n)`. */
  function Print(n: nat): (s: string)
    ensures s != [] && AllDigits(s)
  {
    if n < 10 then [DigitChar(n)] else Print(n / 10) + [DigitChar(n % 10)]
  }

  /** The number a run of digits stands for; leading zeros are allowed. */
  function Value(s: string): nat
    requires AllDigits(s)
  {
    if s == [] then 0 else 10 * Value(s[..|s| - 1]) + DigitOf(s[|s| - 1])
  }

  /** How many leading characters of `s` are digits. */
  function DigitRun(s: string): (n: nat)
    ensures n <= |s|
    ensures AllDigits(s[..n])
    ensures n < |s| ==> !IsDigit(s[n])
  {
    if s == [] || !IsDigit(s[0]) then 0
    else
      var n := 1 + DigitRun(s[1..]);
      assert forall i :: 1 <= i < n ==> s[i] == s[1..][i - 1];
      n
  }

  lemma {:induction false} ValueOfPrint(n: nat)
    ensures Value(Print(n)) == n
  {
    if n >= 10 {
      ValueOfPrint(n / 10);
      assert Print(n)[..|Print(n)| - 1] == Print(n / 10);
    }
  }

  lemma PrintInjective(m: nat, n: nat)
    requires Print(m) == Print(n)
    ensures m == n
  {
    ValueOfPrint(m);
    ValueOfPrint(n);
  }

  /** A printed number followed by anything but a digit is read back whole. */
  lemma {:induction false} DigitRunOfPrefix(digits: string, rest: string)
    requires AllDigits(digits)
    requires rest == [] || !IsDigit(rest[0])
    ensures DigitRun(digits + rest) == |digits|
    ensures (digits + rest)[..|digits|] == digits
  {
    if digits == [] {
      assert digits + rest == rest;
    } else {
      assert (digits + rest)[1..] == digits[1..] + rest;
      DigitRunOfPrefix(digits[1..], rest);
    }
  }

  /** A number below 100 written with two digits: `padStart(2, "0")`. */
  function PrintTwo(n: nat): (s: string)
    requires n < 100
    ensures |s| == 2 && AllDigits(s) && Value(s) == n
  {
    var s := if n < 10 then "0" + Print(n) else Print(n);
    assert n >= 10 ==> Print(n) == Print(n / 10) + [DigitChar(n % 10)];
    assert Value(s[..1]) == n / 10 by { assert s[..1][..0] == []; }
    s
  }
}
