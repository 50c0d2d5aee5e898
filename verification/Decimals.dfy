// Decimal numbers in text.
module Decimals {
  import opened Characters
  import opened Wrappers

  predicate IsDigit(c: char) { '0' <= c <= '9' }

  predicate Digits(s: string) { forall i | 0 <= i < |s| :: IsDigit(s[i]) }

  function Decimal(n: nat): (s: string)
    ensures s != "" && Digits(s)
  {
    var last := ['0' + (n % 10) as char];
    if n < 10 then last else Decimal(n / 10) + last
  }

  function Value(s: string): nat
    requires Digits(s)
  {
    if s == "" then 0 else Value(s[..|s| - 1]) * 10 + (s[|s| - 1] as int - '0' as int)
  }

  lemma {:induction false} DecimalValue(n: nat)
    ensures Value(Decimal(n)) == n
  {
    var s := Decimal(n);
    if n >= 10 {
      assert s[..|s| - 1] == Decimal(n / 10);
      DecimalValue(n / 10);
    } else {
      assert s[..0] == "";
    }
  }

  function Zeros(n: nat): (s: string)
    ensures |s| == n && Digits(s)
  {
    if n == 0 then "" else Zeros(n - 1) + "0"
  }

  lemma {:induction false} LeadingZeros(k: nat, s: string)
    requires Digits(s)
    ensures Digits(Zeros(k) + s) && Value(Zeros(k) + s) == Value(s)
    decreases k, |s|
  {
    var z := Zeros(k) + s;
    if s != "" {
      LeadingZeros(k, s[..|s| - 1]);
      assert z[..|z| - 1] == Zeros(k) + s[..|s| - 1];
    } else if k > 0 {
      LeadingZeros(k - 1, "");
      assert z[..k - 1] == Zeros(k - 1) + "" && z[k - 1] == '0';
    }
  }

  function DigitRun(s: string): (n: nat)
    ensures n <= |s| && Digits(s[..n]) && (n < |s| ==> !IsDigit(s[n]))
  {
    if s == "" || !IsDigit(s[0]) then 0
    else
      var n := DigitRun(s[1..]);
      assert s[1..][..n] == s[1..n + 1];
      n + 1
  }

  function SkipBlanks(s: string): string {
    if s != "" && IsSpace(s[0]) then SkipBlanks(s[1..]) else s
  }

  // One decimal conversion, as sscanf's %lld and stoi make it: blanks, an optional sign, and digits.
  // The result is the value and what is left.
  function ScanNumber(s: string): Option<(int, string)> {
    var t := SkipBlanks(s);
    var at := if t != "" && (t[0] == '-' || t[0] == '+') then 1 else 0;
    var n := DigitRun(t[at..]);
    if n == 0 then None
    else
      var v: int := Value(t[at..][..n]);
      Some((if at == 1 && t[0] == '-' then -v else v, t[at + n..]))
  }

  lemma {:induction false} RunOfDigits(d: string, rest: string)
    requires Digits(d) && (rest == "" || !IsDigit(rest[0]))
    ensures DigitRun(d + rest) == |d|
  {
    if d == "" {
      assert d + rest == rest;
    } else {
      assert (d + rest)[1..] == d[1..] + rest;
      RunOfDigits(d[1..], rest);
    }
  }

  lemma ScanDigits(d: string, rest: string)
    requires d != "" && Digits(d) && (rest == "" || !IsDigit(rest[0]))
    ensures ScanNumber(d + rest) == Some((Value(d) as int, rest))
  {
    var s := d + rest;
    RunOfDigits(d, rest);
    assert s[0] == d[0] && IsDigit(d[0]);
    assert s[0..] == s && s[..|d|] == d && s[|d|..] == rest;
    NoBlanks(s);
    hide Value, DigitRun, SkipBlanks;
  }

  lemma NoBlanks(s: string)
    requires s != "" && IsDigit(s[0])
    ensures SkipBlanks(s) == s
  {
  }

  /** A sign is read. */
  lemma SignedNumber(sign: char, d: string, rest: string)
    requires sign in {'-', '+'} && d != "" && Digits(d) && (rest == "" || !IsDigit(rest[0]))
    ensures ScanNumber([sign] + (d + rest)) == Some((if sign == '-' then -(Value(d) as int) else Value(d), rest))
  {
    RunOfDigits(d, rest);
    SignSlices(sign, d, rest);
    hide Value, DigitRun, SkipBlanks, Digits, IsDigit;
  }

  lemma SignSlices(sign: char, d: string, rest: string)
    requires sign in {'-', '+'}
    ensures var s, t := d + rest, [sign] + (d + rest);
            t[1..] == s && s[..|d|] == d && t[1 + |d|..] == rest && SkipBlanks(t) == t
  {
    var s, t := d + rest, [sign] + (d + rest);
    assert t[1 + |d|..] == s[|d|..];
  }

  /** Blanks before a number are passed over. */
  lemma BlankBefore(c: char, s: string)
    ensures c in {' ', '\t', '\n', '\r', '\U{0B}', '\U{0C}'} ==> ScanNumber([c] + s) == ScanNumber(s)
  {
    assert ([c] + s)[1..] == s;
    assert IsSpace(c) ==> SkipBlanks([c] + s) == SkipBlanks(s);
    hide Value, DigitRun, SkipBlanks;
  }
}
