/** Python's `str(i)` for a non-negative integer: its canonical decimal
    numeral, used as the suffix of every level label. */
module Decimal {

  predicate IsDigit(c: char)
  {
    '0' <= c <= '9'
  }

  function DigitChar(d: nat): (c: char)
    requires d < 10
    ensures IsDigit(c)
  {
    ('0' as int + d) as char
  }

  function DigitValue(c: char): (d: nat)
    requires IsDigit(c)
    ensures d < 10
  {
    c as int - '0' as int
  }

  /** Every character is a digit and there is no leading zero, except in "0" itself. */
  predicate Canonical(s: string)
  {
    && |s| >= 1
    && (forall i :: 0 <= i < |s| ==> IsDigit(s[i]))
    && (|s| > 1 ==> s[0] != '0')
  }

  /** The decimal numeral of `n`, most significant digit first. */
  function Str(n: nat): (s: string)
    ensures Canonical(s)
    ensures n == 0 <==> s == "0"
  {
    if n < 10 then [DigitChar(n)]
    else Str(n / 10) + [DigitChar(n % 10)]
  }

  /** The value a string of digits denotes. */
  function Value(s: string): nat
    requires forall i :: 0 <= i < |s| ==> IsDigit(s[i])
  {
    if |s| == 0 then 0
    else Value(s[..|s| - 1]) * 10 + DigitValue(s[|s| - 1])
  }

  /** Reading back the numeral `Str` writes gives the number. */
  lemma {:induction false} ValueOfStr(n: nat)
    ensures Value(Str(n)) == n
  {
    if n >= 10 {
      var s := Str(n);
      assert s[..|s| - 1] == Str(n / 10);
      ValueOfStr(n / 10);
    }
  }

  /** Distinct numbers have distinct numerals. */
  lemma StrInjective(m: nat, n: nat)
    requires Str(m) == Str(n)
    ensures m == n
  {
    ValueOfStr(m);
    ValueOfStr(n);
  }

  lemma {:induction false} LeadingNonzeroPositive(s: string)
    requires |s| >= 1 && s[0] != '0'
    requires forall i :: 0 <= i < |s| ==> IsDigit(s[i])
    ensures Value(s) > 0
    decreases |s|
  {
    if |s| > 1 {
      LeadingNonzeroPositive(s[..|s| - 1]);
    }
  }

  /** Appending digit `d` to the numeral of `q` denotes `q * 10 + d`, and
      division by ten takes it apart again. */
  lemma AppendDigit(q: nat, d: nat)
    requires d < 10
    ensures (q * 10 + d) / 10 == q && (q * 10 + d) % 10 == d
  {
  }

  /** Every canonical numeral is the one `Str` writes for its value, so `Str`
      is a bijection between numbers and canonical numerals. */
  lemma {:induction false} StrOfValue(s: string)
    requires Canonical(s)
    ensures Str(Value(s)) == s
    decreases |s|
  {
    if |s| > 1 {
      var p, c := s[..|s| - 1], s[|s| - 1];
      var d := DigitValue(c);
      assert s == p + [c];
      assert Value(s) == Value(p) * 10 + d;
      StrOfValue(p);
      LeadingNonzeroPositive(p);
      AppendDigit(Value(p), d);
      assert DigitChar(d) == c;
      assert Str(Value(s)) == Str(Value(p)) + [DigitChar(d)];
    }
  }
}
