/** Natural numbers as decimal text, as Python's `str` and `int` write and read them. */
module Decimal {

  predicate IsDigit(c: char) { '0' <= c <= '9' }

  predicate AllDigits(s: string) { forall i :: 0 <= i < |s| ==> IsDigit(s[i]) }

  function DigitChar(d: nat): char
    requires d < 10
  {
    '0' + d as char
  }

  function DigitValue(c: char): nat
    requires IsDigit(c)
  {
    c as int - '0' as int
  }

  function Print(n: nat): (s: string)
    ensures s != "" && AllDigits(s)
  {
    if n < 10 then [DigitChar(n)] else Print(n / 10) + [DigitChar(n % 10)]
  }

  function Parse(s: string): nat
    requires AllDigits(s)
  {
    if s == "" then 0 else Parse(s[..|s| - 1]) * 10 + DigitValue(s[|s| - 1])
  }

  /** Reading back what was printed gives the number. */
  lemma {:induction false} ParsePrint(n: nat)
    ensures Parse(Print(n)) == n
  {
    if n < 10 {
    } else {
      ParsePrint(n / 10);
      assert Print(n)[..|Print(n)| - 1] == Print(n / 10);
    }
  }

  lemma {:induction false} PrintInjective(m: nat, n: nat)
    requires Print(m) == Print(n)
    ensures m == n
  {
    ParsePrint(m);
    ParsePrint(n);
  }

  /** Digits as `str` would write them: not empty, no zero in front of other digits. */
  predicate Canonical(s: string) { AllDigits(s) && s != "" && (s[0] == '0' ==> |s| == 1) }

  lemma {:induction false} ParsePositive(s: string)
    requires AllDigits(s) && s != "" && s[0] != '0'
    ensures Parse(s) > 0
  {
    if |s| <= 1 {
    } else {
      assert s[..|s| - 1][0] == s[0];
      ParsePositive(s[..|s| - 1]);
    }
  }

  lemma {:induction false} PrintStarts(n: nat)
    ensures Print(n)[0] == '0' ==> n == 0 && Print(n) == "0"
  {
    if n < 10 {
    } else {
      PrintStarts(n / 10);
    }
  }

  lemma {:induction false} PrintParseCanonical(s: string)
    requires Canonical(s)
    ensures Print(Parse(s)) == s
  {
    var front, c := s[..|s| - 1], s[|s| - 1];
    assert s == front + [c] && IsDigit(c) && DigitChar(DigitValue(c)) == c;
    if |s| == 1 {
      assert front == "" && s == [c];
    } else {
      assert front[0] == s[0];
      ParsePositive(front);
      PrintParseCanonical(front);
      NextDigit(Parse(front), DigitValue(c));
    }
  }

  lemma {:induction false} NextDigit(n: nat, d: nat)
    requires n > 0 && d < 10
    ensures Print(n * 10 + d) == Print(n) + [DigitChar(d)]
  {
  }

  /** Printing a number that was read gives the digits back exactly if they are canonical. */
  lemma {:induction false} PrintParse(s: string)
    requires AllDigits(s) && s != ""
    ensures Print(Parse(s)) == s <==> Canonical(s)
  {
    if Canonical(s) {
      PrintParseCanonical(s);
    } else {
      PrintStarts(Parse(s));
    }
  }

  lemma {:induction false} PrintNotLonger(s: string)
    requires AllDigits(s) && s != ""
    ensures |Print(Parse(s))| <= |s|
    decreases |s|
  {
    if Canonical(s) {
      PrintParseCanonical(s);
    } else {
      assert s == ['0'] + s[1..];
      LeadingZero(s[1..]);
      PrintNotLonger(s[1..]);
    }
  }

  lemma {:induction false} LeadingZero(s: string)
    requires AllDigits(s)
    ensures AllDigits(['0'] + s) && Parse(['0'] + s) == Parse(s)
  {
    var t := ['0'] + s;
    assert forall i :: 0 < i < |t| ==> t[i] == s[i - 1];
    if s == "" {
      assert t[..0] == "";
    } else {
      LeadingZero(s[..|s| - 1]);
      assert t[..|t| - 1] == ['0'] + s[..|s| - 1];
    }
  }
}
