/** Decimal text of natural numbers, without leading zeros. */
module Decimal {

  predicate IsDigit(c: char) { '0' <= c <= '9' }

  predicate AllDigits(s: string) { forall i :: 0 <= i < |s| ==> IsDigit(s[i]) }

  function DigitChar(d: nat): (c: char)
    requires d < 10
    ensures IsDigit(c)
  {
    '0' + d as char
  }

  function DigitValue(c: char): (d: nat)
    requires IsDigit(c)
    ensures d < 10
  {
    (c - '0') as nat
  }

  function Show(n: nat): (s: string)
    ensures s != [] && AllDigits(s)
  {
    if n < 10 then [DigitChar(n)] else Show(n / 10) + [DigitChar(n % 10)]
  }

  /** Python's `int` on a string of digits. */
  function Value(s: string): nat
    requires AllDigits(s)
  {
    if s == [] then 0 else 10 * Value(s[..|s| - 1]) + DigitValue(s[|s| - 1])
  }

  /** The regular expression `0|[1-9][0-9]*`. */
  predicate Canonical(s: string) {
    s == "0" || (s != [] && s[0] != '0' && AllDigits(s))
  }

  lemma {:induction false} ShowValue(n: nat)
    ensures Value(Show(n)) == n && Canonical(Show(n)) && (n > 0 ==> Show(n)[0] != '0')
  {
    if n < 10 {
      assert Show(n)[..0] == [];
    } else {
      ShowValue(n / 10);
      var s := Show(n);
      assert s[..|s| - 1] == Show(n / 10);
    }
  }

  lemma {:induction false} ValueShow(s: string)
    requires Canonical(s)
    ensures Show(Value(s)) == s && (s != "0" ==> Value(s) > 0)
  {
    if |s| == 1 {
      assert s[..0] == [];
      assert s == [s[0]];
    } else {
      var init := s[..|s| - 1];
      ValueShow(init);
      assert s == init + [s[|s| - 1]];
      assert Value(s) / 10 == Value(init) && Value(s) % 10 == DigitValue(s[|s| - 1]);
    }
  }

  /** The format `%02d`. */
  function ShowTwoDigits(n: nat): string {
    if n < 10 then ['0'] + Show(n) else Show(n)
  }

  /** The number itself, padded with a zero to two digits if it has one. */
  lemma ShowTwoDigitsExact(n: nat)
    ensures AllDigits(ShowTwoDigits(n)) && Value(ShowTwoDigits(n)) == n
    ensures |ShowTwoDigits(n)| == if n < 100 then 2 else |Show(n)|
  {
    ShowValue(n);
    if n < 10 {
      var s := ['0'] + Show(n);
      assert s[..1] == ['0'] && s[..1][..0] == [];
    } else if n < 100 {
      assert |Show(n / 10)| == 1;
    }
  }

  lemma ShowTwoDigitsInjective(a: nat, b: nat)
    requires ShowTwoDigits(a) == ShowTwoDigits(b)
    ensures a == b
  {
    ShowValue(a);
    ShowValue(b);
    assert a < 10 <==> ShowTwoDigits(a)[0] == '0';
    if a < 10 {
      assert Show(a) == ShowTwoDigits(a)[1..] && Show(b) == ShowTwoDigits(b)[1..];
    }
  }
}
