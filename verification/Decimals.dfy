/** Decimal text as Go's fmt prints it with %d, and the number a run of digits denotes. */
module Decimals {

  predicate IsDigit(c: char) {
    '0' <= c <= '9'
  }

  ghost predicate AllDigits(s: string) {
    forall k | 0 <= k < |s| :: IsDigit(s[k])
  }

  function DigitChar(d: nat): (c: char)
    requires d < 10
    ensures IsDigit(c) && DigitValue(c) == d
  {
    ('0' as int + d) as char
  }

  function DigitValue(c: char): (d: nat)
    requires IsDigit(c)
    ensures d < 10
  {
    c as int - '0' as int
  }

  /** The number a digit string denotes; leading zeros do not matter. */
  function Value(s: string): (n: nat)
    requires AllDigits(s)
  {
    if s == [] then 0 else 10 * Value(s[..|s| - 1]) + DigitValue(s[|s| - 1])
  }

  /** The shortest digit string denoting `n`. */
  function Show(n: nat): (s: string)
    ensures s != [] && AllDigits(s)
  {
    if n < 10 then [DigitChar(n)] else Show(n / 10) + [DigitChar(n % 10)]
  }

  function ShowInt(i: int): (s: string)
    ensures s != []
  {
    if i < 0 then "-" + Show(-i) else Show(i)
  }

  /** A digit string is canonical when it is "0" or does not start with a zero. */
  ghost predicate Canonical(s: string) {
    s != [] && AllDigits(s) && (s[0] == '0' ==> |s| == 1)
  }

  lemma {:induction false} ValueOfShow(n: nat)
    ensures Value(Show(n)) == n
    ensures Canonical(Show(n))
    ensures n > 0 ==> Show(n)[0] != '0'
  {
    if n >= 10 {
      ValueOfShow(n / 10);
      var s := Show(n);
      assert s[..|s| - 1] == Show(n / 10);
    }
  }

  /** Canonical digit strings are exactly the printed numbers. */
  lemma {:induction false} ShowOfValue(s: string)
    requires Canonical(s)
    ensures Show(Value(s)) == s
    ensures |s| > 1 ==> Value(s) >= 10
  {
    var last := DigitValue(s[|s| - 1]);
    assert DigitChar(last) == s[|s| - 1];
    if |s| == 1 {
      assert Value(s[..0]) == 0;
      assert s == [s[0]];
    } else {
      var front := s[..|s| - 1];
      assert front[0] == s[0];
      if |front| > 1 {
        ShowOfValue(front);
      } else {
        assert Value(front[..0]) == 0;
        assert Value(front) == DigitValue(front[0]);
        assert DigitValue(front[0]) != 0;
        ShowOfValue(front);
      }
      assert s == front + [s[|s| - 1]];
    }
  }

  lemma ShowInjective(m: nat, n: nat)
    requires Show(m) == Show(n)
    ensures m == n
  {
    ValueOfShow(m);
    ValueOfShow(n);
  }
}
