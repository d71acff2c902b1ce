/** Decimal numbers as text. */
module Text {

  predicate IsDigit(c: char) {
    '0' <= c <= '9'
  }

  function Digit(n: int): char
    requires 0 <= n <= 9
  {
    '0' + n as char
  }

  function DigitValue(c: char): int {
    c as int - '0' as int
  }

  predicate AllDigits(s: string) {
    forall i :: 0 <= i < |s| ==> IsDigit(s[i])
  }

  /** The shortest decimal form of a number. */
  function Decimal(n: nat): string {
    if n < 10 then [Digit(n)] else Decimal(n / 10) + [Digit(n % 10)]
  }

  function Value(s: string): int {
    if s == [] then 0 else Value(s[..|s| - 1]) * 10 + DigitValue(s[|s| - 1])
  }

  /** No leading zero, except for zero itself. */
  ghost predicate Shortest(s: string) {
    |s| > 0 && AllDigits(s) && (s[0] == '0' ==> |s| == 1)
  }

  lemma {:induction false} DecimalIsShortest(n: nat)
    ensures Shortest(Decimal(n)) && Value(Decimal(n)) == n
    ensures n > 0 ==> Decimal(n)[0] != '0'
  {
    if n >= 10 {
      DecimalIsShortest(n / 10);
      assert Decimal(n)[..|Decimal(n)| - 1] == Decimal(n / 10);
    } else {
      assert Decimal(n)[..0] == [];
    }
  }

  /** A number has one shortest form. */
  lemma {:induction false} ShortestIsDecimal(s: string)
    requires Shortest(s)
    ensures Value(s) >= 0 && s == Decimal(Value(s))
    ensures Value(s) == 0 ==> s == "0"
  {
    var front, last := s[..|s| - 1], s[|s| - 1];
    if |s| == 1 {
      assert front == [] && s == [last];
    } else {
      ShortestIsDecimal(front);
      assert IsDigit(last);
      assert s == front + [last];
    }
  }

  lemma {:induction false} ValueDropsZero(s: string)
    requires |s| > 0 && s[0] == '0'
    ensures Value(s) == Value(s[1..])
  {
    if |s| > 1 {
      ValueDropsZero(s[..|s| - 1]);
      assert s[..|s| - 1][1..] == s[1..][..|s| - 2];
    } else {
      assert s[..0] == [] && s[1..] == [];
    }
  }
}
