/** How the Pi files a card number, and which stored numbers a reader's number finds. */
module CardNumber {
  import opened Text

  function SkipSpaces(text: string): string {
    if text != [] && text[0] == ' ' then SkipSpaces(text[1..]) else text
  }

  /** The text up to its first space. */
  function Head(text: string): string {
    if text == [] || text[0] == ' ' then [] else [text[0]] + Head(text[1..])
  }

  function TrimEnd(text: string): string {
    if text != [] && text[|text| - 1] == ' ' then TrimEnd(text[..|text| - 1]) else text
  }

  function DropZeros(text: string): string {
    if |text| > 1 && text[0] == '0' && IsDigit(text[1]) then DropZeros(text[1..]) else text
  }

  function UpperChar(c: char): char {
    if 'a' <= c <= 'z' then 'A' + (c - 'a') else c
  }

  function Upper(text: string): string {
    seq(|text|, i requires 0 <= i < |text| => UpperChar(text[i]))
  }

  predicate Digits(text: string) {
    text != [] && forall i :: 0 <= i < |text| ==> IsDigit(text[i])
  }

  function CardNumberKey(value: string): string {
    var text := SkipSpaces(value);
    if Digits(Head(text)) then DropZeros(Head(text)) else Upper(TrimEnd(text))
  }

  lemma {:induction false} DropZerosKeepsValue(s: string)
    requires Digits(s)
    ensures Shortest(DropZeros(s)) && Value(DropZeros(s)) == Value(s)
  {
    if |s| > 1 && s[0] == '0' {
      ValueDropsZero(s);
      DropZerosKeepsValue(s[1..]);
    }
  }

  lemma {:induction false} HeadIsPrefix(s: string)
    ensures |Head(s)| <= |s| && Head(s) == s[..|Head(s)|]
    ensures |Head(s)| < |s| ==> s[|Head(s)|] == ' '
    ensures forall i :: 0 <= i < |Head(s)| ==> s[i] != ' '
  {
    if s != [] && s[0] != ' ' {
      HeadIsPrefix(s[1..]);
    }
  }

  lemma {:induction false} TrimEndKeeps(s: string, k: nat)
    requires k < |s| && s[k] != ' '
    ensures k < |TrimEnd(s)| && TrimEnd(s)[k] == s[k]
    decreases |s|
  {
    if s[|s| - 1] == ' ' {
      TrimEndKeeps(s[..|s| - 1], k);
    }
  }

  lemma {:induction false} SkipSpacesStops(s: string)
    ensures SkipSpaces(s) == [] || SkipSpaces(s)[0] != ' '
  {
    if s != [] && s[0] == ' ' {
      SkipSpacesStops(s[1..]);
    }
  }

  /**
   * A card number read at the gate finds a stored number exactly when the stored text begins with
   * digits of the same value: leading zeros never matter, and anything else never matches.
   */
  lemma ReaderFindsByValue(stored: string, n: nat)
    ensures CardNumberKey(stored) == Decimal(n)
        <==> Digits(Head(SkipSpaces(stored))) && Value(Head(SkipSpaces(stored))) == n
  {
    var text := SkipSpaces(stored);
    var head := Head(text);
    DecimalIsShortest(n);
    SkipSpacesStops(stored);
    HeadIsPrefix(text);
    if Digits(head) {
      DropZerosKeepsValue(head);
      ShortestIsDecimal(DropZeros(head));
    } else if head != [] {
      var k :| 0 <= k < |head| && !IsDigit(head[k]);
      TrimEndKeeps(text, k);
      assert !IsDigit(Upper(TrimEnd(text))[k]);
    } else {
      assert text == [];
    }
  }

  /** What the reader reports is filed under itself. */
  lemma ReaderNumberIsItsKey(n: nat)
    ensures CardNumberKey(Decimal(n)) == Decimal(n)
  {
    var s := Decimal(n);
    DecimalIsShortest(n);
    assert SkipSpaces(s) == s;
    HeadIsPrefix(s);
    assert Head(s) == s;
    ReaderFindsByValue(s, n);
  }

  lemma {:induction false} HeadOfUpper(s: string)
    ensures Head(Upper(s)) == Upper(Head(s))
  {
    if s != [] && s[0] != ' ' {
      HeadOfUpper(s[1..]);
      assert Upper(s)[1..] == Upper(s[1..]);
      assert Upper([s[0]] + Head(s[1..])) == [UpperChar(s[0])] + Upper(Head(s[1..]));
    }
  }

  lemma {:induction false} TrimEndStops(s: string)
    ensures |TrimEnd(s)| <= |s| && TrimEnd(s) == s[..|TrimEnd(s)|]
    ensures TrimEnd(s) == [] || TrimEnd(s)[|TrimEnd(s)| - 1] != ' '
    ensures forall i :: |TrimEnd(s)| <= i < |s| ==> s[i] == ' '
  {
    if s != [] && s[|s| - 1] == ' ' {
      TrimEndStops(s[..|s| - 1]);
    }
  }

  lemma {:induction false} HeadOfTrimmed(s: string, n: nat)
    requires n <= |s| && forall i :: n <= i < |s| ==> s[i] == ' '
    ensures Head(s[..n]) == Head(s)
  {
    if n > 0 && s[0] != ' ' {
      HeadOfTrimmed(s[1..], n - 1);
      assert s[..n][1..] == s[1..][..n - 1];
    }
  }

  lemma UpperTwice(s: string)
    ensures Upper(Upper(s)) == Upper(s)
  {
  }

  /** Filing a filed number again changes nothing, so a snapshot read back from disk has the same cards. */
  lemma KeyIsStable(value: string)
    ensures CardNumberKey(CardNumberKey(value)) == CardNumberKey(value)
  {
    var text := SkipSpaces(value);
    SkipSpacesStops(value);
    if Digits(Head(text)) {
      var key := DropZeros(Head(text));
      DropZerosKeepsValue(Head(text));
      ShortestIsDecimal(key);
      ReaderNumberIsItsKey(Value(key));
    } else {
      OtherKeyIsStable(text);
    }
  }

  lemma OtherKeyIsStable(text: string)
    requires (text == [] || text[0] != ' ') && !Digits(Head(text))
    ensures CardNumberKey(Upper(TrimEnd(text))) == Upper(TrimEnd(text))
  {
    var key := Upper(TrimEnd(text));
    if text != [] {
      TrimEndKeeps(text, 0);
      assert SkipSpaces(key) == key;
      NotDigitsAfterUpper(text);
      TrimEndStops(text);
      TrimEndOf(key);
      UpperTwice(TrimEnd(text));
    }
  }

  lemma NotDigitsAfterUpper(text: string)
    requires text != [] && text[0] != ' ' && !Digits(Head(text))
    ensures !Digits(Head(Upper(TrimEnd(text))))
  {
    TrimEndStops(text);
    HeadOfTrimmed(text, |TrimEnd(text)|);
    HeadOfUpper(TrimEnd(text));
    var head := Head(text);
    assert head != [];
    var k :| 0 <= k < |head| && !IsDigit(head[k]);
    assert !IsDigit(Upper(head)[k]);
  }

  lemma TrimEndOf(s: string)
    requires s == [] || s[|s| - 1] != ' '
    ensures TrimEnd(s) == s
  {
  }
}
