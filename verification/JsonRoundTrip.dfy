/** What the writer writes, the reader reads back. */
module JsonRoundTrip {
  import opened Base
  import opened JsonWriter
  import opened JsonReader
  import opened JsonGrammar
  import opened Slices

  // ---- Which values the program holds, and what comes back of them ----

  predicate HasKey(pairs: seq<Pair>, key: seq<Unit>) {
    exists k :: 0 <= k < |pairs| && pairs[k].key == key
  }

  /** 64-bit integers, and dictionaries whose keys differ. */
  predicate Sound(v: Json)
    decreases v
  {
    match v
    case Long(n) => LONG_MIN <= n <= LONG_MAX
    case List(items) => SoundItems(items)
    case Map(pairs) => SoundPairs(pairs)
    case _ => true
  }

  predicate SoundItems(items: seq<Json>)
    decreases items
  {
    items == [] || (Sound(items[0]) && SoundItems(items[1..]))
  }

  predicate SoundPairs(pairs: seq<Pair>)
    decreases pairs
  {
    pairs == [] || (Sound(pairs[0].value) && !HasKey(pairs[1..], pairs[0].key) && SoundPairs(pairs[1..]))
  }

  predicate NumberText(s: seq<Unit>) {
    s != [] && forall k :: 0 <= k < |s| ==> InNumber(s[k])
  }

  /** The one law of the runtime's doubles: their text is a number, and unless it is an integer it reads back. */
  predicate Shows(d: Doubles, r: real) {
    NumberText(d.show(r)) && (LongOf(d.show(r)).Some? || d.read(d.show(r)) == Some(r))
  }

  ghost predicate Lawful(d: Doubles) {
    forall r: real :: Shows(d, r)
  }

  /** What a value has become after writing and reading: a double without a fraction is a 64-bit integer. */
  function Returned(d: Doubles, v: Json): Json
    decreases v
  {
    match v
    case Double(r) => if LongOf(d.show(r)).Some? then Long(LongOf(d.show(r)).value) else v
    case List(items) => List(ReturnedItems(d, items))
    case Map(pairs) => Map(ReturnedPairs(d, pairs))
    case _ => v
  }

  function ReturnedItems(d: Doubles, items: seq<Json>): seq<Json>
    decreases items
  {
    if items == [] then [] else [Returned(d, items[0])] + ReturnedItems(d, items[1..])
  }

  function ReturnedPairs(d: Doubles, pairs: seq<Pair>): seq<Pair>
    decreases pairs
  {
    if pairs == [] then [] else [Pair(pairs[0].key, Returned(d, pairs[0].value))] + ReturnedPairs(d, pairs[1..])
  }

  predicate HoldsWholeDouble(d: Doubles, v: Json)
    decreases v
  {
    match v
    case Double(r) => LongOf(d.show(r)).Some?
    case List(items) => ItemsHoldWholeDouble(d, items)
    case Map(pairs) => PairsHoldWholeDouble(d, pairs)
    case _ => false
  }

  predicate ItemsHoldWholeDouble(d: Doubles, items: seq<Json>)
    decreases items
  {
    items != [] && (HoldsWholeDouble(d, items[0]) || ItemsHoldWholeDouble(d, items[1..]))
  }

  predicate PairsHoldWholeDouble(d: Doubles, pairs: seq<Pair>)
    decreases pairs
  {
    pairs != [] && (HoldsWholeDouble(d, pairs[0].value) || PairsHoldWholeDouble(d, pairs[1..]))
  }

  // ---- Numbers ----

  lemma {:induction false} DigitsReadBack(n: nat)
    ensures Digits(n) != [] && AllDigits(Digits(n)) && Value(Digits(n)) == n
  {
    if n >= 10 {
      DigitsReadBack(n / 10);
      assert Digits(n)[..|Digits(n)| - 1] == Digits(n / 10);
    } else {
      assert Digits(n)[..0] == [];
    }
  }

  lemma {:induction false} LongReadsBack(n: int)
    requires LONG_MIN <= n <= LONG_MAX
    ensures NumberText(LongText(n)) && LongOf(LongText(n)) == Some(n)
  {
    var digits := Digits(if n < 0 then -n else n);
    DigitsReadBack(if n < 0 then -n else n);
    assert IsDigit(digits[0]);
    assert ([MINUS] + digits)[1..] == digits;
  }

  /** Exactly the integers of 64 bits are read as such. */
  lemma {:induction false} LongIff(n: int)
    ensures LongOf(LongText(n)) == Some(n) <==> -9223372036854775808 <= n <= 9223372036854775807
  {
    var text := Digits(if n < 0 then -n else n);
    DigitsReadBack(if n < 0 then -n else n);
    assert IsDigit(text[0]);
    assert ([MINUS] + text)[1..] == text;
  }

  /** Leading zeros and a plus sign change nothing. */
  lemma {:induction false} ZerosAndPlus(digits: seq<Unit>)
    requires digits != [] && AllDigits(digits)
    ensures LongOf([ZERO] + digits) == LongOf(digits) == LongOf([PLUS] + digits)
  {
    ZeroInFront(digits);
    assert ([PLUS] + digits)[1..] == digits;
    assert IsDigit(digits[0]) && ([ZERO] + digits)[0] == ZERO;
  }

  lemma {:induction false} ZeroInFront(digits: seq<Unit>)
    ensures Value([ZERO] + digits) == Value(digits)
    decreases |digits|
  {
    var n := |digits| - 1;
    if digits == [] {
      assert [ZERO] + digits == [ZERO] && [ZERO][..0] == [];
    } else {
      ZeroInFront(digits[..n]);
      assert ([ZERO] + digits)[..n + 1] == [ZERO] + digits[..n];
    }
  }

  // ---- Strings ----

  /** Sixteen digits of either case, by their character codes. */
  lemma HexDigitMeans(c: Unit)
    ensures HexValue(c) ==
      if 0x30 <= c <= 0x39 then Some(c - 0x30) else if 0x41 <= c <= 0x46 then Some(c - 0x37)
      else if 0x61 <= c <= 0x66 then Some(c - 0x57) else None
  {
  }

  lemma {:induction false} HexStep(s: seq<Unit>, sum: nat, any: bool)
    requires 0 < |s| <= 4 && sum < Room(|s|) && HexValue(s[0]).Some?
    ensures 16 * sum + HexValue(s[0]).value < Room(|s| - 1)
    ensures HexFrom(s, sum, any) == HexFrom(s[1..], 16 * sum + HexValue(s[0]).value, true)
  {
  }

  /** Four hexadecimal digits of either case are read as the number they stand for. */
  lemma {:induction false} HexOfDigits(s: seq<Unit>, a: int, b: int, c: int, d: int)
    requires |s| == 4 && HexValue(s[0]) == Some(a) && HexValue(s[1]) == Some(b) && HexValue(s[2]) == Some(c) && HexValue(s[3]) == Some(d)
    ensures HexOf(s) == Some(4096 * a + 256 * b + 16 * c + d)
  {
    assert SkipBlank(s) == s;
    HexStep(s, 0, false);
    HexStep(s[1..], a, true);
    HexStep(s[1..][1..], 16 * a + b, true);
    HexStep(s[1..][1..][1..], 16 * (16 * a + b) + c, true);
  }

  lemma {:induction false} HexOfControl(c: Unit)
    requires c < 0x20
    ensures HexOf([ZERO, ZERO, HexDigit(c / 16), HexDigit(c % 16)]) == Some(c)
  {
    HexOfDigits([ZERO, ZERO, HexDigit(c / 16), HexDigit(c % 16)], 0, 0, c / 16, c % 16);
  }

  /** How the writer spells a code unit. */
  function SpellingFor(c: Unit): Spelling {
    if c == QUOTE || c == BACKSLASH then Short(c)
    else if c == LF then Short('n' as int)
    else if c == CR then Short('r' as int)
    else if c == 9 then Short('t' as int)
    else if c < 0x20 then Hex([ZERO, ZERO, HexDigit(c / 16), HexDigit(c % 16)])
    else Plain(c)
  }

  lemma {:induction false} SpellingForIs(c: Unit)
    ensures Allowed(SpellingFor(c)) && Spelt(SpellingFor(c)) == EscapedUnit(c) && Meaning(SpellingFor(c)) == c
  {
    if c < 0x20 { HexOfControl(c); }
  }

  function SpellingsFor(s: seq<Unit>): seq<Spelling> {
    if s == [] then [] else [SpellingFor(s[0])] + SpellingsFor(s[1..])
  }

  /** What the writer appends for a string is spelled by the grammar, and means the string. */
  lemma {:induction false} SpellingsForAre(s: seq<Unit>)
    ensures AllAllowed(SpellingsFor(s)) && ToQuote(SpellingsFor(s)) == Escaped(s) + [QUOTE] && Meanings(SpellingsFor(s)) == s
    decreases |s|
  {
    var all := SpellingsFor(s);
    if s != [] {
      SpellingForIs(s[0]);
      SpellingsForAre(s[1..]);
      assert all[0] == SpellingFor(s[0]) && all[1..] == SpellingsFor(s[1..]);
      Regroup(EscapedUnit(s[0]), Escaped(s[1..]), [QUOTE]);
      assert s == [s[0]] + s[1..];
    }
  }

  lemma {:induction false} StringReadsBack(text: seq<Unit>, i: nat, s: seq<Unit>, read: seq<Unit>)
    requires At(text, i, Escaped(s) + [QUOTE])
    ensures StringAt(text, i, read) == Done(read + s, i + |Escaped(s)| + 1)
  {
    SpellingsForAre(s);
    SpellingsAreRead(text, i, SpellingsFor(s), read);
  }

  // ---- Keys ----

  lemma {:induction false} PutNew(pairs: seq<Pair>, key: seq<Unit>, value: Json)
    requires !HasKey(pairs, key)
    ensures Put(pairs, key, value) == pairs + [Pair(key, value)]
    decreases |pairs|
  {
    if pairs != [] {
      assert pairs[0].key != key;
      assert forall k :: 0 <= k < |pairs| - 1 ==> pairs[1..][k] == pairs[k + 1];
      PutNew(pairs[1..], key, value);
      assert [pairs[0]] + (pairs[1..] + [Pair(key, value)]) == pairs + [Pair(key, value)];
    }
  }

  lemma {:induction false} PutKeys(pairs: seq<Pair>, key: seq<Unit>, value: Json, other: seq<Unit>)
    ensures HasKey(Put(pairs, key, value), other) <==> other == key || HasKey(pairs, other)
    decreases |pairs|
  {
    var after := Put(pairs, key, value);
    KeySplit(after, other);
    if pairs == [] {
      assert after[0].key == key && after[1..] == [];
    } else {
      KeySplit(pairs, other);
      if pairs[0].key == key {
        assert after[1..] == pairs[1..];
      } else {
        PutKeys(pairs[1..], key, value, other);
        assert after[1..] == Put(pairs[1..], key, value);
      }
    }
  }

  lemma {:induction false} PutKeepsSound(pairs: seq<Pair>, key: seq<Unit>, value: Json)
    requires SoundPairs(pairs) && Sound(value)
    ensures SoundPairs(Put(pairs, key, value))
    decreases |pairs|
  {
    var after := Put(pairs, key, value);
    if pairs == [] {
      assert after[1..] == [];
    } else if pairs[0].key == key {
      assert after[1..] == pairs[1..];
    } else {
      PutKeepsSound(pairs[1..], key, value);
      PutKeys(pairs[1..], key, value, pairs[0].key);
      assert after[1..] == Put(pairs[1..], key, value);
    }
  }

  /** Where the pair is put, and that the others stay. */
  ghost predicate PutPlaced(pairs: seq<Pair>, key: seq<Unit>, value: Json, after: seq<Pair>) {
    && |after| == |pairs| + (if HasKey(pairs, key) then 0 else 1)
    && (forall k :: 0 <= k < |pairs| ==> after[k] == if pairs[k].key == key then Pair(key, value) else pairs[k])
    && (!HasKey(pairs, key) ==> after[|pairs|] == Pair(key, value))
  }

  lemma PlacedBehind(pairs: seq<Pair>, key: seq<Unit>, value: Json, after: seq<Pair>)
    requires pairs != [] && pairs[0].key != key && PutPlaced(pairs[1..], key, value, after)
    ensures PutPlaced(pairs, key, value, [pairs[0]] + after)
  {
    KeySplit(pairs, key);
    assert forall k :: 0 < k < |pairs| ==> pairs[k] == pairs[1..][k - 1];
  }

  lemma PlacedFirst(pairs: seq<Pair>, key: seq<Unit>, value: Json)
    requires pairs != [] && pairs[0].key == key && !HasKey(pairs[1..], key)
    ensures PutPlaced(pairs, key, value, [Pair(key, value)] + pairs[1..])
  {
    forall k | 0 < k < |pairs| ensures pairs[k] == pairs[1..][k - 1] && pairs[k].key != key {
      assert pairs[1..][k - 1] == pairs[k];
    }
  }

  /**
   * Assigning to a key: a key already there keeps its place and takes the value, a new one comes last,
   * and every other pair keeps its value and its place.
   */
  lemma {:induction false} PutIsUpdate(pairs: seq<Pair>, key: seq<Unit>, value: Json)
    requires SoundPairs(pairs)
    ensures PutPlaced(pairs, key, value, Put(pairs, key, value))
    ensures Sound(value) ==> SoundPairs(Put(pairs, key, value))
    decreases |pairs|
  {
    if Sound(value) { PutKeepsSound(pairs, key, value); }
    if pairs != [] {
      if pairs[0].key == key {
        PlacedFirst(pairs, key, value);
      } else {
        PutIsUpdate(pairs[1..], key, value);
        PlacedBehind(pairs, key, value, Put(pairs[1..], key, value));
      }
    }
  }

  lemma {:induction false} KeySplit(pairs: seq<Pair>, key: seq<Unit>)
    requires pairs != []
    ensures HasKey(pairs, key) <==> pairs[0].key == key || HasKey(pairs[1..], key)
  {
    if HasKey(pairs, key) {
      var k :| 0 <= k < |pairs| && pairs[k].key == key;
      if k > 0 { assert pairs[1..][k - 1].key == key; }
    }
    if HasKey(pairs[1..], key) {
      var k :| 0 <= k < |pairs[1..]| && pairs[1..][k].key == key;
      assert pairs[k + 1].key == key;
    }
  }

  // ---- What the writer writes is spelled by the grammar ----

  function TreeFor(d: Doubles, v: Json): Tree
    decreases v
  {
    match v
    case Long(n) => Number(LongText(n))
    case Double(r) => Number(d.show(r))
    case Str(s) => Text(SpellingsFor(s))
    case List(items) => if items == [] then EmptyArray([]) else Array(ItemsFor(d, items))
    case Map(pairs) => if pairs == [] then EmptyObject([]) else Object(EntriesFor(d, pairs))
    case _ => Word(v)
  }

  function ItemsFor(d: Doubles, items: seq<Json>): ItemTrees
    requires items != []
    decreases items
  {
    var t := TreeFor(d, items[0]);
    if |items| == 1 then LastItem([], t, []) else MoreItems([], t, [], ItemsFor(d, items[1..]))
  }

  function EntriesFor(d: Doubles, pairs: seq<Pair>): EntryTrees
    requires pairs != []
    decreases pairs
  {
    var e := EntryFor(d, pairs[0]);
    if |pairs| == 1 then LastEntry(e, []) else MoreEntries(e, [], EntriesFor(d, pairs[1..]))
  }

  function EntryFor(d: Doubles, p: Pair): EntryTree
    decreases p
  {
    EntryTree([], SpellingsFor(p.key), [], [], TreeFor(d, p.value))
  }

  lemma {:induction false} NumberFor(d: Doubles, v: Json)
    requires Lawful(d) && Sound(v) && (v.Long? || v.Double?)
    ensures IsNumber(d, Render(d, v)) && NumberMeans(d, Render(d, v)) == Returned(d, v)
  {
    if v.Long? { LongReadsBack(v.n); }
    if v.Double? { assert Shows(d, v.r); }
  }

  lemma {:induction false} TextFor(s: seq<Unit>)
    ensures [0x22] + ToQuote(SpellingsFor(s)) == Quoted(s) && AllAllowed(SpellingsFor(s)) && Meanings(SpellingsFor(s)) == s
  {
    SpellingsForAre(s);
    Regroup([QUOTE], Escaped(s), [QUOTE]);
  }

  /** Every written value is spelled by the grammar, without white space, and means what the value has become. */
  lemma {:induction false} WrittenByGrammar(d: Doubles, v: Json)
    requires Lawful(d) && Sound(v)
    ensures Valid(d, TreeFor(d, v)) && SpeltTree(TreeFor(d, v)) == Render(d, v) && Means(d, TreeFor(d, v)) == Returned(d, v)
    decreases v, 1
  {
    match v
    case Long(_) => NumberFor(d, v);
    case Double(_) => NumberFor(d, v);
    case Str(s) => TextFor(s);
    case List(items) => if items != [] { ItemsByGrammar(d, items); Regroup([LBRACKET], Items(d, items), [RBRACKET]); }
    case Map(pairs) => if pairs != [] { EntriesByGrammar(d, pairs, []); Regroup([LBRACE], Members(d, pairs), [RBRACE]); }
    case _ =>
  }

  lemma {:induction false} NoGaps(text: seq<Unit>, behind: seq<Unit>)
    ensures [] + (text + ([] + behind)) == text + behind
  {
  }

  lemma {:induction false} ItemsByGrammar(d: Doubles, items: seq<Json>)
    requires Lawful(d) && SoundItems(items) && items != []
    ensures var t := ItemsFor(d, items);
      ValidItems(d, t) && SpeltItems(t) == Items(d, items) + [RBRACKET] && MeansItems(d, t) == ReturnedItems(d, items)
    decreases items, 0
  {
    var text := Render(d, items[0]);
    WrittenByGrammar(d, items[0]);
    if |items| == 1 {
      NoGaps(text, [RBRACKET]);
      assert items[1..] == [];
    } else {
      ItemsByGrammar(d, items[1..]);
      NoGaps(text, [COMMA] + (Items(d, items[1..]) + [RBRACKET]));
      Regroup(text, [COMMA], Items(d, items[1..]) + [RBRACKET]);
      Regroup(text + [COMMA], Items(d, items[1..]), [RBRACKET]);
    }
  }

  lemma {:induction false} EntryByGrammar(d: Doubles, p: Pair)
    requires Lawful(d) && Sound(p.value)
    ensures var e := EntryFor(d, p);
      ValidEntry(d, e) && SpeltEntry(e) == Member(d, p) && MeansEntry(d, e) == Pair(p.key, Returned(d, p.value))
    decreases p, 0
  {
    TextFor(p.key);
    WrittenByGrammar(d, p.value);
    EntryText(ToQuote(SpellingsFor(p.key)), Render(d, p.value));
  }

  lemma {:induction false} EntryText(key: seq<Unit>, value: seq<Unit>)
    ensures [] + ([0x22] + (key + ([] + ([0x3A] + ([] + value))))) == [0x22] + key + [COLON] + value
  {
  }

  predicate NoneHeld(done: seq<Pair>, pairs: seq<Pair>) {
    forall k :: 0 <= k < |pairs| ==> !HasKey(done, pairs[k].key)
  }

  lemma {:induction false} OthersNotHeld(done: seq<Pair>, pairs: seq<Pair>, value: Json)
    requires pairs != [] && NoneHeld(done, pairs) && !HasKey(pairs[1..], pairs[0].key)
    ensures NoneHeld(done + [Pair(pairs[0].key, value)], pairs[1..])
  {
    forall k | 0 <= k < |pairs[1..]| ensures !HasKey(done + [Pair(pairs[0].key, value)], pairs[1..][k].key) {
      assert pairs[1..][k].key == pairs[k + 1].key && pairs[1..][k].key != pairs[0].key;
    }
  }

  lemma {:induction false} EntriesByGrammar(d: Doubles, pairs: seq<Pair>, done: seq<Pair>)
    requires Lawful(d) && SoundPairs(pairs) && pairs != [] && NoneHeld(done, pairs)
    ensures var t := EntriesFor(d, pairs);
      && ValidEntries(d, t) && SpeltEntries(t) == Members(d, pairs) + [RBRACE]
      && MeansEntries(d, t, done) == done + ReturnedPairs(d, pairs)
    decreases pairs, 0
  {
    var p := Pair(pairs[0].key, Returned(d, pairs[0].value));
    EntryByGrammar(d, pairs[0]);
    PutNew(done, p.key, p.value);
    EntriesText(d, pairs);
    if |pairs| == 1 {
      assert ReturnedPairs(d, pairs) == [p] by { assert pairs[1..] == []; }
    } else {
      OthersNotHeld(done, pairs, p.value);
      EntriesByGrammar(d, pairs[1..], done + [p]);
      OneAndMore(done, p, ReturnedPairs(d, pairs[1..]));
    }
  }

  lemma {:induction false} EntriesText(d: Doubles, pairs: seq<Pair>)
    requires pairs != []
    ensures var text := Member(d, pairs[0]);
      Members(d, pairs) + [RBRACE] == if |pairs| == 1 then text + ([] + [RBRACE]) else text + ([] + ([COMMA] + (Members(d, pairs[1..]) + [RBRACE])))
  {
  }

  // ---- The two undo each other ----

  /** Writing any value and reading the text back: an object returns, anything else is refused as no object. */
  lemma {:induction false} WhatComesBack(d: Doubles, v: Json)
    requires Lawful(d) && Sound(v)
    ensures ObjectOf(d, Render(d, v)) == if v.Map? then Done(Returned(d, v), |Render(d, v)|) else Failed(NotAnObject)
  {
    WrittenByGrammar(d, v);
    GrammarIsRead(d, [], TreeFor(d, v), []);
    assert Message([], TreeFor(d, v), []) == Render(d, v);
  }

  lemma {:induction false} SameUnlessWhole(d: Doubles, v: Json)
    ensures Returned(d, v) == v <==> !HoldsWholeDouble(d, v)
    decreases v, 1
  {
    match v
    case List(items) => SameItems(d, items);
    case Map(pairs) => SamePairs(d, pairs);
    case _ =>
  }

  lemma {:induction false} SameItems(d: Doubles, items: seq<Json>)
    ensures ReturnedItems(d, items) == items <==> !ItemsHoldWholeDouble(d, items)
    decreases items, 0
  {
    if items != [] {
      SameUnlessWhole(d, items[0]);
      SameItems(d, items[1..]);
      assert ReturnedItems(d, items)[1..] == ReturnedItems(d, items[1..]);
      assert items == [items[0]] + items[1..];
    }
  }

  lemma {:induction false} SamePairs(d: Doubles, pairs: seq<Pair>)
    ensures ReturnedPairs(d, pairs) == pairs <==> !PairsHoldWholeDouble(d, pairs)
    decreases pairs, 0
  {
    if pairs != [] {
      SameUnlessWhole(d, pairs[0].value);
      SamePairs(d, pairs[1..]);
      assert ReturnedPairs(d, pairs)[0] == Pair(pairs[0].key, Returned(d, pairs[0].value));
      assert ReturnedPairs(d, pairs)[1..] == ReturnedPairs(d, pairs[1..]);
      assert pairs == [pairs[0]] + pairs[1..];
    }
  }

  /**
   * A written dictionary is read back as itself exactly when no double in it is a whole number:
   * the text of such a double is that of an integer, and it returns as a 64-bit integer.
   */
  lemma {:induction false} RoundTripIff(d: Doubles, m: Json)
    requires Lawful(d) && Sound(m) && m.Map?
    ensures ObjectOf(d, Render(d, m)) == Done(m, |Render(d, m)|) <==> !HoldsWholeDouble(d, m)
  {
    WhatComesBack(d, m);
    SameUnlessWhole(d, m);
  }
}
