/** The JSON reader takes no other texts: whatever it reads without an exception is spelled by the grammar. */
module JsonAccepts {
  import opened Base
  import opened Slices
  import opened JsonWriter
  import opened JsonReader
  import opened JsonGrammar

  lemma {:induction false} SliceIsAt(text: seq<Unit>, i: nat, k: nat)
    requires i <= k <= |text|
    ensures At(text, i, text[i..k])
  {
  }

  lemma {:induction false} SkippedIsGap(text: seq<Unit>, i: nat, k: nat)
    requires i <= |text| && k == SkipTo(text, i)
    ensures IsGap(text[i..k]) && At(text, i, text[i..k]) && (k < |text| ==> !IsSpace(text[k]))
    decreases |text| - i
  {
    if i < |text| && IsSpace(text[i]) {
      SkippedIsGap(text, i + 1, k);
      assert text[i..k] == [text[i]] + text[i + 1..k];
    }
  }

  lemma {:induction false} OneIsAt(text: seq<Unit>, i: nat, c: Unit)
    requires i < |text| && text[i] == c
    ensures At(text, i, [c])
  {
  }

  // ---- Strings ----

  lemma {:induction false} SpellingOf(text: seq<Unit>, i: nat) returns (s: Spelling)
    requires i < |text| && text[i] != QUOTE && UnitAt(text, i).Done?
    ensures Allowed(s) && At(text, i, Spelt(s)) && UnitAt(text, i) == Done(Meaning(s), i + |Spelt(s)|)
  {
    if text[i] != BACKSLASH {
      s := Plain(text[i]);
    } else if text[i + 1] == LOWER_U {
      s := Hex(text[i + 2..i + 6]);
      HexIsAt(text, i);
    } else {
      s := Short(text[i + 1]);
    }
  }

  lemma {:induction false} HexIsAt(text: seq<Unit>, i: nat)
    requires i + 6 <= |text| && text[i] == 0x5C && text[i + 1] == 0x75
    ensures At(text, i, [0x5C, 0x75] + text[i + 2..i + 6])
  {
  }

  lemma {:induction false} SpellingsOf(text: seq<Unit>, i: nat, read: seq<Unit>) returns (s: seq<Spelling>)
    requires i <= |text| && StringAt(text, i, read).Done?
    ensures AllAllowed(s) && At(text, i, ToQuote(s)) && StringAt(text, i, read) == Done(read + Meanings(s), i + |ToQuote(s)|)
    decreases |text| - i
  {
    if text[i] == QUOTE {
      s := [];
      OneIsAt(text, i, 0x22);
      assert read + [] == read;
    } else {
      var first := SpellingOf(text, i);
      var c, next := Meaning(first), i + |Spelt(first)|;
      StringStep(text, i, read, c, next);
      var rest := SpellingsOf(text, next, read + [c]);
      s := [first] + rest;
      FirstOf(first, rest);
      AtJoin(text, i, Spelt(first), next, ToQuote(rest));
      ReadMore(read, c, Meanings(rest));
    }
  }

  lemma {:induction false} FirstOf(first: Spelling, rest: seq<Spelling>)
    requires Allowed(first) && AllAllowed(rest)
    ensures var s := [first] + rest;
      AllAllowed(s) && ToQuote(s) == Spelt(first) + ToQuote(rest) && Meanings(s) == [Meaning(first)] + Meanings(rest)
  {
    assert ([first] + rest)[1..] == rest;
  }

  /** A quoted string, as a key or as a value. */
  lemma {:induction false} QuotedOf(text: seq<Unit>, i: nat) returns (s: seq<Spelling>)
    requires i < |text| && text[i] == QUOTE && StringAt(text, i + 1, []).Done?
    ensures AllAllowed(s) && At(text, i, [0x22] + ToQuote(s)) && StringAt(text, i + 1, []) == Done(Meanings(s), i + 1 + |ToQuote(s)|)
  {
    s := SpellingsOf(text, i + 1, []);
    OneIsAt(text, i, 0x22);
    AtJoin(text, i, [0x22], i + 1, ToQuote(s));
    assert [] + Meanings(s) == Meanings(s);
  }

  // ---- Values ----

  /** The value at an index is spelled there, behind white space. */
  ghost predicate Told(d: Doubles, text: seq<Unit>, i: nat, gap: seq<Unit>, t: Tree, value: Json, next: nat) {
    IsGap(gap) && Valid(d, t) && Means(d, t) == value && At(text, i, gap + SpeltTree(t)) && next == i + |gap| + |SpeltTree(t)|
  }

  lemma {:induction false} ToldBehind(d: Doubles, text: seq<Unit>, i: nat, j: nat, t: Tree, value: Json, next: nat)
    requires i <= |text| && j == SkipTo(text, i)
    requires Valid(d, t) && Means(d, t) == value && At(text, j, SpeltTree(t)) && next == j + |SpeltTree(t)|
    ensures Told(d, text, i, text[i..j], t, value, next)
  {
    SkippedIsGap(text, i, j);
    AtJoin(text, i, text[i..j], j, SpeltTree(t));
  }

  lemma {:induction false} NumberUnits(text: seq<Unit>, i: nat, end: nat)
    requires i <= |text| && end == NumberEnd(text, i)
    ensures forall k :: i <= k < end ==> OfNumber(text[k])
    decreases |text| - i
  {
    if i < |text| && InNumber(text[i]) { NumberUnits(text, i + 1, end); }
  }

  lemma {:induction false} NumberOf(d: Doubles, text: seq<Unit>, i: nat) returns (t: Tree)
    requires i <= |text| && NumberAt(d, text, i).Done?
    ensures Valid(d, t) && At(text, i, SpeltTree(t)) && NumberAt(d, text, i) == Done(Means(d, t), i + |SpeltTree(t)|)
  {
    var end := NumberEnd(text, i);
    NumberUnits(text, i, end);
    t := Number(text[i..end]);
  }

  lemma {:induction false} EmptyOf(text: seq<Unit>, j: nat, open: Unit, close: Unit, k: nat) returns (gap: seq<Unit>)
    requires j < |text| && text[j] == open && k == SkipTo(text, j + 1) && k < |text| && text[k] == close
    ensures IsGap(gap) && At(text, j, [open] + (gap + [close])) && k + 1 == j + |[open] + (gap + [close])|
  {
    gap := text[j + 1..k];
    SkippedIsGap(text, j + 1, k);
    OneIsAt(text, k, close);
    AtJoin(text, j + 1, gap, k, [close]);
    OneIsAt(text, j, open);
    AtJoin(text, j, [open], j + 1, gap + [close]);
  }

  lemma {:induction false} WordOf(text: seq<Unit>, i: nat, literal: seq<Unit>, v: Json)
    requires i <= |text| && literal != [] && LiteralAt(text, i, literal, v).Done? && literal == WordText(v)
    ensures At(text, i, WordText(v)) && LiteralAt(text, i, literal, v) == Done(v, i + |WordText(v)|)
  {
  }

  /** The value that begins at an index, there being no white space. */
  lemma {:induction false} TreeHere(d: Doubles, text: seq<Unit>, j: nat) returns (t: Tree)
    requires j < |text| && !IsSpace(text[j]) && ValueAt(d, text, j).Done?
    ensures Valid(d, t) && At(text, j, SpeltTree(t)) && ValueAt(d, text, j) == Done(Means(d, t), j + |SpeltTree(t)|)
    decreases |text| - j, 0
  {
    var c := text[j];
    if c == LBRACE {
      t := ObjectHere(d, text, j);
    } else if c == LBRACKET {
      t := ArrayHere(d, text, j);
    } else if c == QUOTE {
      var s := QuotedOf(text, j);
      t := Text(s);
    } else if c == TRUE[0] {
      t := Word(Bool(true));
      WordOf(text, j, TRUE, Bool(true));
    } else if c == FALSE[0] {
      t := Word(Bool(false));
      WordOf(text, j, FALSE, Bool(false));
    } else if c == NULL[0] {
      t := Word(Null);
      WordOf(text, j, NULL, Null);
    } else {
      t := NumberOf(d, text, j);
    }
  }

  lemma {:induction false} ObjectHere(d: Doubles, text: seq<Unit>, j: nat) returns (t: Tree)
    requires j < |text| && text[j] == LBRACE && ValueAt(d, text, j).Done?
    ensures Valid(d, t) && At(text, j, SpeltTree(t)) && ValueAt(d, text, j) == Done(Means(d, t), j + |SpeltTree(t)|)
    decreases |text| - j - 1, 7
  {
    var k := SkipTo(text, j + 1);
    if k < |text| && text[k] == RBRACE {
      var gap := EmptyOf(text, j, 0x7B, 0x7D, k);
      t := EmptyObject(gap);
    } else {
      MembersBehindGap(d, text, j + 1, k, []);
      var entries := EntriesOf(d, text, j + 1, []);
      t := Object(entries);
      OneIsAt(text, j, 0x7B);
      AtJoin(text, j, [0x7B], j + 1, SpeltEntries(entries));
    }
  }

  lemma {:induction false} ArrayHere(d: Doubles, text: seq<Unit>, j: nat) returns (t: Tree)
    requires j < |text| && text[j] == LBRACKET && ValueAt(d, text, j).Done?
    ensures Valid(d, t) && At(text, j, SpeltTree(t)) && ValueAt(d, text, j) == Done(Means(d, t), j + |SpeltTree(t)|)
    decreases |text| - j - 1, 7
  {
    var k := SkipTo(text, j + 1);
    if k < |text| && text[k] == RBRACKET {
      var gap := EmptyOf(text, j, 0x5B, 0x5D, k);
      t := EmptyArray(gap);
    } else {
      ItemsBehindGap(d, text, j + 1, k, []);
      var items := ItemsOf(d, text, j + 1, []);
      t := Array(items);
      OneIsAt(text, j, 0x5B);
      AtJoin(text, j, [0x5B], j + 1, SpeltItems(items));
      assert [] + MeansItems(d, items) == MeansItems(d, items);
    }
  }

  lemma {:induction false} TreeOf(d: Doubles, text: seq<Unit>, i: nat) returns (gap: seq<Unit>, t: Tree)
    requires i <= |text| && ValueAt(d, text, i).Done?
    ensures Told(d, text, i, gap, t, ValueAt(d, text, i).value, ValueAt(d, text, i).next)
    decreases |text| - i, 1
  {
    var j := SkipTo(text, i);
    gap := text[i..j];
    SkippedIsGap(text, i, j);
    ValueBehindGap(d, text, i, j);
    t := TreeHere(d, text, j);
    ToldBehind(d, text, i, j, t, Means(d, t), j + |SpeltTree(t)|);
  }

  /** An item between white space, and what the reader then does. */
  lemma {:induction false} ItemThen(d: Doubles, text: seq<Unit>, i: nat, done: seq<Json>) returns (before: seq<Unit>, t: Tree, stop: nat, k: nat)
    requires i <= |text| && ItemsAt(d, text, i, done).Done?
    ensures IsGap(before) && Valid(d, t) && At(text, i, before + SpeltTree(t)) && stop == i + |before| + |SpeltTree(t)|
    ensures i < stop <= k < |text| && IsGap(text[stop..k]) && (text[k] == COMMA || text[k] == RBRACKET)
    ensures text[k] == COMMA ==> ItemsAt(d, text, i, done) == ItemsAt(d, text, k + 1, done + [Means(d, t)])
    ensures text[k] == RBRACKET ==> ItemsAt(d, text, i, done) == Done(List(done + [Means(d, t)]), k + 1)
    decreases |text| - i, 2
  {
    ItemIsThere(d, text, i, done);
    before, t := TreeOf(d, text, i);
    stop, k := BehindValue(d, text, i, done, before, t);
  }

  lemma {:induction false} ItemIsThere(d: Doubles, text: seq<Unit>, i: nat, done: seq<Json>)
    requires i <= |text| && ItemsAt(d, text, i, done).Done?
    ensures ValueAt(d, text, i).Done?
    ensures var k := SkipTo(text, ValueAt(d, text, i).next); k < |text| && (text[k] == COMMA || text[k] == RBRACKET)
  {
  }

  lemma {:induction false} BehindValue(d: Doubles, text: seq<Unit>, i: nat, done: seq<Json>, before: seq<Unit>, t: Tree) returns (stop: nat, k: nat)
    requires i <= |text| && ValueAt(d, text, i).Done? && Told(d, text, i, before, t, ValueAt(d, text, i).value, ValueAt(d, text, i).next)
    requires var k := SkipTo(text, ValueAt(d, text, i).next); k < |text| && (text[k] == COMMA || text[k] == RBRACKET)
    ensures IsGap(before) && Valid(d, t) && At(text, i, before + SpeltTree(t)) && stop == i + |before| + |SpeltTree(t)|
    ensures i < stop <= k < |text| && IsGap(text[stop..k]) && (text[k] == COMMA || text[k] == RBRACKET)
    ensures text[k] == COMMA ==> ItemsAt(d, text, i, done) == ItemsAt(d, text, k + 1, done + [Means(d, t)])
    ensures text[k] == RBRACKET ==> ItemsAt(d, text, i, done) == Done(List(done + [Means(d, t)]), k + 1)
  {
    stop := i + |before| + |SpeltTree(t)|;
    k := SkipTo(text, stop);
    SkippedIsGap(text, stop, k);
    ItemsStep(d, text, i, done, Means(d, t), stop, k, k + 1);
  }

  lemma {:induction false} ItemsOf(d: Doubles, text: seq<Unit>, i: nat, done: seq<Json>) returns (items: ItemTrees)
    requires i <= |text| && ItemsAt(d, text, i, done).Done?
    ensures ItemsAreThere(d, text, i, done, items)
    decreases |text| - i, 3
  {
    var before, t, stop, k := ItemThen(d, text, i, done);
    if text[k] == COMMA {
      var rest := ItemsOf(d, text, k + 1, done + [Means(d, t)]);
      items := MoreItemsOf(d, text, i, done, before, t, stop, k, rest);
    } else {
      items := LastItemOf(d, text, i, done, before, t, stop, k);
    }
  }

  ghost predicate ItemsAreThere(d: Doubles, text: seq<Unit>, i: nat, done: seq<Json>, items: ItemTrees)
    requires i <= |text|
  {
    && ValidItems(d, items) && At(text, i, SpeltItems(items))
    && ItemsAt(d, text, i, done) == Done(List(done + MeansItems(d, items)), i + |SpeltItems(items)|)
  }

  lemma {:induction false} MoreItemsOf(d: Doubles, text: seq<Unit>, i: nat, done: seq<Json>, before: seq<Unit>, t: Tree, stop: nat, k: nat,
                                       rest: ItemTrees) returns (items: ItemTrees)
    requires IsGap(before) && Valid(d, t) && At(text, i, before + SpeltTree(t)) && stop == i + |before| + |SpeltTree(t)|
    requires stop <= k < |text| && IsGap(text[stop..k]) && text[k] == COMMA
    requires ItemsAreThere(d, text, k + 1, done + [Means(d, t)], rest)
    requires ItemsAt(d, text, i, done) == ItemsAt(d, text, k + 1, done + [Means(d, t)])
    ensures ItemsAreThere(d, text, i, done, items)
  {
    items := MoreItems(before, t, text[stop..k], rest);
    SliceIsAt(text, stop, k);
    ItemsStand(text, i, items, stop, k);
    MoreMean(d, items, done);
  }

  lemma {:induction false} LastItemOf(d: Doubles, text: seq<Unit>, i: nat, done: seq<Json>, before: seq<Unit>, t: Tree, stop: nat, k: nat)
    returns (items: ItemTrees)
    requires IsGap(before) && Valid(d, t) && At(text, i, before + SpeltTree(t)) && stop == i + |before| + |SpeltTree(t)|
    requires stop <= k < |text| && IsGap(text[stop..k]) && text[k] == RBRACKET
    requires ItemsAt(d, text, i, done) == Done(List(done + [Means(d, t)]), k + 1)
    ensures ItemsAreThere(d, text, i, done, items)
  {
    items := LastItem(before, t, text[stop..k]);
    SliceIsAt(text, stop, k);
    assert At(text, k + 1, []);
    ItemsStand(text, i, items, stop, k);
    JustOneMeans(d, items, done);
  }

  lemma {:induction false} ItemsStand(text: seq<Unit>, i: nat, items: ItemTrees, stop: nat, k: nat)
    requires At(text, i, items.before + SpeltTree(items.t)) && stop == i + |items.before| + |SpeltTree(items.t)|
    requires At(text, stop, items.after) && k == stop + |items.after| && k < |text| && text[k] == BehindItem(items).0
    requires At(text, k + 1, BehindItem(items).1)
    ensures At(text, i, SpeltItems(items)) && i + |SpeltItems(items)| == k + 1 + |BehindItem(items).1|
  {
    var c, tail := BehindItem(items).0, BehindItem(items).1;
    ItemsSplit(items);
    OneIsAt(text, k, c);
    AtJoin(text, k, [c], k + 1, tail);
    AtJoin(text, stop, items.after, k, [c] + tail);
    AtJoin(text, i, items.before + SpeltTree(items.t), stop, items.after + ([c] + tail));
    Regroup(items.before, SpeltTree(items.t), items.after + ([c] + tail));
  }

  lemma {:induction false} MemberParts(d: Doubles, text: seq<Unit>, i: nat)
    requires i <= |text| && MemberAt(d, text, i).Done?
    ensures KeyAt(text, i).Done? && ValueAt(d, text, KeyAt(text, i).next).Done?
  {
  }

  lemma {:induction false} KeyParts(text: seq<Unit>, i: nat, at: nat)
    requires i <= |text| && KeyAt(text, i).Done? && at == SkipTo(text, i)
    ensures at < |text| && text[at] == QUOTE && StringAt(text, at + 1, []).Done?
    ensures var colon := SkipTo(text, StringAt(text, at + 1, []).next); colon < |text| && text[colon] == COLON
  {
  }

  /** A key with the white space before it, and with that before its colon. */
  lemma {:induction false} KeyOf(text: seq<Unit>, i: nat) returns (before: seq<Unit>, key: seq<Spelling>, after: seq<Unit>, at: nat, close: nat, colon: nat)
    requires i <= |text| && KeyAt(text, i).Done?
    ensures IsGap(before) && AllAllowed(key) && IsGap(after) && KeyAt(text, i) == Done(Meanings(key), colon + 1)
    ensures At(text, i, before) && at == i + |before| && At(text, at, [0x22] + ToQuote(key)) && close == at + 1 + |ToQuote(key)|
    ensures At(text, close, after) && colon == close + |after| && colon < |text| && text[colon] == 0x3A
  {
    at := SkipTo(text, i);
    before := text[i..at];
    SkippedIsGap(text, i, at);
    KeyParts(text, i, at);
    key := QuotedOf(text, at);
    close := at + 1 + |ToQuote(key)|;
    colon := SkipTo(text, close);
    after := text[close..colon];
    SkippedIsGap(text, close, colon);
    KeyStep(text, i, at, Meanings(key), close, colon);
  }

  lemma {:induction false} EntryOf(d: Doubles, text: seq<Unit>, i: nat) returns (e: EntryTree)
    requires i <= |text| && MemberAt(d, text, i).Done?
    ensures ValidEntry(d, e) && At(text, i, SpeltEntry(e)) && MemberAt(d, text, i) == Done(MeansEntry(d, e), i + |SpeltEntry(e)|)
    decreases |text| - i, 4
  {
    MemberParts(d, text, i);
    var before, key, after, at, close, colon := KeyOf(text, i);
    var gap, t := TreeOf(d, text, colon + 1);
    e := EntryMade(d, text, i, before, key, after, gap, t, at, close, colon);
  }

  lemma {:induction false} EntryMade(d: Doubles, text: seq<Unit>, i: nat, before: seq<Unit>, key: seq<Spelling>, after: seq<Unit>,
                                     gap: seq<Unit>, t: Tree, at: nat, close: nat, colon: nat) returns (e: EntryTree)
    requires i <= |text| && IsGap(before) && AllAllowed(key) && IsGap(after) && KeyAt(text, i) == Done(Meanings(key), colon + 1)
    requires At(text, i, before) && at == i + |before| && At(text, at, [0x22] + ToQuote(key)) && close == at + 1 + |ToQuote(key)|
    requires At(text, close, after) && colon == close + |after| && colon < |text| && text[colon] == 0x3A
    requires ValueAt(d, text, colon + 1).Done?
    requires Told(d, text, colon + 1, gap, t, ValueAt(d, text, colon + 1).value, ValueAt(d, text, colon + 1).next)
    ensures ValidEntry(d, e) && At(text, i, SpeltEntry(e)) && MemberAt(d, text, i) == Done(MeansEntry(d, e), i + |SpeltEntry(e)|)
  {
    e := EntryTree(before, key, after, gap, t);
    EntryStands(text, i, e, at, close, colon);
    EntryIsThere(d, text, i, e, colon + 1);
  }

  lemma {:induction false} EntryIsThere(d: Doubles, text: seq<Unit>, i: nat, e: EntryTree, mid: nat)
    requires i <= |text| && ValidEntry(d, e) && KeyAt(text, i) == Done(Meanings(e.key), mid)
    requires mid == i + |e.before| + 1 + |ToQuote(e.key)| + |e.after| + 1 && mid <= |text|
    requires ValueAt(d, text, mid) == Done(Means(d, e.t), mid + |e.gap| + |SpeltTree(e.t)|)
    ensures MemberAt(d, text, i) == Done(MeansEntry(d, e), i + |SpeltEntry(e)|)
  {
    EntrySize(e);
    MemberStep(d, text, i, Meanings(e.key), mid, Means(d, e.t), i + |SpeltEntry(e)|);
  }

  lemma {:induction false} EntryStands(text: seq<Unit>, i: nat, e: EntryTree, at: nat, close: nat, colon: nat)
    requires At(text, i, e.before) && at == i + |e.before| && At(text, at, [0x22] + ToQuote(e.key)) && close == at + 1 + |ToQuote(e.key)|
    requires At(text, close, e.after) && colon == close + |e.after| && colon < |text| && text[colon] == 0x3A
    requires At(text, colon + 1, e.gap + SpeltTree(e.t))
    ensures At(text, i, SpeltEntry(e))
  {
    var value := e.gap + SpeltTree(e.t);
    OneIsAt(text, colon, 0x3A);
    AtJoin(text, colon, [0x3A], colon + 1, value);
    AtJoin(text, close, e.after, colon, [0x3A] + value);
    AtJoin(text, at, [0x22] + ToQuote(e.key), close, e.after + ([0x3A] + value));
    Regroup([0x22], ToQuote(e.key), e.after + ([0x3A] + value));
    AtJoin(text, i, e.before, at, [0x22] + (ToQuote(e.key) + (e.after + ([0x3A] + value))));
  }

  /** A member and the white space behind it, and what the reader then does. */
  lemma {:induction false} EntryThen(d: Doubles, text: seq<Unit>, i: nat, done: seq<Pair>) returns (e: EntryTree, stop: nat, k: nat)
    requires i <= |text| && MembersAt(d, text, i, done).Done?
    ensures ValidEntry(d, e) && At(text, i, SpeltEntry(e)) && stop == i + |SpeltEntry(e)|
    ensures i < stop <= k < |text| && IsGap(text[stop..k]) && (text[k] == COMMA || text[k] == RBRACE)
    ensures text[k] == COMMA ==> MembersAt(d, text, i, done) == MembersAt(d, text, k + 1, Assigned(d, e, done))
    ensures text[k] == RBRACE ==> MembersAt(d, text, i, done) == Done(Map(Assigned(d, e, done)), k + 1)
    decreases |text| - i, 5
  {
    MemberIsThere(d, text, i, done);
    e := EntryOf(d, text, i);
    stop := i + |SpeltEntry(e)|;
    k := SkipTo(text, stop);
    SkippedIsGap(text, stop, k);
    MembersStep(d, text, i, done, MeansEntry(d, e), stop, k, k + 1);
  }

  lemma {:induction false} EntriesOf(d: Doubles, text: seq<Unit>, i: nat, done: seq<Pair>) returns (entries: EntryTrees)
    requires i <= |text| && MembersAt(d, text, i, done).Done?
    ensures EntriesAreThere(d, text, i, done, entries)
    decreases |text| - i, 6
  {
    var e, stop, k := EntryThen(d, text, i, done);
    if text[k] == COMMA {
      var rest := EntriesOf(d, text, k + 1, Assigned(d, e, done));
      entries := MoreOf(d, text, i, done, e, stop, k, rest);
    } else {
      entries := LastOf(d, text, i, done, e, stop, k);
    }
  }

  ghost predicate EntriesAreThere(d: Doubles, text: seq<Unit>, i: nat, done: seq<Pair>, entries: EntryTrees)
    requires i <= |text|
  {
    && ValidEntries(d, entries) && At(text, i, SpeltEntries(entries))
    && MembersAt(d, text, i, done) == Done(Map(MeansEntries(d, entries, done)), i + |SpeltEntries(entries)|)
  }

  lemma {:induction false} MoreOf(d: Doubles, text: seq<Unit>, i: nat, done: seq<Pair>, e: EntryTree, stop: nat, k: nat, rest: EntryTrees)
    returns (entries: EntryTrees)
    requires ValidEntry(d, e) && At(text, i, SpeltEntry(e)) && stop == i + |SpeltEntry(e)|
    requires stop <= k < |text| && IsGap(text[stop..k]) && text[k] == COMMA
    requires EntriesAreThere(d, text, k + 1, Assigned(d, e, done), rest)
    requires MembersAt(d, text, i, done) == MembersAt(d, text, k + 1, Assigned(d, e, done))
    ensures EntriesAreThere(d, text, i, done, entries)
  {
    entries := MoreEntries(e, text[stop..k], rest);
    SliceIsAt(text, stop, k);
    EntriesMean(d, entries, done);
    EntriesStand(text, i, entries, stop, k);
  }

  lemma {:induction false} LastOf(d: Doubles, text: seq<Unit>, i: nat, done: seq<Pair>, e: EntryTree, stop: nat, k: nat)
    returns (entries: EntryTrees)
    requires ValidEntry(d, e) && At(text, i, SpeltEntry(e)) && stop == i + |SpeltEntry(e)|
    requires stop <= k < |text| && IsGap(text[stop..k]) && text[k] == RBRACE
    requires MembersAt(d, text, i, done) == Done(Map(Assigned(d, e, done)), k + 1)
    ensures EntriesAreThere(d, text, i, done, entries)
  {
    entries := LastEntry(e, text[stop..k]);
    SliceIsAt(text, stop, k);
    EntriesMean(d, entries, done);
    assert At(text, k + 1, []);
    EntriesStand(text, i, entries, stop, k);
  }

  lemma {:induction false} MemberIsThere(d: Doubles, text: seq<Unit>, i: nat, done: seq<Pair>)
    requires i <= |text| && MembersAt(d, text, i, done).Done?
    ensures MemberAt(d, text, i).Done?
    ensures var k := SkipTo(text, MemberAt(d, text, i).next); k < |text| && (text[k] == COMMA || text[k] == RBRACE)
  {
  }

  lemma {:induction false} EntriesStand(text: seq<Unit>, i: nat, entries: EntryTrees, stop: nat, k: nat)
    requires At(text, i, SpeltEntry(entries.e)) && stop == i + |SpeltEntry(entries.e)|
    requires At(text, stop, entries.after) && k == stop + |entries.after| && k < |text| && text[k] == BehindEntry(entries).0
    requires At(text, k + 1, BehindEntry(entries).1)
    ensures At(text, i, SpeltEntries(entries)) && i + |SpeltEntries(entries)| == k + 1 + |BehindEntry(entries).1|
  {
    var c, tail := BehindEntry(entries).0, BehindEntry(entries).1;
    EntriesSplit(entries);
    OneIsAt(text, k, c);
    AtJoin(text, k, [c], k + 1, tail);
    AtJoin(text, stop, entries.after, k, [c] + tail);
    AtJoin(text, i, SpeltEntry(entries.e), stop, entries.after + ([c] + tail));
  }

  /**
   * A text that the reader accepts is an object by the grammar between white space, and is read as what that
   * object means: the reader takes the grammar's texts and no others.
   */
  lemma {:induction false} OnlyGrammarIsRead(d: Doubles, text: seq<Unit>) returns (before: seq<Unit>, t: Tree, after: seq<Unit>)
    requires ObjectOf(d, text).Done?
    ensures IsGap(before) && Valid(d, t) && IsObject(t) && IsGap(after)
    ensures text == Message(before, t, after) && ObjectOf(d, text) == Done(Means(d, t), |text|)
  {
    var v := ValueAt(d, text, 0);
    before, t := TreeOf(d, text, 0);
    after := text[v.next..];
    SkippedIsGap(text, v.next, |text|);
    assert text[v.next..|text|] == after;
    OnlyObjectsMeanMaps(d, t);
    assert text[..v.next] == before + SpeltTree(t);
    assert text == text[..v.next] + after;
    Regroup(before, SpeltTree(t), after);
  }
}
