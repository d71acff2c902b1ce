/** The texts that the JSON reader takes, spelled out by the grammar of RFC 8259: any white space, any escapes. */
module JsonGrammar {
  import opened Base
  import opened Slices
  import opened JsonWriter
  import opened JsonReader

  // ---- Strings: section 7 ----

  /** One code unit of a string: itself, one character behind a backslash, or four behind a backslash and a u. */
  datatype Spelling = Plain(c: Unit) | Short(c: Unit) | Hex(digits: seq<Unit>)

  /** \" \\ \/ \b \f \n \r \t */
  function ShortMeaning(c: Unit): Option<Unit> {
    if c == 0x22 || c == 0x5C || c == 0x2F then Some(c)
    else if c == 0x62 then Some(0x08)
    else if c == 0x66 then Some(0x0C)
    else if c == 0x6E then Some(0x0A)
    else if c == 0x72 then Some(0x0D)
    else if c == 0x74 then Some(0x09)
    else None
  }

  predicate Allowed(s: Spelling) {
    match s
    case Plain(c) => c != 0x22 && c != 0x5C
    case Short(c) => ShortMeaning(c).Some?
    case Hex(digits) => |digits| == 4 && HexOf(digits).Some?
  }

  function Meaning(s: Spelling): Unit
    requires Allowed(s)
  {
    match s
    case Plain(c) => c
    case Short(c) => ShortMeaning(c).value
    case Hex(digits) => HexOf(digits).value
  }

  function Spelt(s: Spelling): (r: seq<Unit>)
    ensures r != []
  {
    match s
    case Plain(c) => [c]
    case Short(c) => [0x5C, c]
    case Hex(digits) => [0x5C, 0x75] + digits
  }

  predicate AllAllowed(s: seq<Spelling>) {
    s == [] || (Allowed(s[0]) && AllAllowed(s[1..]))
  }

  function Meanings(s: seq<Spelling>): seq<Unit>
    requires AllAllowed(s)
  {
    if s == [] then [] else [Meaning(s[0])] + Meanings(s[1..])
  }

  /** The spellings with the closing quotation mark. */
  function ToQuote(s: seq<Spelling>): (r: seq<Unit>)
    ensures r != []
  {
    if s == [] then [0x22] else Spelt(s[0]) + ToQuote(s[1..])
  }

  lemma {:induction false} SpellingIsRead(text: seq<Unit>, i: nat, s: Spelling)
    requires Allowed(s) && At(text, i, Spelt(s))
    ensures i < |text| && text[i] != QUOTE && UnitAt(text, i) == Done(Meaning(s), i + |Spelt(s)|)
  {
    AtUnit(text, i, Spelt(s), 0);
    if !s.Plain? { AtUnit(text, i, Spelt(s), 1); }
    if s.Hex? {
      assert text[i + 2..i + 6] == text[i..i + 6][2..] == Spelt(s)[2..] == s.digits;
    }
  }

  lemma {:induction false} StringStep(text: seq<Unit>, i: nat, read: seq<Unit>, c: Unit, next: nat)
    requires i < |text| && text[i] != QUOTE && UnitAt(text, i) == Done(c, next)
    ensures StringAt(text, i, read) == StringAt(text, next, read + [c])
  {
  }

  lemma {:induction false} ReadMore(read: seq<Unit>, first: Unit, rest: seq<Unit>)
    ensures read + [first] + rest == read + ([first] + rest)
  {
  }

  lemma {:induction false} SpellingsAreRead(text: seq<Unit>, i: nat, s: seq<Spelling>, read: seq<Unit>)
    requires AllAllowed(s) && At(text, i, ToQuote(s))
    ensures StringAt(text, i, read) == Done(read + Meanings(s), i + |ToQuote(s)|)
    decreases |s|
  {
    if s == [] {
      AtUnit(text, i, [0x22], 0);
      assert read + [] == read;
    } else {
      var next := i + |Spelt(s[0])|;
      AtSplit(text, i, Spelt(s[0]), ToQuote(s[1..]));
      SpellingIsRead(text, i, s[0]);
      StringStep(text, i, read, Meaning(s[0]), next);
      SpellingsAreRead(text, next, s[1..], read + [Meaning(s[0])]);
      ReadMore(read, Meaning(s[0]), Meanings(s[1..]));
    }
  }

  // ---- Values: sections 2 to 6 ----

  /** White space: blanks, tabs, line feeds and carriage returns. */
  predicate IsGap(s: seq<Unit>) {
    forall k :: 0 <= k < |s| ==> s[k] == 0x20 || s[k] == 0x09 || s[k] == 0x0A || s[k] == 0x0D
  }

  /** A value as it is written; `gap`s are white space. */
  datatype Tree =
    | Word(v: Json)
    | Number(s: seq<Unit>)
    | Text(units: seq<Spelling>)
    | EmptyArray(gap: seq<Unit>)
    | Array(items: ItemTrees)
    | EmptyObject(gap: seq<Unit>)
    | Object(entries: EntryTrees)

  /** The items of an array up to its closing bracket. */
  datatype ItemTrees =
    | LastItem(before: seq<Unit>, t: Tree, after: seq<Unit>)
    | MoreItems(before: seq<Unit>, t: Tree, after: seq<Unit>, rest: ItemTrees)

  datatype EntryTree = EntryTree(before: seq<Unit>, key: seq<Spelling>, after: seq<Unit>, gap: seq<Unit>, t: Tree)

  /** The members of an object up to its closing brace. */
  datatype EntryTrees =
    | LastEntry(e: EntryTree, after: seq<Unit>)
    | MoreEntries(e: EntryTree, after: seq<Unit>, rest: EntryTrees)

  /** null, true and false. */
  function WordText(v: Json): (r: seq<Unit>)
    ensures r != []
  {
    match v
    case Null => [0x6E, 0x75, 0x6C, 0x6C]
    case Bool(b) => if b then [0x74, 0x72, 0x75, 0x65] else [0x66, 0x61, 0x6C, 0x73, 0x65]
    case _ => [0]
  }

  /** The characters of a number: digits, signs, a point and an e of either case. */
  predicate OfNumber(c: Unit) {
    0x30 <= c <= 0x39 || c in {0x2B, 0x2D, 0x2E, 0x45, 0x65}
  }

  /** A number is what the runtime can read as one. */
  predicate IsNumber(d: Doubles, s: seq<Unit>) {
    s != [] && (forall k :: 0 <= k < |s| ==> OfNumber(s[k])) && (LongOf(s).Some? || d.read(s).Some?)
  }

  function SpeltTree(t: Tree): (r: seq<Unit>)
    decreases t
  {
    match t
    case Word(v) => WordText(v)
    case Number(s) => s
    case Text(s) => [0x22] + ToQuote(s)
    case EmptyArray(gap) => [0x5B] + (gap + [0x5D])
    case Array(items) => [0x5B] + SpeltItems(items)
    case EmptyObject(gap) => [0x7B] + (gap + [0x7D])
    case Object(entries) => [0x7B] + SpeltEntries(entries)
  }

  function SpeltItems(items: ItemTrees): seq<Unit>
    decreases items
  {
    match items
    case LastItem(before, t, after) => before + (SpeltTree(t) + (after + [0x5D]))
    case MoreItems(before, t, after, rest) => before + (SpeltTree(t) + (after + ([0x2C] + SpeltItems(rest))))
  }

  function SpeltEntry(e: EntryTree): seq<Unit>
    decreases e
  {
    e.before + ([0x22] + (ToQuote(e.key) + (e.after + ([0x3A] + (e.gap + SpeltTree(e.t))))))
  }

  function SpeltEntries(entries: EntryTrees): seq<Unit>
    decreases entries
  {
    match entries
    case LastEntry(e, after) => SpeltEntry(e) + (after + [0x7D])
    case MoreEntries(e, after, rest) => SpeltEntry(e) + (after + ([0x2C] + SpeltEntries(rest)))
  }

  predicate Valid(d: Doubles, t: Tree)
    decreases t
  {
    match t
    case Word(v) => v.Null? || v.Bool?
    case Number(s) => IsNumber(d, s)
    case Text(s) => AllAllowed(s)
    case EmptyArray(gap) => IsGap(gap)
    case Array(items) => ValidItems(d, items)
    case EmptyObject(gap) => IsGap(gap)
    case Object(entries) => ValidEntries(d, entries)
  }

  predicate ValidItems(d: Doubles, items: ItemTrees)
    decreases items
  {
    IsGap(items.before) && Valid(d, items.t) && IsGap(items.after) && (items.MoreItems? ==> ValidItems(d, items.rest))
  }

  predicate ValidEntry(d: Doubles, e: EntryTree)
    decreases e
  {
    IsGap(e.before) && AllAllowed(e.key) && IsGap(e.after) && IsGap(e.gap) && Valid(d, e.t)
  }

  predicate ValidEntries(d: Doubles, entries: EntryTrees)
    decreases entries
  {
    ValidEntry(d, entries.e) && IsGap(entries.after) && (entries.MoreEntries? ==> ValidEntries(d, entries.rest))
  }

  function NumberMeans(d: Doubles, s: seq<Unit>): Json
    requires IsNumber(d, s)
  {
    if LongOf(s).Some? then Long(LongOf(s).value) else Double(d.read(s).value)
  }

  function Means(d: Doubles, t: Tree): Json
    requires Valid(d, t)
    decreases t
  {
    match t
    case Word(v) => v
    case Number(s) => NumberMeans(d, s)
    case Text(s) => Str(Meanings(s))
    case EmptyArray(_) => List([])
    case Array(items) => List(MeansItems(d, items))
    case EmptyObject(_) => Map([])
    case Object(entries) => Map(MeansEntries(d, entries, []))
  }

  function MeansItems(d: Doubles, items: ItemTrees): seq<Json>
    requires ValidItems(d, items)
    decreases items
  {
    match items
    case LastItem(_, t, _) => [Means(d, t)]
    case MoreItems(_, t, _, rest) => [Means(d, t)] + MeansItems(d, rest)
  }

  function MeansEntry(d: Doubles, e: EntryTree): Pair
    requires ValidEntry(d, e)
    decreases e
  {
    Pair(Meanings(e.key), Means(d, e.t))
  }

  /** A later member of the same name takes the place of an earlier one. */
  function MeansEntries(d: Doubles, entries: EntryTrees, pairs: seq<Pair>): seq<Pair>
    requires ValidEntries(d, entries)
    decreases entries
  {
    var p := MeansEntry(d, entries.e);
    var more := Put(pairs, p.key, p.value);
    match entries
    case LastEntry(_, _) => more
    case MoreEntries(_, _, rest) => MeansEntries(d, rest, more)
  }

  // ---- The reader takes every such text ----

  predicate EndsNumber(text: seq<Unit>, i: nat) {
    i >= |text| || !InNumber(text[i])
  }

  lemma {:induction false} SkipsGap(text: seq<Unit>, i: nat, gap: seq<Unit>, end: nat)
    requires At(text, i, gap) && IsGap(gap) && end == i + |gap| && (end < |text| ==> !IsSpace(text[end]))
    ensures SkipTo(text, i) == end
    decreases |gap|
  {
    if gap != [] {
      AtUnit(text, i, gap, 0);
      AtSplit(text, i, [gap[0]], gap[1..]);
      assert gap == [gap[0]] + gap[1..];
      SkipsGap(text, i + 1, gap[1..], end);
    }
  }

  lemma {:induction false} SkipsTwice(text: seq<Unit>, i: nat)
    requires i <= |text|
    ensures SkipTo(text, SkipTo(text, i)) == SkipTo(text, i)
    decreases |text| - i
  {
    if i < |text| && IsSpace(text[i]) { SkipsTwice(text, i + 1); }
  }

  /** A reader of values, keys, items or members may as well start behind the white space. */
  lemma {:induction false} ValueBehindGap(d: Doubles, text: seq<Unit>, i: nat, k: nat)
    requires i <= |text| && k == SkipTo(text, i)
    ensures ValueAt(d, text, i) == ValueAt(d, text, k)
  {
    SkipsTwice(text, i);
  }

  lemma {:induction false} ItemsBehindGap(d: Doubles, text: seq<Unit>, i: nat, k: nat, items: seq<Json>)
    requires i <= |text| && k == SkipTo(text, i)
    ensures ItemsAt(d, text, i, items) == ItemsAt(d, text, k, items)
  {
    ValueBehindGap(d, text, i, k);
  }

  lemma {:induction false} KeyBehindGap(text: seq<Unit>, i: nat, k: nat)
    requires i <= |text| && k == SkipTo(text, i)
    ensures KeyAt(text, i) == KeyAt(text, k)
  {
    SkipsTwice(text, i);
  }

  lemma {:induction false} MemberBehindGap(d: Doubles, text: seq<Unit>, i: nat, k: nat)
    requires i <= |text| && k == SkipTo(text, i)
    ensures MemberAt(d, text, i) == MemberAt(d, text, k)
  {
    KeyBehindGap(text, i, k);
  }

  lemma {:induction false} MembersBehindGap(d: Doubles, text: seq<Unit>, i: nat, k: nat, pairs: seq<Pair>)
    requires i <= |text| && k == SkipTo(text, i)
    ensures MembersAt(d, text, i, pairs) == MembersAt(d, text, k, pairs)
  {
    MemberBehindGap(d, text, i, k);
    SameMembers(d, text, i, k, pairs);
  }

  lemma {:induction false} SameMembers(d: Doubles, text: seq<Unit>, i: nat, k: nat, pairs: seq<Pair>)
    requires i <= |text| && k <= |text| && MemberAt(d, text, i) == MemberAt(d, text, k)
    ensures MembersAt(d, text, i, pairs) == MembersAt(d, text, k, pairs)
  {
  }

  /** What a value begins with: no white space, and no closing bracket or brace. */
  lemma {:induction false} BeginsValue(d: Doubles, t: Tree)
    requires Valid(d, t)
    ensures var s := SpeltTree(t); s != [] && !IsSpace(s[0]) && s[0] != RBRACKET && s[0] != RBRACE
  {
  }

  lemma {:induction false} NumberEndIs(text: seq<Unit>, i: nat, end: nat)
    requires i <= end <= |text| && EndsNumber(text, end)
    requires forall k :: i <= k < end ==> InNumber(text[k])
    ensures NumberEnd(text, i) == end
    decreases end - i
  {
    if i < end { NumberEndIs(text, i + 1, end); }
  }

  lemma {:induction false} NumberIsRead(d: Doubles, text: seq<Unit>, i: nat, s: seq<Unit>, end: nat)
    requires IsNumber(d, s) && At(text, i, s) && end == i + |s| && EndsNumber(text, end)
    ensures ValueAt(d, text, i) == Done(NumberMeans(d, s), end)
  {
    forall k | i <= k < end ensures OfNumber(text[k]) { AtUnit(text, i, s, k - i); }
    NumberEndIs(text, i, end);
    assert text[i..end] == s;
    NumberIsNext(d, text, i);
  }

  lemma {:induction false} NumberIsNext(d: Doubles, text: seq<Unit>, i: nat)
    requires i < |text| && OfNumber(text[i])
    ensures ValueAt(d, text, i) == NumberAt(d, text, i)
  {
  }

  lemma {:induction false} WordIsRead(d: Doubles, text: seq<Unit>, i: nat, v: Json)
    requires (v.Null? || v.Bool?) && At(text, i, WordText(v))
    ensures ValueAt(d, text, i) == Done(v, i + |WordText(v)|)
  {
    AtUnit(text, i, WordText(v), 0);
  }

  lemma {:induction false} TextIsRead(d: Doubles, text: seq<Unit>, i: nat, s: seq<Spelling>)
    requires AllAllowed(s) && At(text, i, [0x22] + ToQuote(s))
    ensures i < |text| && text[i] == QUOTE && StringAt(text, i + 1, []) == Done(Meanings(s), i + 1 + |ToQuote(s)|)
    ensures ValueAt(d, text, i) == Done(Str(Meanings(s)), i + 1 + |ToQuote(s)|)
  {
    AtSplit(text, i, [0x22], ToQuote(s));
    AtUnit(text, i, [0x22], 0);
    SpellingsAreRead(text, i + 1, s, []);
    assert [] + Meanings(s) == Meanings(s);
  }

  /** A gap and then one character that is not white space. */
  lemma {:induction false} GapThen(text: seq<Unit>, i: nat, gap: seq<Unit>, c: Unit, rest: seq<Unit>, at: nat)
    requires IsGap(gap) && At(text, i, gap + ([c] + rest)) && at == i + |gap| && !IsSpace(c)
    ensures at < |text| && text[at] == c && SkipTo(text, i) == at && At(text, at + 1, rest)
    ensures !InNumber(c) ==> EndsNumber(text, i)
  {
    AtSplit(text, i, gap, [c] + rest);
    AtSplit(text, at, [c], rest);
    AtUnit(text, at, [c], 0);
    SkipsGap(text, i, gap, at);
    if gap != [] { AtUnit(text, i, gap, 0); }
  }

  lemma {:induction false} EmptyIsRead(d: Doubles, text: seq<Unit>, i: nat, open: Unit, gap: seq<Unit>, close: Unit, at: nat)
    requires IsGap(gap) && At(text, i, [open] + (gap + [close])) && at == i + 1 + |gap|
    requires (open == 0x5B && close == 0x5D) || (open == 0x7B && close == 0x7D)
    ensures ValueAt(d, text, i) == Done(if open == 0x5B then List([]) else Map([]), at + 1)
  {
    AtSplit(text, i, [open], gap + [close]);
    AtUnit(text, i, [open], 0);
    assert gap + [close] == gap + ([close] + []);
    GapThen(text, i + 1, gap, close, [], at);
  }

  /** Reading at a value gives what it means and stops just behind it; a number must not go on. */
  lemma {:induction false} TreeIsRead(d: Doubles, text: seq<Unit>, i: nat, t: Tree, end: nat)
    requires Valid(d, t) && At(text, i, SpeltTree(t)) && end == i + |SpeltTree(t)| && EndsNumber(text, end)
    ensures ValueAt(d, text, i) == Done(Means(d, t), end)
    decreases t, 0
  {
    match t
    case Word(v) => WordIsRead(d, text, i, v);
    case Number(s) => NumberIsRead(d, text, i, s, end);
    case Text(s) => TextIsRead(d, text, i, s);
    case EmptyArray(gap) => EmptyIsRead(d, text, i, 0x5B, gap, 0x5D, end - 1);
    case Array(items) => ArrayIsRead(d, text, i, items, end);
    case EmptyObject(gap) => EmptyIsRead(d, text, i, 0x7B, gap, 0x7D, end - 1);
    case Object(entries) => ObjectIsRead(d, text, i, entries, end);
  }

  /** A value between white space, and what comes behind. */
  lemma {:induction false} SpacedIsRead(d: Doubles, text: seq<Unit>, i: nat, before: seq<Unit>, t: Tree, rest: seq<Unit>, at: nat, end: nat)
    requires IsGap(before) && Valid(d, t) && At(text, i, before + (SpeltTree(t) + rest))
    requires at == i + |before| && end == at + |SpeltTree(t)| && (At(text, end, rest) ==> EndsNumber(text, end))
    ensures ValueAt(d, text, i) == Done(Means(d, t), end) && At(text, end, rest) && SkipTo(text, i) == at
    ensures i <= at < |text| && text[at] == SpeltTree(t)[0]
    decreases t, 1
  {
    AtSplit(text, i, before, SpeltTree(t) + rest);
    AtSplit(text, at, SpeltTree(t), rest);
    BeginsValue(d, t);
    AtUnit(text, at, SpeltTree(t), 0);
    SkipsGap(text, i, before, at);
    ValueBehindGap(d, text, i, at);
    TreeIsRead(d, text, at, t, end);
  }

  lemma {:induction false} ArrayIsRead(d: Doubles, text: seq<Unit>, i: nat, items: ItemTrees, end: nat)
    requires ValidItems(d, items) && At(text, i, [0x5B] + SpeltItems(items)) && end == i + 1 + |SpeltItems(items)|
    ensures ValueAt(d, text, i) == Done(List(MeansItems(d, items)), end)
    decreases items, 2
  {
    AtSplit(text, i, [0x5B], SpeltItems(items));
    AtUnit(text, i, [0x5B], 0);
    ItemsAreRead(d, text, i + 1, items, [], end);
    var k := SkipTo(text, i + 1);
    ItemsBehindGap(d, text, i + 1, k, []);
    assert [] + MeansItems(d, items) == MeansItems(d, items);
  }

  lemma {:induction false} ItemsStep(d: Doubles, text: seq<Unit>, i: nat, done: seq<Json>, v: Json, end: nat, k: nat, next: nat)
    requires i <= |text| && ValueAt(d, text, i) == Done(v, end) && k == SkipTo(text, end) && k < |text| && next == k + 1
    ensures text[k] == COMMA ==> ItemsAt(d, text, i, done) == ItemsAt(d, text, next, done + [v])
    ensures text[k] == RBRACKET ==> ItemsAt(d, text, i, done) == Done(List(done + [v]), next)
  {
  }

  lemma {:induction false} OneAndMore<T>(done: seq<T>, v: T, rest: seq<T>)
    ensures done + [v] + rest == done + ([v] + rest)
  {
  }

  /** What follows an item: the closing bracket, or a comma and the other items. */
  function BehindItem(items: ItemTrees): (Unit, seq<Unit>) {
    match items
    case LastItem(_, _, _) => (0x5D, [])
    case MoreItems(_, _, _, rest) => (0x2C, SpeltItems(rest))
  }

  lemma {:induction false} ItemsSplit(items: ItemTrees)
    ensures var (c, tail) := BehindItem(items);
      && SpeltItems(items) == items.before + (SpeltTree(items.t) + (items.after + ([c] + tail)))
      && |SpeltItems(items)| == |items.before| + |SpeltTree(items.t)| + |items.after| + 1 + |tail|
  {
    assert [0x5D] + [] == [0x5D];
  }

  /** Where the first item's own text ends with the character behind it. */
  function ItemEnd(items: ItemTrees, i: nat): nat {
    i + |items.before| + |SpeltTree(items.t)| + |items.after| + 1
  }

  lemma {:induction false} FirstItemIsRead(d: Doubles, text: seq<Unit>, i: nat, items: ItemTrees, done: seq<Json>, next: nat)
    requires ValidItems(d, items) && At(text, i, SpeltItems(items)) && next == ItemEnd(items, i)
    ensures i <= |text| && next <= |text| && At(text, next, BehindItem(items).1)
    ensures ItemsAt(d, text, i, done) ==
      if items.LastItem? then Done(List(done + [Means(d, items.t)]), next) else ItemsAt(d, text, next, done + [Means(d, items.t)])
    ensures var k := SkipTo(text, i); k < |text| && text[k] != RBRACKET
    decreases items, 0
  {
    var c, tail := BehindItem(items).0, BehindItem(items).1;
    var at := i + |items.before|;
    var stop := at + |SpeltTree(items.t)|;
    ItemsSplit(items);
    ItemIsRead(d, text, i, items.before, items.t, items.after, c, tail, at, stop, next - 1);
    ItemsStep(d, text, i, done, Means(d, items.t), stop, next - 1, next);
  }

  lemma {:induction false} ItemsAreRead(d: Doubles, text: seq<Unit>, i: nat, items: ItemTrees, done: seq<Json>, end: nat)
    requires ValidItems(d, items) && At(text, i, SpeltItems(items)) && end == i + |SpeltItems(items)|
    ensures i <= |text| && ItemsAt(d, text, i, done) == Done(List(done + MeansItems(d, items)), end)
    ensures var k := SkipTo(text, i); k < |text| && text[k] != RBRACKET
    decreases items, 1
  {
    var next := ItemEnd(items, i);
    ItemsSplit(items);
    FirstItemIsRead(d, text, i, items, done, next);
    if items.MoreItems? {
      ItemsAreRead(d, text, next, items.rest, done + [Means(d, items.t)], end);
      MoreMean(d, items, done);
    } else {
      JustOneMeans(d, items, done);
    }
  }

  lemma {:induction false} MoreMean(d: Doubles, items: ItemTrees, done: seq<Json>)
    requires items.MoreItems? && ValidItems(d, items)
    ensures done + MeansItems(d, items) == done + [Means(d, items.t)] + MeansItems(d, items.rest)
  {
    OneAndMore(done, Means(d, items.t), MeansItems(d, items.rest));
  }

  lemma {:induction false} JustOneMeans(d: Doubles, items: ItemTrees, done: seq<Json>)
    requires items.LastItem? && ValidItems(d, items)
    ensures done + MeansItems(d, items) == done + [Means(d, items.t)] && BehindItem(items) == (0x5D, [])
  {
  }

  lemma {:induction false} MoreAreRead(d: Doubles, text: seq<Unit>, i: nat, items: ItemTrees, done: seq<Json>, end: nat)
    requires items.MoreItems? && ValidItems(d, items) && At(text, i, SpeltItems(items.rest)) && end == i + |SpeltItems(items.rest)|
    ensures ItemsAt(d, text, i, done + [Means(d, items.t)]) == Done(List(done + MeansItems(d, items)), end)
    decreases items, 0
  {
    ItemsAreRead(d, text, i, items.rest, done + [Means(d, items.t)], end);
    OneAndMore(done, Means(d, items.t), MeansItems(d, items.rest));
  }

  /** One item, the white space around it and the character behind it. */
  lemma {:induction false} ItemIsRead(d: Doubles, text: seq<Unit>, i: nat, before: seq<Unit>, t: Tree, after: seq<Unit>, c: Unit, tail: seq<Unit>,
                                      at: nat, stop: nat, k: nat)
    requires IsGap(before) && Valid(d, t) && IsGap(after) && !IsSpace(c) && !InNumber(c)
    requires At(text, i, before + (SpeltTree(t) + (after + ([c] + tail))))
    requires at == i + |before| && stop == at + |SpeltTree(t)| && k == stop + |after|
    ensures ValueAt(d, text, i) == Done(Means(d, t), stop) && SkipTo(text, i) == at
    ensures at < |text| && text[at] != RBRACKET && text[at] != RBRACE
    ensures SkipTo(text, stop) == k && k < |text| && text[k] == c && At(text, k + 1, tail)
    decreases t, 2
  {
    var rest := after + ([c] + tail);
    if At(text, stop, rest) { GapThen(text, stop, after, c, tail, k); }
    SpacedIsRead(d, text, i, before, t, rest, at, stop);
    GapThen(text, stop, after, c, tail, k);
    BeginsValue(d, t);
  }

  lemma {:induction false} ObjectIsRead(d: Doubles, text: seq<Unit>, i: nat, entries: EntryTrees, end: nat)
    requires ValidEntries(d, entries) && At(text, i, [0x7B] + SpeltEntries(entries)) && end == i + 1 + |SpeltEntries(entries)|
    ensures ValueAt(d, text, i) == Done(Map(MeansEntries(d, entries, [])), end)
    decreases entries, 2
  {
    AtSplit(text, i, [0x7B], SpeltEntries(entries));
    AtUnit(text, i, [0x7B], 0);
    EntriesAreRead(d, text, i + 1, entries, [], end);
    var k := SkipTo(text, i + 1);
    MembersBehindGap(d, text, i + 1, k, []);
  }

  lemma {:induction false} MembersStep(d: Doubles, text: seq<Unit>, i: nat, done: seq<Pair>, p: Pair, end: nat, k: nat, next: nat)
    requires i <= |text| && MemberAt(d, text, i) == Done(p, end) && k == SkipTo(text, end) && k < |text| && next == k + 1
    ensures text[k] == COMMA ==> MembersAt(d, text, i, done) == MembersAt(d, text, next, Put(done, p.key, p.value))
    ensures text[k] == RBRACE ==> MembersAt(d, text, i, done) == Done(Map(Put(done, p.key, p.value)), next)
  {
  }

  /** What follows a member: the closing brace, or a comma and the other members. */
  function BehindEntry(entries: EntryTrees): (Unit, seq<Unit>) {
    match entries
    case LastEntry(_, _) => (0x7D, [])
    case MoreEntries(_, _, rest) => (0x2C, SpeltEntries(rest))
  }

  lemma {:induction false} EntriesSplit(entries: EntryTrees)
    ensures var (c, tail) := BehindEntry(entries);
      && SpeltEntries(entries) == SpeltEntry(entries.e) + (entries.after + ([c] + tail))
      && |SpeltEntries(entries)| == |SpeltEntry(entries.e)| + |entries.after| + 1 + |tail|
  {
    assert [0x7D] + [] == [0x7D];
  }

  function EntryEnd(entries: EntryTrees, i: nat): nat {
    i + |SpeltEntry(entries.e)| + |entries.after| + 1
  }

  lemma {:induction false} OneEntryIsRead(d: Doubles, text: seq<Unit>, i: nat, entries: EntryTrees, done: seq<Pair>, next: nat)
    requires ValidEntries(d, entries) && At(text, i, SpeltEntries(entries)) && next == EntryEnd(entries, i)
    ensures i <= |text| && next <= |text| && At(text, next, BehindEntry(entries).1)
    ensures MembersAt(d, text, i, done) ==
      if entries.LastEntry? then Done(Map(Assigned(d, entries.e, done)), next) else MembersAt(d, text, next, Assigned(d, entries.e, done))
    ensures var k := SkipTo(text, i); k < |text| && text[k] != RBRACE
    decreases entries, 0
  {
    var c, tail := BehindEntry(entries).0, BehindEntry(entries).1;
    var stop := i + |SpeltEntry(entries.e)|;
    EntriesSplit(entries);
    FirstEntryIsRead(d, text, i, entries.e, entries.after, c, tail, stop, next - 1);
    MembersStep(d, text, i, done, MeansEntry(d, entries.e), stop, next - 1, next);
  }

  lemma {:induction false} EntriesAreRead(d: Doubles, text: seq<Unit>, i: nat, entries: EntryTrees, done: seq<Pair>, end: nat)
    requires ValidEntries(d, entries) && At(text, i, SpeltEntries(entries)) && end == i + |SpeltEntries(entries)|
    ensures i <= |text| && MembersAt(d, text, i, done) == Done(Map(MeansEntries(d, entries, done)), end)
    ensures var k := SkipTo(text, i); k < |text| && text[k] != RBRACE
    decreases entries, 1
  {
    var next := EntryEnd(entries, i);
    EntriesSplit(entries);
    OneEntryIsRead(d, text, i, entries, done, next);
    EntriesMean(d, entries, done);
    if entries.MoreEntries? { EntriesAreRead(d, text, next, entries.rest, Assigned(d, entries.e, done), end); }
  }

  function Assigned(d: Doubles, e: EntryTree, done: seq<Pair>): seq<Pair>
    requires ValidEntry(d, e)
  {
    Put(done, MeansEntry(d, e).key, MeansEntry(d, e).value)
  }

  lemma {:induction false} EntriesMean(d: Doubles, entries: EntryTrees, done: seq<Pair>)
    requires ValidEntries(d, entries)
    ensures entries.LastEntry? ==> BehindEntry(entries) == (0x7D, []) && MeansEntries(d, entries, done) == Assigned(d, entries.e, done)
    ensures entries.MoreEntries? ==> BehindEntry(entries) == (0x2C, SpeltEntries(entries.rest))
    ensures entries.MoreEntries? ==> MeansEntries(d, entries, done) == MeansEntries(d, entries.rest, Assigned(d, entries.e, done))
  {
  }

  lemma {:induction false} FirstEntryIsRead(d: Doubles, text: seq<Unit>, i: nat, e: EntryTree, after: seq<Unit>, c: Unit, tail: seq<Unit>,
                                            stop: nat, k: nat)
    requires ValidEntry(d, e) && IsGap(after) && !IsSpace(c) && !InNumber(c)
    requires At(text, i, SpeltEntry(e) + (after + ([c] + tail))) && stop == i + |SpeltEntry(e)| && k == stop + |after|
    ensures MemberAt(d, text, i) == Done(MeansEntry(d, e), stop)
    ensures SkipTo(text, stop) == k && k < |text| && text[k] == c && At(text, k + 1, tail)
    ensures var j := SkipTo(text, i); j < |text| && text[j] == QUOTE
    decreases e, 1
  {
    AtSplit(text, i, SpeltEntry(e), after + ([c] + tail));
    GapThen(text, stop, after, c, tail, k);
    EntryIsRead(d, text, i, e, stop);
  }

  /** A key between white space, its colon, and what comes behind. */
  lemma {:induction false} KeyIsRead(text: seq<Unit>, i: nat, before: seq<Unit>, key: seq<Spelling>, after: seq<Unit>, rest: seq<Unit>,
                                     at: nat, close: nat, colon: nat)
    requires IsGap(before) && AllAllowed(key) && IsGap(after)
    requires At(text, i, before + ([0x22] + (ToQuote(key) + (after + ([0x3A] + rest)))))
    requires at == i + |before| && close == at + 1 + |ToQuote(key)| && colon == close + |after|
    ensures KeyAt(text, i) == Done(Meanings(key), colon + 1) && At(text, colon + 1, rest)
    ensures SkipTo(text, i) == at && at < |text| && text[at] == QUOTE
  {
    var behind := after + ([0x3A] + rest);
    GapThen(text, i, before, 0x22, ToQuote(key) + behind, at);
    QuotedIsRead(text, at + 1, key, behind, close);
    GapThen(text, close, after, 0x3A, rest, colon);
    KeyStep(text, i, at, Meanings(key), close, colon);
  }

  lemma {:induction false} QuotedIsRead(text: seq<Unit>, i: nat, s: seq<Spelling>, rest: seq<Unit>, end: nat)
    requires AllAllowed(s) && At(text, i, ToQuote(s) + rest) && end == i + |ToQuote(s)|
    ensures StringAt(text, i, []) == Done(Meanings(s), end) && At(text, end, rest)
  {
    AtSplit(text, i, ToQuote(s), rest);
    SpellingsAreRead(text, i, s, []);
    assert [] + Meanings(s) == Meanings(s);
  }

  lemma {:induction false} KeyStep(text: seq<Unit>, i: nat, at: nat, key: seq<Unit>, close: nat, colon: nat)
    requires i <= |text| && SkipTo(text, i) == at && at < |text| && text[at] == QUOTE && StringAt(text, at + 1, []) == Done(key, close)
    requires SkipTo(text, close) == colon && colon < |text| && text[colon] == COLON
    ensures KeyAt(text, i) == Done(key, colon + 1)
  {
  }

  lemma {:induction false} EntryIsRead(d: Doubles, text: seq<Unit>, i: nat, e: EntryTree, stop: nat)
    requires ValidEntry(d, e) && At(text, i, SpeltEntry(e)) && stop == i + |SpeltEntry(e)| && EndsNumber(text, stop)
    ensures MemberAt(d, text, i) == Done(MeansEntry(d, e), stop)
    ensures var k := SkipTo(text, i); k < |text| && text[k] == QUOTE
    decreases e, 0
  {
    EntrySize(e);
    var at := i + |e.before|;
    var close := at + 1 + |ToQuote(e.key)|;
    var colon := close + |e.after|;
    KeyIsRead(text, i, e.before, e.key, e.after, e.gap + SpeltTree(e.t), at, close, colon);
    assert stop == colon + 1 + |e.gap| + |SpeltTree(e.t)|;
    EndSpacedIsRead(d, text, colon + 1, e.gap, e.t, stop);
    MemberStep(d, text, i, Meanings(e.key), colon + 1, Means(d, e.t), stop);
  }

  lemma {:induction false} EntrySize(e: EntryTree)
    ensures |SpeltEntry(e)| == |e.before| + 1 + |ToQuote(e.key)| + |e.after| + 1 + |e.gap| + |SpeltTree(e.t)|
  {
  }

  lemma {:induction false} MemberStep(d: Doubles, text: seq<Unit>, i: nat, key: seq<Unit>, mid: nat, v: Json, end: nat)
    requires i <= |text| && KeyAt(text, i) == Done(key, mid) && mid <= |text| && ValueAt(d, text, mid) == Done(v, end)
    ensures MemberAt(d, text, i) == Done(Pair(key, v), end)
  {
  }

  lemma {:induction false} EndSpacedIsRead(d: Doubles, text: seq<Unit>, i: nat, before: seq<Unit>, t: Tree, end: nat)
    requires IsGap(before) && Valid(d, t) && At(text, i, before + SpeltTree(t)) && end == i + |before| + |SpeltTree(t)| && EndsNumber(text, end)
    ensures ValueAt(d, text, i) == Done(Means(d, t), end)
    decreases t, 2
  {
    assert before + SpeltTree(t) == before + (SpeltTree(t) + []);
    SpacedIsRead(d, text, i, before, t, [], i + |before|, end);
  }

  // ---- Whole messages ----

  predicate IsObject(t: Tree) {
    t.Object? || t.EmptyObject?
  }

  /** A message by the grammar: a value with white space on either side. */
  function Message(before: seq<Unit>, t: Tree, after: seq<Unit>): seq<Unit> {
    before + (SpeltTree(t) + after)
  }

  lemma {:induction false} AllOfIt(text: seq<Unit>)
    ensures At(text, 0, text)
  {
  }

  lemma {:induction false} OnlyObjectsMeanMaps(d: Doubles, t: Tree)
    requires Valid(d, t)
    ensures Means(d, t).Map? <==> IsObject(t)
  {
  }

  /** Whatever its white space and its escapes, an object by the grammar is read as what it means; any other value is refused. */
  lemma {:induction false} GrammarIsRead(d: Doubles, before: seq<Unit>, t: Tree, after: seq<Unit>)
    requires IsGap(before) && Valid(d, t) && IsGap(after)
    ensures var text := Message(before, t, after);
      ObjectOf(d, text) == if IsObject(t) then Done(Means(d, t), |text|) else Failed(NotAnObject)
  {
    var text, at := Message(before, t, after), |before|;
    AllOfIt(text);
    GapEndsNumber(text, at + |SpeltTree(t)|, after);
    SpacedIsRead(d, text, 0, before, t, after, at, at + |SpeltTree(t)|);
    SkipsGap(text, at + |SpeltTree(t)|, after, |text|);
    OnlyObjectsMeanMaps(d, t);
  }

  lemma {:induction false} GapEndsNumber(text: seq<Unit>, i: nat, gap: seq<Unit>)
    requires IsGap(gap) && i + |gap| == |text|
    ensures At(text, i, gap) ==> EndsNumber(text, i)
  {
    if gap != [] && At(text, i, gap) { AtUnit(text, i, gap, 0); }
  }
}
