/** One message a line: the helper's serving loop over its input. */
module JsonLines {
  import opened Base
  import opened JsonWriter
  import opened JsonReader
  import opened JsonGrammar
  import opened JsonAccepts
  import opened JsonRoundTrip
  import opened Slices

  // ---- A written message has no line break ----

  predicate Unbroken(s: seq<Unit>) {
    forall k :: 0 <= k < |s| ==> s[k] != CR && s[k] != LF
  }

  lemma {:induction false} JoinIsUnbroken(a: seq<Unit>, b: seq<Unit>)
    requires Unbroken(a) && Unbroken(b)
    ensures Unbroken(a + b)
  {
  }

  lemma {:induction false} EscapedIsUnbroken(s: seq<Unit>)
    ensures Unbroken(Escaped(s))
    decreases |s|
  {
    if s != [] {
      EscapedIsUnbroken(s[1..]);
      JoinIsUnbroken(EscapedUnit(s[0]), Escaped(s[1..]));
    }
  }

  lemma {:induction false} QuotedIsUnbroken(s: seq<Unit>)
    ensures Unbroken(Quoted(s))
  {
    EscapedIsUnbroken(s);
    JoinIsUnbroken([QUOTE], Escaped(s));
    JoinIsUnbroken([QUOTE] + Escaped(s), [QUOTE]);
  }

  /** However line breaks occur in the strings of a value, none occurs in its text. */
  lemma {:induction false} WrittenIsOneLine(d: Doubles, v: Json)
    requires Lawful(d) && Sound(v)
    ensures Unbroken(Render(d, v))
    decreases v, 1
  {
    match v
    case Long(n) => LongReadsBack(n);
    case Double(r) => assert Shows(d, r);
    case Str(s) => QuotedIsUnbroken(s);
    case List(items) => ItemsAreOneLine(d, items);
    case Map(pairs) => MembersAreOneLine(d, pairs);
    case _ =>
  }

  lemma {:induction false} ItemsAreOneLine(d: Doubles, items: seq<Json>)
    requires Lawful(d) && SoundItems(items)
    ensures Unbroken(Items(d, items))
    decreases items, 0
  {
    if items != [] {
      WrittenIsOneLine(d, items[0]);
      ItemsAreOneLine(d, items[1..]);
      JoinIsUnbroken(Render(d, items[0]), [COMMA]);
      JoinIsUnbroken(Render(d, items[0]) + [COMMA], Items(d, items[1..]));
    }
  }

  lemma {:induction false} MembersAreOneLine(d: Doubles, pairs: seq<Pair>)
    requires Lawful(d) && SoundPairs(pairs)
    ensures Unbroken(Members(d, pairs))
    decreases pairs, 0
  {
    if pairs != [] {
      QuotedIsUnbroken(pairs[0].key);
      WrittenIsOneLine(d, pairs[0].value);
      JoinIsUnbroken(Quoted(pairs[0].key), [COLON]);
      JoinIsUnbroken(Quoted(pairs[0].key) + [COLON], Render(d, pairs[0].value));
      MembersAreOneLine(d, pairs[1..]);
      JoinIsUnbroken(Member(d, pairs[0]), [COMMA]);
      JoinIsUnbroken(Member(d, pairs[0]) + [COMMA], Members(d, pairs[1..]));
    }
  }

  // ---- The serving loop ----

  /** Where the line that starts at `i` ends: at a line feed, at a carriage return, or with the input. */
  function LineEnd(input: seq<Unit>, i: nat): (r: nat)
    requires i <= |input|
    ensures i <= r <= |input|
    decreases |input| - i
  {
    if i == |input| || input[i] == CR || input[i] == LF then i else LineEnd(input, i + 1)
  }

  /** Where the next line starts: a carriage return and a line feed together end one line. */
  function AfterLine(input: seq<Unit>, end: nat): (r: nat)
    requires end <= |input|
    ensures end <= r <= |input| && (end < |input| ==> end < r)
  {
    if end == |input| then end
    else if input[end] == CR && end + 1 < |input| && input[end + 1] == LF then end + 2
    else end + 1
  }

  const OP: seq<Unit> := ['o' as int, 'p' as int]
  const SHUTDOWN: seq<Unit> :=
    ['s' as int, 'h' as int, 'u' as int, 't' as int, 'd' as int, 'o' as int, 'w' as int, 'n' as int]

  function Get(pairs: seq<Pair>, key: seq<Unit>): Option<Json> {
    if pairs == [] then None else if pairs[0].key == key then Some(pairs[0].value) else Get(pairs[1..], key)
  }

  predicate IsShutdown(m: Json)
    requires m.Map?
  {
    Get(m.pairs, OP) == Some(Str(SHUTDOWN))
  }

  /** The requests handled from index `i` on: a line that is no object is skipped, a shutdown is the last. */
  function Served(d: Doubles, input: seq<Unit>, i: nat): seq<Json>
    requires i <= |input|
    decreases |input| - i
  {
    if i == |input| then []
    else
      var end := LineEnd(input, i);
      var r := ObjectOf(d, input[i..end]);
      if r.Failed? then Served(d, input, AfterLine(input, end))
      else if IsShutdown(r.value) then [r.value]
      else [r.value] + Served(d, input, AfterLine(input, end))
  }

  method ReadLine(input: seq<Unit>, start: nat) returns (line: seq<Unit>, next: nat)
    requires start < |input|
    ensures line == input[start..LineEnd(input, start)] && next == AfterLine(input, LineEnd(input, start))
  {
    var end := start;
    while end < |input| && input[end] != CR && input[end] != LF
      invariant start <= end <= |input|
      invariant LineEnd(input, end) == LineEnd(input, start)
    {
      end := end + 1;
    }
    line, next := input[start..end], AfterLine(input, end);
  }

  method Serve(d: Doubles, input: seq<Unit>) returns (handled: seq<Json>)
    ensures handled == Served(d, input, 0)
  {
    handled := [];
    var position := 0;
    while position < |input|
      invariant position <= |input|
      invariant handled + Served(d, input, position) == Served(d, input, 0)
    {
      var line, next := ReadLine(input, position);
      var request := ParseObject(d, line);
      if request.Done? {
        ServedStep(d, input, position, handled);
        handled := handled + [request.value];
        if IsShutdown(request.value) {
          return;
        }
      }
      position := next;
    }
  }

  lemma {:induction false} ServedStep(d: Doubles, input: seq<Unit>, i: nat, before: seq<Json>)
    requires i < |input|
    ensures var end := LineEnd(input, i); var r := ObjectOf(d, input[i..end]);
            r.Done? ==> before + Served(d, input, i) == before + [r.value] +
                          (if IsShutdown(r.value) then [] else Served(d, input, AfterLine(input, end)))
  {
  }

  // ---- Messages survive the line protocol ----

  datatype Message = Message(value: Json, crlf: bool)

  function Terminator(m: Message): seq<Unit> {
    if m.crlf then [CR, LF] else [LF]
  }

  function Stream(d: Doubles, messages: seq<Message>): seq<Unit> {
    if messages == [] then []
    else Render(d, messages[0].value) + (Terminator(messages[0]) + Stream(d, messages[1..]))
  }

  /** What the messages become, up to and including the first shutdown. */
  function UpToShutdown(d: Doubles, messages: seq<Message>): seq<Json>
    requires forall k :: 0 <= k < |messages| ==> messages[k].value.Map?
  {
    if messages == [] then []
    else
      var v := messages[0].value;
      [Returned(d, v)] + (if IsShutdown(v) then [] else UpToShutdown(d, messages[1..]))
  }

  lemma {:induction false} GetReturned(d: Doubles, pairs: seq<Pair>, key: seq<Unit>, s: seq<Unit>)
    ensures Get(ReturnedPairs(d, pairs), key) == Some(Str(s)) <==> Get(pairs, key) == Some(Str(s))
    decreases |pairs|
  {
    if pairs != [] && pairs[0].key != key {
      assert ReturnedPairs(d, pairs)[1..] == ReturnedPairs(d, pairs[1..]);
      GetReturned(d, pairs[1..], key, s);
    }
  }

  lemma {:induction false} LineEndIs(input: seq<Unit>, i: nat, end: nat)
    requires i <= end < |input| && (input[end] == CR || input[end] == LF)
    requires forall k :: i <= k < end ==> input[k] != CR && input[k] != LF
    ensures LineEnd(input, i) == end
    decreases end - i
  {
    if i < end { LineEndIs(input, i + 1, end); }
  }

  lemma {:induction false} MessageLine(input: seq<Unit>, i: nat, s: seq<Unit>, m: Message, rest: seq<Unit>)
    requires Unbroken(s) && At(input, i, s + (Terminator(m) + rest))
    ensures LineEnd(input, i) == i + |s| && input[i..i + |s|] == s
    ensures AfterLine(input, i + |s|) == i + |s| + |Terminator(m)| && At(input, i + |s| + |Terminator(m)|, rest)
  {
    var end := i + |s|;
    AtSplit(input, i, s, Terminator(m) + rest);
    AtSplit(input, end, Terminator(m), rest);
    AtUnit(input, end, Terminator(m), 0);
    if m.crlf { AtUnit(input, end, Terminator(m), 1); }
    forall k | i <= k < end ensures input[k] != CR && input[k] != LF {
      AtUnit(input, i, s, k - i);
    }
    LineEndIs(input, i, end);
  }

  predicate AllObjects(messages: seq<Message>) {
    forall k :: 0 <= k < |messages| ==> messages[k].value.Map? && Sound(messages[k].value)
  }

  /** The line of one message, and where the next one starts. */
  lemma {:induction false} NextMessage(d: Doubles, input: seq<Unit>, i: nat, m: Message, rest: seq<Unit>, s: seq<Unit>, next: nat)
    requires Lawful(d) && m.value.Map? && Sound(m.value)
    requires s == Render(d, m.value) && next == i + |s| + |Terminator(m)|
    requires At(input, i, s + (Terminator(m) + rest))
    ensures LineEnd(input, i) == i + |s| && input[i..i + |s|] == s && AfterLine(input, i + |s|) == next
    ensures At(input, next, rest) && i < next
    ensures ObjectOf(d, s) == Done(Returned(d, m.value), |s|)
    ensures IsShutdown(Returned(d, m.value)) == IsShutdown(m.value)
  {
    WrittenIsOneLine(d, m.value);
    MessageLine(input, i, s, m, rest);
    WhatComesBack(d, m.value);
    GetReturned(d, m.value.pairs, OP, SHUTDOWN);
  }

  lemma {:induction false} ServedFrom(d: Doubles, input: seq<Unit>, i: nat, messages: seq<Message>)
    requires Lawful(d) && AllObjects(messages)
    requires At(input, i, Stream(d, messages)) && i + |Stream(d, messages)| == |input|
    ensures Served(d, input, i) == UpToShutdown(d, messages)
    decreases |messages|
  {
    if messages != [] {
      var m, rest := messages[0], Stream(d, messages[1..]);
      var s := Render(d, m.value);
      var next := i + |s| + |Terminator(m)|;
      NextMessage(d, input, i, m, rest, s, next);
      ServedFrom(d, input, next, messages[1..]);
      OneServed(d, input, i, s, m.value, next);
    }
  }

  lemma {:induction false} LineServed(d: Doubles, input: seq<Unit>, i: nat, line: seq<Unit>, end: nat, next: nat)
    requires i < |input| && end == LineEnd(input, i) && line == input[i..end] && next == AfterLine(input, end)
    requires ObjectOf(d, line).Done?
    ensures var v := ObjectOf(d, line).value;
      Served(d, input, i) == [v] + (if IsShutdown(v) then [] else Served(d, input, next))
  {
  }

  lemma {:induction false} OneServed(d: Doubles, input: seq<Unit>, i: nat, s: seq<Unit>, v: Json, next: nat)
    requires v.Map? && i < |input| && i + |s| <= |input| && input[i..i + |s|] == s && LineEnd(input, i) == i + |s|
    requires ObjectOf(d, s) == Done(Returned(d, v), |s|) && AfterLine(input, i + |s|) == next
    requires IsShutdown(Returned(d, v)) == IsShutdown(v)
    ensures Served(d, input, i) == [Returned(d, v)] + (if IsShutdown(v) then [] else Served(d, input, next))
  {
    LineServed(d, input, i, s, i + |s|, next);
  }

  /**
   * Any sequence of written objects, one a line with either line ending, is served as exactly that
   * sequence, up to the first request to shut down.
   */
  lemma {:induction false} FramingIsSafe(d: Doubles, messages: seq<Message>)
    requires Lawful(d) && AllObjects(messages)
    ensures Served(d, Stream(d, messages), 0) == UpToShutdown(d, messages)
  {
    var input := Stream(d, messages);
    assert input[0..0 + |input|] == input;
    ServedFrom(d, input, 0, messages);
  }

  // ---- Whatever is accepted can be written again ----

  /** What the grammar means is a value that the program can hold: 64-bit integers, and dictionaries whose keys differ. */
  lemma {:induction false} MeaningIsSound(d: Doubles, t: Tree)
    requires Valid(d, t)
    ensures Sound(Means(d, t))
    decreases t
  {
    match t
    case Array(items) => ItemsMeanSound(d, items);
    case Object(entries) => EntriesMeanSound(d, entries, []);
    case _ =>
  }

  lemma {:induction false} ItemsMeanSound(d: Doubles, items: ItemTrees)
    requires ValidItems(d, items)
    ensures SoundItems(MeansItems(d, items))
    decreases items
  {
    MeaningIsSound(d, items.t);
    if items.MoreItems? {
      ItemsMeanSound(d, items.rest);
      assert MeansItems(d, items)[1..] == MeansItems(d, items.rest);
    } else {
      assert MeansItems(d, items)[1..] == [];
    }
  }

  lemma {:induction false} EntriesMeanSound(d: Doubles, entries: EntryTrees, done: seq<Pair>)
    requires ValidEntries(d, entries) && SoundPairs(done)
    ensures SoundPairs(MeansEntries(d, entries, done))
    decreases entries
  {
    EntriesMean(d, entries, done);
    EntryMeansSound(d, entries.e);
    PutKeepsSound(done, MeansEntry(d, entries.e).key, MeansEntry(d, entries.e).value);
    if entries.MoreEntries? { EntriesMeanSound(d, entries.rest, Assigned(d, entries.e, done)); }
  }

  lemma {:induction false} EntryMeansSound(d: Doubles, e: EntryTree)
    requires ValidEntry(d, e)
    ensures Sound(MeansEntry(d, e).value)
    decreases e
  {
    MeaningIsSound(d, e.t);
  }

  /** Whatever text the reader accepts, the object can be written again and is then read as what it becomes. */
  lemma {:induction false} AcceptedIsStable(d: Doubles, text: seq<Unit>)
    requires Lawful(d) && ObjectOf(d, text).Done?
    ensures var m := ObjectOf(d, text).value;
            Sound(m) && ObjectOf(d, Render(d, m)) == Done(Returned(d, m), |Render(d, m)|)
  {
    var _, t, _ := OnlyGrammarIsRead(d, text);
    MeaningIsSound(d, t);
    WhatComesBack(d, Means(d, t));
  }
}
