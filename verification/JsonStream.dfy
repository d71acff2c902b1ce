/** The alert stream of firmware that sends bare JSON objects: documents out of text, whatever the chunks. */
module JsonStream {
  import opened Base

  const MAX_BUFFER: nat := 1024 * 1024

  // ---- One character at a time ----

  /** Where a scan stands: nesting, string state, the open object so far, and the documents found. */
  datatype Scan = Scan(depth: nat, inString: bool, escaped: bool, tail: string, docs: seq<string>)

  const START := Scan(0, false, false, "", [])

  function Step(s: Scan, c: char): Scan {
    var tail := s.tail + [c];
    if s.depth == 0 then (if c == '{' then Scan(1, s.inString, s.escaped, "{", s.docs) else s)
    else if s.inString then
      if s.escaped then s.(escaped := false, tail := tail)
      else if c == '\\' then s.(escaped := true, tail := tail)
      else if c == '"' then s.(inString := false, tail := tail)
      else s.(tail := tail)
    else if c == '"' then s.(inString := true, tail := tail)
    else if c == '{' then s.(depth := s.depth + 1, tail := tail)
    else if c == '}' then
      if s.depth == 1 then Scan(0, false, s.escaped, "", s.docs + [tail]) else s.(depth := s.depth - 1, tail := tail)
    else s.(tail := tail)
  }

  function ScanAll(s: Scan, text: string): Scan
    decreases |text|
  {
    if text == [] then s else ScanAll(Step(s, text[0]), text[1..])
  }

  /** An open object that has grown past the limit is given up. */
  function Capped(s: Scan): Scan {
    if |s.tail| > MAX_BUFFER then Scan(0, false, false, "", s.docs) else s
  }

  function FeedAll(s: Scan, chunks: seq<string>): Scan
    decreases |chunks|
  {
    if chunks == [] then s else FeedAll(Capped(ScanAll(s, chunks[0])), chunks[1..])
  }

  function Join(chunks: seq<string>): string {
    if chunks == [] then [] else chunks[0] + Join(chunks[1..])
  }

  ghost predicate Proper(s: Scan) {
    && (s.depth == 0 <==> s.tail == "")
    && (s.depth == 0 ==> !s.inString)
    && (!s.inString ==> !s.escaped)
  }

  // ---- The reader ----

  class Reader {
    var buffer: string
    var scanned: nat
    var depth: nat
    var start: int
    var inString: bool
    var escaped: bool
    /** What the sink has been given. */
    var docs: seq<string>

    /** Between chunks the buffer is the open object, and nothing else. */
    ghost predicate Valid()
      reads this
    {
      && scanned == |buffer|
      && (depth == 0 ==> buffer == "" && start == -1)
      && (depth > 0 ==> buffer != "" && start == 0)
      && Proper(State()) && |buffer| <= MAX_BUFFER
    }

    ghost function State(): Scan
      reads this
    {
      Scan(depth, inString, escaped, buffer, docs)
    }

    constructor ()
      ensures Valid() && State() == START
    {
      buffer, scanned, depth, start, inString, escaped, docs := "", 0, 0, -1, false, false, [];
    }

    /** Inside a feed: the scan is at `index` of the buffer. */
    ghost predicate InPlace(index: nat)
      reads this
    {
      index <= |buffer| && (depth > 0 ==> 0 <= start < index) && Proper(Here(index))
    }

    ghost function Here(index: nat): Scan
      reads this
    {
      Scan(depth, inString, escaped, Open(buffer, depth, start, index), docs)
    }

    /** One turn of the scanning loop; a finished object leaves the buffer and the scan starts again. */
    method Advance(index: nat) returns (next: nat)
      requires index < |buffer| && InPlace(index)
      modifies this
      ensures InPlace(next) && Here(next) == Step(old(Here(index)), old(buffer[index]))
      ensures buffer[next..] == old(buffer[index + 1..])
      ensures |buffer| - next == old(|buffer|) - index - 1
    {
      var c := buffer[index];
      assert depth > 0 ==> buffer[start..index + 1] == buffer[start..index] + [c];
      if depth > 0 {
        if inString {
          if escaped { escaped := false; }
          else if c == '\\' { escaped := true; }
          else if c == '"' { inString := false; }
        } else if c == '"' {
          inString := true;
        } else if c == '{' {
          depth := depth + 1;
        } else if c == '}' {
          depth := depth - 1;
          if depth == 0 {
            docs := docs + [buffer[start..index + 1]];
            buffer := buffer[index + 1..];
            scanned, start := 0, -1;
            return 0;
          }
        }
      } else if c == '{' {
        depth := 1;
        start := index;
        assert buffer[start..index + 1] == "{";
      }
      return index + 1;
    }

    /** After a feed only the open object is kept. */
    method Compact(index: nat)
      requires index == |buffer| && InPlace(index)
      modifies this`buffer, this`scanned, this`start
      ensures State() == old(Here(index)) && scanned == |buffer|
      ensures depth == 0 ==> buffer == "" && start == -1
      ensures depth > 0 ==> buffer != "" && start == 0
    {
      scanned := index;
      if depth == 0 {
        buffer := "";
        scanned := 0;
        start := -1;
      } else if start > 0 {
        buffer := buffer[start..];
        scanned := scanned - start;
        start := 0;
      }
    }

    method FeedJson(chunk: string)
      requires Valid()
      modifies this
      ensures Valid() && State() == Capped(ScanAll(old(State()), chunk))
    {
      if chunk == "" {
        return;
      }
      ghost var before, goal := buffer, ScanAll(State(), chunk);
      buffer := buffer + chunk;
      var index: nat := scanned;
      assert buffer[index..] == chunk;
      assert depth > 0 ==> buffer[start..index] == before;
      while index < |buffer|
        invariant InPlace(index) && ScanAll(Here(index), buffer[index..]) == goal
        decreases |buffer| - index
      {
        assert buffer[index..][0] == buffer[index] && buffer[index..][1..] == buffer[index + 1..];
        index := Advance(index);
      }
      assert buffer[index..] == "";
      Compact(index);
      if |buffer| > MAX_BUFFER {
        buffer, scanned, depth, start, inString, escaped := "", 0, 0, -1, false, false;
      }
    }
  }

  /** The open object: from its brace to where the scan is. */
  ghost function Open(buffer: string, depth: nat, start: int, index: nat): string {
    if depth > 0 && 0 <= start <= index <= |buffer| then buffer[start..index] else ""
  }

  // ---- Documents, without any scanning state ----

  /** Lexing alone: nesting outside strings. */
  datatype Lex = Lex(depth: int, inString: bool, escaped: bool)

  function LexStep(l: Lex, c: char): Lex {
    if l.inString then
      if l.escaped then l.(escaped := false) else Lex(l.depth, c != '"', c == '\\')
    else if c == '"' then l.(inString := true)
    else if c == '{' then l.(depth := l.depth + 1)
    else if c == '}' then l.(depth := l.depth - 1)
    else l
  }

  /** The lexer after the first `n` characters. */
  function LexAfter(s: string, n: nat): Lex
    requires n <= |s|
  {
    if n == 0 then Lex(0, false, false) else LexStep(LexAfter(s, n - 1), s[n - 1])
  }

  /** A text that opens a brace and has not closed it yet. */
  ghost predicate StaysOpen(s: string) {
    s != [] && s[0] == '{' && forall n :: 0 < n <= |s| ==> LexAfter(s, n).depth > 0
  }

  /** A whole object: it opens a brace, closes it with its last character, and not before. */
  ghost predicate Balanced(s: string) {
    |s| >= 2 && StaysOpen(s[..|s| - 1]) && LexAfter(s, |s|).depth == 0 && !LexAfter(s, |s| - 1).inString
  }

  lemma {:induction false} LexOfPrefix(s: string, more: string, n: nat)
    requires n <= |s|
    ensures LexAfter(s + more, n) == LexAfter(s, n)
  {
    if n > 0 { LexOfPrefix(s, more, n - 1); }
  }

  /** The open object is just that, and the scanner's state is the lexer's. */
  ghost predicate Tracks(s: Scan) {
    && Proper(s)
    && (s.depth > 0 ==> StaysOpen(s.tail) && LexAfter(s.tail, |s.tail|) == Lex(s.depth, s.inString, s.escaped))
    && (forall doc :: doc in s.docs ==> Balanced(doc))
  }

  lemma OpenGrows(tail: string, c: char)
    requires StaysOpen(tail)
    ensures LexAfter(tail + [c], |tail| + 1) == LexStep(LexAfter(tail, |tail|), c)
    ensures LexAfter(tail + [c], |tail| + 1).depth > 0 ==> StaysOpen(tail + [c])
    ensures !LexAfter(tail, |tail|).inString && LexAfter(tail + [c], |tail| + 1).depth == 0 ==> Balanced(tail + [c])
  {
    var more := tail + [c];
    assert more[..|more| - 1] == tail;
    forall n | 0 < n <= |tail| ensures LexAfter(more, n).depth > 0 {
      LexOfPrefix(tail, [c], n);
    }
    LexOfPrefix(tail, [c], |tail|);
  }

  lemma StepTracks(s: Scan, c: char)
    requires Tracks(s)
    ensures Tracks(Step(s, c))
  {
    if s.depth > 0 {
      OpenGrows(s.tail, c);
    } else if c == '{' {
      assert LexAfter("{", 1) == LexStep(LexAfter("{", 0), '{');
    }
  }

  lemma {:induction false} ScanTracks(s: Scan, text: string)
    requires Tracks(s)
    ensures Tracks(ScanAll(s, text))
    decreases |text|
  {
    if text != [] {
      StepTracks(s, text[0]);
      ScanTracks(Step(s, text[0]), text[1..]);
    }
  }

  /** Every document a reader emits, whatever the chunks, is a whole object and nothing more. */
  lemma {:induction false} EveryDocumentIsBalanced(s: Scan, chunks: seq<string>)
    requires Tracks(s)
    ensures Tracks(FeedAll(s, chunks))
    decreases |chunks|
  {
    if chunks != [] {
      ScanTracks(s, chunks[0]);
      EveryDocumentIsBalanced(Capped(ScanAll(s, chunks[0])), chunks[1..]);
    }
  }

  // ---- Scanning in pieces ----

  lemma {:induction false} ScanJoined(s: Scan, a: string, b: string)
    ensures ScanAll(s, a + b) == ScanAll(ScanAll(s, a), b)
    decreases |a|
  {
    if a == [] {
      assert a + b == b;
    } else {
      assert (a + b)[1..] == a[1..] + b;
      ScanJoined(Step(s, a[0]), a[1..], b);
    }
  }

  /** Documents already found change nothing about what is found next. */
  lemma {:induction false} DocsComeAfter(s: Scan, docs: seq<string>, text: string)
    ensures ScanAll(s.(docs := docs + s.docs), text) == ScanAll(s, text).(docs := docs + ScanAll(s, text).docs)
    decreases |text|
  {
    if text != [] {
      var t := Step(s, text[0]);
      assert docs + (s.docs + [s.tail + [text[0]]]) == (docs + s.docs) + [s.tail + [text[0]]];
      assert Step(s.(docs := docs + s.docs), text[0]) == t.(docs := docs + t.docs);
      DocsComeAfter(t, docs, text[1..]);
    }
  }

  /** Text without a brace, between objects, is passed over. */
  lemma {:induction false} JunkIsSkipped(s: Scan, junk: string)
    requires s.depth == 0 && '{' !in junk
    ensures ScanAll(s, junk) == s
    decreases |junk|
  {
    if junk != [] { JunkIsSkipped(s, junk[1..]); }
  }

  /** A text that stays open is scanned into one open object. */
  lemma {:induction false} OpenIsKept(s: Scan, open: string)
    requires s.depth == 0 && Proper(s) && StaysOpen(open)
    ensures var l := LexAfter(open, |open|);
            l.depth > 0 && ScanAll(s, open) == Scan(l.depth, l.inString, l.escaped, open, s.docs)
    decreases |open|
  {
    var n := |open| - 1;
    var front, c := open[..n], open[n];
    OneMoreScanned(s, open);
    if n == 0 {
      assert LexAfter(open, 1) == LexStep(LexAfter(open, 0), c);
    } else {
      assert open == front + [c];
      forall k | 0 < k <= n ensures LexAfter(front, k).depth > 0 { LexOfPrefix(front, [c], k); }
      OpenIsKept(s, front);
      LexOfPrefix(front, [c], n);
      LexKeepsProper(open, n);
      StepOfOpen(open, n, s.docs);
    }
  }

  lemma {:induction false} OneMoreScanned(s: Scan, text: string)
    requires text != ""
    ensures ScanAll(s, text) == Step(ScanAll(s, text[..|text| - 1]), text[|text| - 1])
  {
    var n := |text| - 1;
    assert text == text[..n] + [text[n]];
    ScanJoined(s, text[..n], [text[n]]);
    assert [text[n]][1..] == [];
  }

  lemma {:induction false} StepOfOpen(open: string, n: nat, docs: seq<string>)
    requires n + 1 == |open| && LexAfter(open, n).depth > 0 && LexAfter(open, n + 1).depth > 0
    requires !LexAfter(open, n).inString ==> !LexAfter(open, n).escaped
    ensures var k, l := LexAfter(open, n), LexAfter(open, n + 1);
            Step(Scan(k.depth, k.inString, k.escaped, open[..n], docs), open[n]) == Scan(l.depth, l.inString, l.escaped, open, docs)
  {
    assert open[..n] + [open[n]] == open;
  }

  lemma {:induction false} LexKeepsProper(s: string, n: nat)
    requires n <= |s|
    ensures !LexAfter(s, n).inString ==> !LexAfter(s, n).escaped
  {
    if n > 0 { LexKeepsProper(s, n - 1); }
  }

  lemma BalancedIsEmitted(s: Scan, doc: string)
    requires s.depth == 0 && Proper(s) && Balanced(doc)
    ensures ScanAll(s, doc) == Scan(0, false, false, "", s.docs + [doc])
  {
    var front, c := doc[..|doc| - 1], doc[|doc| - 1];
    assert doc == front + [c];
    OpenIsKept(s, front);
    LexOfPrefix(front, [c], |front|);
    LexKeepsProper(doc, |front|);
    ScanJoined(s, front, [c]);
    assert [c][1..] == [];
    assert ScanAll(ScanAll(s, front), [c]) == Step(ScanAll(s, front), c);
  }

  /**
   * The scan of a text, told without state: after text without a brace comes a whole object and then
   * the rest, or an object that is never closed, or nothing.
   */
  lemma DocumentsOfText(junk: string, doc: string, rest: string)
    requires '{' !in junk
    ensures Balanced(doc) ==> ScanAll(START, junk + doc + rest).docs == [doc] + ScanAll(START, rest).docs
    ensures StaysOpen(doc) ==> ScanAll(START, junk + doc).docs == [] && ScanAll(START, junk + doc).tail == doc
    ensures ScanAll(START, junk).docs == []
  {
    JunkIsSkipped(START, junk);
    ScanJoined(START, junk, doc);
    ScanJoined(START, junk + doc, rest);
    if Balanced(doc) {
      BalancedIsEmitted(START, doc);
      DocsComeAfter(START, [doc], rest);
      assert START.(docs := [doc] + START.docs) == Scan(0, false, false, "", START.docs + [doc]);
    }
    if StaysOpen(doc) {
      OpenIsKept(START, doc);
    }
  }

  // ---- Chunks do not matter ----

  lemma {:induction false} StepsKeepProper(s: Scan, text: string)
    requires Proper(s)
    ensures Proper(ScanAll(s, text)) && s.docs <= ScanAll(s, text).docs
    decreases |text|
  {
    if text != [] { StepsKeepProper(Step(s, text[0]), text[1..]); }
  }

  /** While the open object stays within the limit, feeding in chunks is scanning the whole. */
  lemma {:induction false} ChunksAreTheWhole(s: Scan, chunks: seq<string>)
    requires forall k :: 0 <= k <= |Join(chunks)| ==> |ScanAll(s, Join(chunks)[..k]).tail| <= MAX_BUFFER
    ensures FeedAll(s, chunks) == ScanAll(s, Join(chunks))
    decreases |chunks|
  {
    if chunks != [] {
      var c, rest := chunks[0], Join(chunks[1..]);
      var next := ScanAll(s, c);
      assert Join(chunks)[..|c|] == c;
      forall k | 0 <= k <= |rest| ensures |ScanAll(next, rest[..k]).tail| <= MAX_BUFFER {
        ScanJoined(s, c, rest[..k]);
        assert Join(chunks)[..|c| + k] == c + rest[..k];
      }
      ScanJoined(s, c, rest);
      ChunksAreTheWhole(next, chunks[1..]);
    }
  }

  /** An open object either ends up in a longer document or is still open, with all that followed. */
  lemma {:induction false} OpenEndsOrStays(s: Scan, text: string)
    requires Proper(s) && s.depth > 0
    ensures var t := ScanAll(s, text);
            || (|s.docs| < |t.docs| && |s.tail| < |t.docs[|s.docs|]|)
            || (t.docs == s.docs && |t.tail| == |s.tail| + |text|)
    decreases |text|
  {
    if text != [] {
      var next := Step(s, text[0]);
      if next.depth > 0 {
        OpenEndsOrStays(next, text[1..]);
      } else {
        StepsKeepProper(next, text[1..]);
        var t := ScanAll(s, text);
        assert t.docs[|s.docs|] == next.docs[|s.docs|];
      }
    }
  }

  /** The step that emits a given document. */
  lemma {:induction false} EmittingStep(s: Scan, text: string, i: nat) returns (k: nat)
    requires Proper(s) && |s.docs| <= i < |ScanAll(s, text).docs|
    ensures k < |text|
    ensures var m := ScanAll(s, text[..k]);
            Proper(m) && |m.docs| == i && m.depth == 1 && !m.inString && text[k] == '}'
            && ScanAll(s, text).docs[i] == m.tail + [text[k]]
            && ScanAll(s, text) == ScanAll(Scan(0, false, false, "", m.docs + [m.tail + [text[k]]]), text[k + 1..])
    decreases |text|
  {
    var next := Step(s, text[0]);
    if |next.docs| > i {
      k := 0;
      assert text[..0] == [];
      StepsKeepProper(next, text[1..]);
      assert ScanAll(s, text).docs[i] == next.docs[i];
    } else {
      StepsKeepProper(s, [text[0]]);
      assert [text[0]][1..] == [];
      assert ScanAll(s, [text[0]]) == next;
      var j := EmittingStep(next, text[1..], i);
      k := j + 1;
      assert text[..k][1..] == text[1..][..j] && text[..k][0] == text[0];
      assert text[1..][j + 1..] == text[k + 1..];
    }
  }

  ghost predicate AnyChunksGiveTheDocuments(text: string) {
    forall chunks: seq<string> :: Join(chunks) == text ==> FeedAll(START, chunks).docs == ScanAll(START, text).docs
  }

  predicate ShortDocuments(docs: seq<string>) {
    forall doc :: doc in docs ==> |doc| <= 1024 * 1024 + 1
  }

  /** No document begins further into the object left open at the end than the limit. */
  ghost predicate NothingPastLimit(s: Scan, text: string) {
    forall k :: 0 <= k <= |text| && k > |text| - |ScanAll(s, text).tail| + MAX_BUFFER ==> ScanAll(START, text[k..]).docs == []
  }

  /** Once an open object has been given up, nothing more is found in what is left of it, however it is cut. */
  lemma {:induction false} NothingAfterCut(s: Scan, chunks: seq<string>, docs: seq<string>)
    requires Proper(s) && s.docs == docs && ScanAll(s, Join(chunks)).docs == docs
    requires forall k :: 0 <= k <= |Join(chunks)| ==> ScanAll(START, Join(chunks)[k..]).docs == []
    ensures FeedAll(s, chunks).docs == docs
    decreases |chunks|
  {
    if chunks != [] {
      var all, c, rest := Join(chunks), chunks[0], Join(chunks[1..]);
      var m := ScanAll(s, c);
      StepsKeepProper(s, c);
      StepsKeepProper(m, rest);
      ScanJoined(s, c, rest);
      forall k | 0 <= k <= |rest| ensures ScanAll(START, rest[k..]).docs == [] {
        assert all[|c| + k..] == rest[k..];
      }
      if |m.tail| > MAX_BUFFER {
        CutScan(docs, rest);
        assert rest[0..] == rest;
      }
      NothingAfterCut(Capped(m), chunks[1..], docs);
    }
  }

  lemma {:induction false} CutScan(docs: seq<string>, text: string)
    ensures ScanAll(Scan(0, false, false, "", docs), text).docs == docs + ScanAll(START, text).docs
  {
    DocsComeAfter(START, docs, text);
    assert START.(docs := docs + START.docs) == Scan(0, false, false, "", docs);
  }

  /** A chunk that ends in an open object past the limit ends in the last one, of which nothing comes any more. */
  lemma {:induction false} CutIsInTheLast(s: Scan, c: string, rest: string)
    requires Proper(s) && |ScanAll(s, c).tail| > MAX_BUFFER
    requires ShortDocuments(ScanAll(s, c + rest).docs) && NothingPastLimit(s, c + rest)
    ensures ScanAll(s, c).docs == ScanAll(s, c + rest).docs
    ensures forall k :: 0 <= k <= |rest| ==> ScanAll(START, rest[k..]).docs == []
  {
    var m := ScanAll(s, c);
    StepsKeepProper(s, c);
    ScanJoined(s, c, rest);
    OpenEndsOrStays(m, rest);
    var t := ScanAll(s, c + rest);
    forall k | 0 <= k <= |rest| ensures ScanAll(START, rest[k..]).docs == [] {
      assert (c + rest)[|c| + k..] == rest[k..];
    }
  }

  lemma {:induction false} NothingPastLimitLater(s: Scan, c: string, rest: string)
    requires NothingPastLimit(s, c + rest)
    ensures NothingPastLimit(ScanAll(s, c), rest)
  {
    ScanJoined(s, c, rest);
    forall k | 0 <= k <= |rest| && k > |rest| - |ScanAll(s, c + rest).tail| + MAX_BUFFER ensures ScanAll(START, rest[k..]).docs == [] {
      assert (c + rest)[|c| + k..] == rest[k..];
    }
  }

  /** Under both conditions every split gives the documents of the whole. */
  lemma {:induction false} EverySplitGivesTheDocuments(s: Scan, chunks: seq<string>)
    requires Proper(s) && ShortDocuments(ScanAll(s, Join(chunks)).docs) && NothingPastLimit(s, Join(chunks))
    ensures FeedAll(s, chunks).docs == ScanAll(s, Join(chunks)).docs
    decreases |chunks|
  {
    if chunks != [] {
      var c, rest := chunks[0], Join(chunks[1..]);
      var m := ScanAll(s, c);
      StepsKeepProper(s, c);
      ScanJoined(s, c, rest);
      if |m.tail| > MAX_BUFFER {
        CutIsInTheLast(s, c, rest);
        CutScan(m.docs, rest);
        assert rest[0..] == rest;
        NothingAfterCut(Capped(m), chunks[1..], m.docs);
      } else {
        NothingPastLimitLater(s, c, rest);
        EverySplitGivesTheDocuments(m, chunks[1..]);
      }
    }
  }

  /** Inside the object left open at the end nothing was found, and it grew by every character. */
  lemma {:induction false} OpenFrom(text: string, k: nat)
    requires k <= |text| && |text| - k < |ScanAll(START, text).tail|
    ensures |ScanAll(START, text[..k]).tail| == |ScanAll(START, text).tail| - (|text| - k)
    ensures ScanAll(START, text[..k]).docs == ScanAll(START, text).docs
    decreases |text|
  {
    if k < |text| {
      var front := text[..|text| - 1];
      OneMoreScanned(START, text);
      StepsKeepProper(START, front);
      OpenFrom(front, k);
      assert front[..k] == text[..k];
    } else {
      assert text[..k] == text;
    }
  }

  /** A cut past the limit, before text that holds a document of its own, finds one too many. */
  lemma {:induction false} StrayDocumentIsFound(text: string, k: nat)
    requires k <= |text| && k > |text| - |ScanAll(START, text).tail| + MAX_BUFFER && ScanAll(START, text[k..]).docs != []
    ensures exists chunks: seq<string> :: Join(chunks) == text && FeedAll(START, chunks).docs != ScanAll(START, text).docs
  {
    var m, rest := ScanAll(START, text[..k]), text[k..];
    OpenFrom(text, k);
    var chunks := TwoChunks(text, k);
    CutScan(m.docs, rest);
  }

  lemma {:induction false} TwoChunks(text: string, k: nat) returns (chunks: seq<string>)
    requires k <= |text|
    ensures Join(chunks) == text && FeedAll(START, chunks) == Capped(ScanAll(Capped(ScanAll(START, text[..k])), text[k..]))
  {
    chunks := [text[..k], text[k..]];
    assert chunks[1..] == [text[k..]] && [text[k..]][1..] == [];
    assert Join([text[k..]]) == text[k..] + Join([]);
    assert text[..k] + text[k..] == text;
    assert FeedAll(START, chunks) == FeedAll(Capped(ScanAll(START, text[..k])), [text[k..]]);
    assert FeedAll(Capped(ScanAll(START, text[..k])), [text[k..]]) == FeedAll(Capped(ScanAll(Capped(ScanAll(START, text[..k])), text[k..])), []);
  }

  lemma LongDocumentIsLost(text: string, i: nat)
    requires i < |ScanAll(START, text).docs| && |ScanAll(START, text).docs[i]| > MAX_BUFFER + 1
    ensures exists chunks: seq<string> :: Join(chunks) == text && FeedAll(START, chunks).docs != ScanAll(START, text).docs
  {
    var k := EmittingStep(START, text, i);
    var m, rest := ScanAll(START, text[..k]), text[k + 1..];
    var lost, kept := Scan(0, false, false, "", m.docs), Scan(0, false, false, "", m.docs + [m.tail + [text[k]]]);
    var chunks := TwoChunks(text, k);
    assert text[k..][0] == '}' && text[k..][1..] == rest;
    assert Capped(m) == lost && ScanAll(lost, text[k..]) == ScanAll(lost, rest);
    CutScan(m.docs, rest);
    CutScan(m.docs + [m.tail + [text[k]]], rest);
    assert ScanAll(START, text) == ScanAll(kept, rest);
    assert |FeedAll(START, chunks).docs| == |ScanAll(START, text).docs| - 1;
  }

  /**
   * How the network cuts a text into chunks never changes the documents, exactly when no document is
   * more than one character over the limit, and none begins further than the limit into an object that
   * is left open at the end.
   */
  lemma ChunksDoNotMatterIff(text: string)
    ensures AnyChunksGiveTheDocuments(text) <==> ShortDocuments(ScanAll(START, text).docs) && NothingPastLimit(START, text)
  {
    var docs := ScanAll(START, text).docs;
    if !ShortDocuments(docs) {
      var doc :| doc in docs && |doc| > MAX_BUFFER + 1;
      var i :| 0 <= i < |docs| && docs[i] == doc;
      LongDocumentIsLost(text, i);
    } else if !NothingPastLimit(START, text) {
      var k :| 0 <= k <= |text| && k > |text| - |ScanAll(START, text).tail| + MAX_BUFFER && ScanAll(START, text[k..]).docs != [];
      StrayDocumentIsFound(text, k);
    } else {
      forall chunks: seq<string> | Join(chunks) == text ensures FeedAll(START, chunks).docs == docs {
        EverySplitGivesTheDocuments(START, chunks);
      }
    }
  }

  /** An object left open within the limit holds nothing past it. */
  lemma ShortTail(text: string)
    requires |ScanAll(START, text).tail| <= MAX_BUFFER
    ensures AnyChunksGiveTheDocuments(text) <==> ShortDocuments(ScanAll(START, text).docs)
  {
    ChunksDoNotMatterIff(text);
  }
}
