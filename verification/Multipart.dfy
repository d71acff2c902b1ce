/** The alert stream of firmware that sends multipart/mixed: parts between boundary markers, whatever the chunks. */
module Multipart {
  import opened Slices
  import opened Base
  import opened JsonStream

  /** What an over-long buffer without a marker is cut down to. */
  const KEEP: nat := 1024

  predicate OccursAt(s: string, d: string, i: int) {
    0 <= i && i + |d| <= |s| && s[i..i + |d|] == d
  }

  /** The first place where `d` occurs with at most `left` characters still to go, or -1. */
  function Search(s: string, d: string, left: nat): (i: int)
    requires left <= |s|
    ensures i == -1 || (|s| - left <= i && i + |d| <= |s|)
  {
    if |d| > left then -1
    else if s[|s| - left..|s| - left + |d|] == d then |s| - left
    else Search(s, d, left - 1)
  }

  /** The first place at or after `from` where `d` occurs, or -1. */
  function IndexOf(s: string, d: string, from: nat): (i: int)
    ensures i == -1 || (from <= i && i + |d| <= |s|)
  {
    if from > |s| then -1 else Search(s, d, |s| - from)
  }

  lemma {:induction false} IndexIsFirst(s: string, d: string, from: nat)
    ensures IndexOf(s, d, from) >= 0 ==> OccursAt(s, d, IndexOf(s, d, from))
    ensures forall j :: from <= j && OccursAt(s, d, j) ==> 0 <= IndexOf(s, d, from) <= j
    decreases |s| - from
  {
    if from + |d| <= |s| && s[from..from + |d|] != d {
      IndexIsFirst(s, d, from + 1);
    }
  }

  // ---- The parts of a whole text ----

  /** Where the first complete part of a text begins and ends. */
  datatype Cut = Cut(start: nat, next: nat)

  /** The stretch between the first two markers: leftmost, not overlapping. */
  function FirstCut(text: string, d: string): (r: Option<Cut>)
    ensures r.Some? ==> |d| <= r.value.start <= r.value.next <= |text|
  {
    var begin := IndexOf(text, d, 0);
    if begin < 0 then None
    else
      var next := IndexOf(text, d, begin + |d|);
      if next < 0 then None else Some(Cut(begin + |d|, next))
  }

  /** A rule that finds the first complete part of a text. */
  type Cutter = string -> Option<Cut>

  predicate IsCut(c: Option<Cut>, n: nat) {
    c.Some? && c.value.start <= c.value.next <= n && 0 < c.value.next
  }

  /** The parts that are cut off one after another. */
  function Parts(cutter: Cutter, text: string): seq<string>
    decreases |text|
  {
    var c := cutter(text);
    if !IsCut(c, |text|) then [] else [text[c.value.start..c.value.next]] + Parts(cutter, text[c.value.next..])
  }

  /** What is left when no further part is complete. */
  function Rest(cutter: Cutter, text: string): string
    decreases |text|
  {
    var c := cutter(text);
    if !IsCut(c, |text|) then text else Rest(cutter, text[c.value.next..])
  }

  /** The rule of a marker: a part is the stretch between one marker and the next. */
  function Marker(d: string): Cutter {
    text => FirstCut(text, d)
  }

  /** What is kept of a buffer in which no further part is complete. */
  function Trimmed(buffer: string, d: string): string {
    if IndexOf(buffer, d, 0) < 0 && |buffer| > MAX_BUFFER then buffer[|buffer| - KEEP..] else buffer
  }

  function Trimmer(d: string): string -> string {
    buffer => Trimmed(buffer, d)
  }

  datatype Feed = Feed(buffer: string, parts: seq<string>)

  function FeedOne(cutter: Cutter, trim: string -> string, f: Feed, chunk: string): Feed {
    Feed(trim(Rest(cutter, f.buffer + chunk)), f.parts + Parts(cutter, f.buffer + chunk))
  }

  function FeedChunks(cutter: Cutter, trim: string -> string, f: Feed, chunks: seq<string>): Feed
    decreases |chunks|
  {
    if chunks == [] then f else FeedChunks(cutter, trim, FeedOne(cutter, trim, f, chunks[0]), chunks[1..])
  }

  class MultipartReader {
    const delimiter: string
    var buffer: string
    /** The raw parts handed on, and the documents found in them. */
    var parts: seq<string>
    var docs: seq<string>

    ghost predicate Valid()
      reads this
    {
      delimiter != "" && docs == DocumentsOf(parts)
    }

    ghost function State(): Feed
      reads this
    {
      Feed(buffer, parts)
    }

    constructor (boundary: string)
      ensures Valid() && delimiter == "--" + boundary && State() == Feed("", [])
    {
      delimiter := "--" + boundary;
      buffer, parts, docs := "", [], [];
    }

    method EmitPart(raw: string)
      modifies this`parts, this`docs
      ensures parts == old(parts) + [raw]
      ensures docs == old(docs) + (var doc := DocumentIn(raw); if doc.Some? then [doc.value] else [])
    {
      parts := parts + [raw];
      var doc := DocumentIn(raw);
      if doc.Some? {
        docs := docs + [doc.value];
      }
    }

    method FeedMultipart(chunk: string)
      requires Valid()
      modifies this`buffer, this`parts, this`docs
      ensures Valid() && State() == FeedOne(Marker(delimiter), Trimmer(delimiter), old(State()), chunk)
    {
      ghost var was := State();
      buffer := buffer + chunk;
      ghost var text, before, cutter := buffer, parts, Marker(delimiter);
      var more := true;
      while more
        invariant Valid()
        invariant more ==> before + Parts(cutter, text) == parts + Parts(cutter, buffer)
        invariant more ==> Rest(cutter, buffer) == Rest(cutter, text)
        invariant !more ==> State() == FeedOne(cutter, Trimmer(delimiter), was, chunk)
        decreases more, |buffer|
      {
        ghost var at := buffer;
        more := TakePart();
        if !more {
          FeedEnds(cutter, Trimmer(delimiter), was, chunk, parts, at);
        }
      }
    }

    /** Hands on the first part of the buffer; without one, cuts a buffer that has grown too long. */
    method TakePart() returns (taken: bool)
      requires Valid()
      modifies this`buffer, this`parts, this`docs
      ensures Valid() && taken == FirstCut(old(buffer), delimiter).Some?
      ensures !taken ==> parts == old(parts) && buffer == Trimmed(old(buffer), delimiter)
      ensures taken ==> |buffer| < old(|buffer|)
      ensures taken ==> parts + Parts(Marker(delimiter), buffer) == old(parts + Parts(Marker(delimiter), buffer))
      ensures taken ==> Rest(Marker(delimiter), buffer) == old(Rest(Marker(delimiter), buffer))
    {
      var begin := IndexOf(buffer, delimiter, 0);
      if begin < 0 {
        if |buffer| > MAX_BUFFER {
          buffer := buffer[|buffer| - KEEP..];
        }
        return false;
      }
      var next := IndexOf(buffer, delimiter, begin + |delimiter|);
      if next < 0 {
        return false;
      }
      HandOn(begin + |delimiter|, next);
      return true;
    }

    method HandOn(start: nat, next: nat)
      requires Valid() && FirstCut(buffer, delimiter) == Some(Cut(start, next))
      modifies this`buffer, this`parts, this`docs
      ensures Valid() && |buffer| < old(|buffer|)
      ensures parts + Parts(Marker(delimiter), buffer) == old(parts + Parts(Marker(delimiter), buffer))
      ensures Rest(Marker(delimiter), buffer) == old(Rest(Marker(delimiter), buffer))
    {
      HandedOn(Marker(delimiter), parts, buffer, start, next);
      DocumentsMore(parts, buffer[start..next]);
      EmitPart(buffer[start..next]);
      buffer := buffer[next..];
    }
  }

  lemma {:induction false} FeedEnds(cutter: Cutter, trim: string -> string, f: Feed, chunk: string, parts: seq<string>, buffer: string)
    requires !IsCut(cutter(buffer), |buffer|)
    requires parts + Parts(cutter, buffer) == f.parts + Parts(cutter, f.buffer + chunk)
    requires Rest(cutter, buffer) == Rest(cutter, f.buffer + chunk)
    ensures FeedOne(cutter, trim, f, chunk) == Feed(trim(buffer), parts)
  {
  }

  lemma {:induction false} OnePart(cutter: Cutter, text: string, start: nat, next: nat)
    requires IsCut(cutter(text), |text|) && cutter(text) == Some(Cut(start, next))
    ensures Parts(cutter, text) == [text[start..next]] + Parts(cutter, text[next..])
    ensures Rest(cutter, text) == Rest(cutter, text[next..])
  {
  }

  lemma {:induction false} HandedOn(cutter: Cutter, parts: seq<string>, text: string, start: nat, next: nat)
    requires IsCut(cutter(text), |text|) && cutter(text) == Some(Cut(start, next))
    ensures Rest(cutter, text) == Rest(cutter, text[next..])
    ensures parts + Parts(cutter, text) == parts + [text[start..next]] + Parts(cutter, text[next..])
  {
    OnePart(cutter, text, start, next);
  }

  // ---- What a part carries ----

  predicate StartsWith(s: string, prefix: string) {
    |prefix| <= |s| && s[..|prefix|] == prefix
  }

  predicate EndsWith(s: string, suffix: string) {
    |suffix| <= |s| && s[|s| - |suffix|..] == suffix
  }

  function SkipBlanks(s: string): string {
    if s != "" && s[0] <= ' ' then SkipBlanks(s[1..]) else s
  }

  function DropBlanks(s: string): string {
    if s != "" && s[|s| - 1] <= ' ' then DropBlanks(s[..|s| - 1]) else s
  }

  function BlankLine(text: string): int {
    var crlf, lf := IndexOf(text, "\r\n\r\n", 0), IndexOf(text, "\n\n", 0);
    if crlf < 0 then lf else if lf < 0 then crlf else if crlf < lf then crlf else lf
  }

  function Stripped(raw: string): string {
    var a := if StartsWith(raw, "\r\n") then raw[2..] else if StartsWith(raw, "\n") then raw[1..] else raw;
    if EndsWith(a, "\r\n") then a[..|a| - 2] else if EndsWith(a, "\n") then a[..|a| - 1] else a
  }

  function DocumentIn(raw: string): Option<string> {
    var text := Stripped(raw);
    var separator := BlankLine(text);
    if separator < 0 then None
    else
      var skip := if StartsWith(text[separator..], "\r\n\r\n") then 4 else 2;
      var body := DropBlanks(SkipBlanks(text[separator + skip..]));
      if body == "" || (body[0] != '{' && body[0] != '<') then None else Some(body)
  }

  function DocumentsOf(parts: seq<string>): seq<string> {
    if parts == [] then []
    else
      var doc := DocumentIn(parts[|parts| - 1]);
      DocumentsOf(parts[..|parts| - 1]) + (if doc.Some? then [doc.value] else [])
  }

  lemma {:induction false} DocumentsMore(parts: seq<string>, raw: string)
    ensures DocumentsOf(parts + [raw]) == DocumentsOf(parts) + (var doc := DocumentIn(raw); if doc.Some? then [doc.value] else [])
  {
    assert (parts + [raw])[..|parts|] == parts;
  }

  const BLANK := "\r\n\r\n"

  lemma {:induction false} EnvelopeIsStripped(text: string)
    requires text != "" && text[|text| - 1] > ' '
    ensures Stripped("\r\n" + text + "\r\n") == text
  {
    var raw := "\r\n" + text + "\r\n";
    assert raw[..2] == "\r\n" && raw[2..] == text + "\r\n";
    assert raw[2..][|text|..] == "\r\n";
  }

  lemma {:induction false} NotInHeaders(headers: string, text: string, mark: string, i: nat)
    requires |mark| <= 4 && i < |headers| && |headers| + 4 <= |text| && text[..|headers| + 4] == headers + BLANK
    requires !OccursAt(headers + BLANK, mark, i)
    ensures !OccursAt(text, mark, i)
  {
    assert text[i..i + |mark|] == text[..|headers| + 4][i..i + |mark|];
  }

  lemma {:induction false} HeadersEnd(headers: string, text: string, body: string)
    requires text == headers + BLANK + body && body != "" && body[0] > ' '
    requires forall i :: 0 <= i < |headers| ==>
               !OccursAt(headers + BLANK, BLANK, i) && !OccursAt(headers + BLANK, "\n\n", i)
    ensures BlankLine(text) == |headers|
  {
    var n := |headers|;
    assert text[..n + 4] == headers + BLANK;
    forall i | 0 <= i < n ensures !OccursAt(text, BLANK, i) && !OccursAt(text, "\n\n", i) {
      NotInHeaders(headers, text, BLANK, i);
      NotInHeaders(headers, text, "\n\n", i);
    }
    assert text[n..n + 4] == BLANK && OccursAt(text, BLANK, n);
    IndexIsFirst(text, BLANK, 0);
    NoDoubleFeedAt(text, n);
    IndexIsFirst(text, "\n\n", 0);
  }

  lemma {:induction false} NoDoubleFeedAt(text: string, n: nat)
    requires n + 4 <= |text| && text[n..n + 4] == BLANK
    ensures !OccursAt(text, "\n\n", n)
  {
    assert text[n] == text[n..n + 4][0] && text[n] == text[n..n + 2][0];
  }

  /** A part made as the standard says is opened exactly: headers, a blank line, and the document handed on whole. */
  lemma {:induction false} EnvelopeIsOpened(headers: string, body: string)
    requires body != "" && (body[0] == '{' || body[0] == '<') && body[|body| - 1] > ' '
    requires forall i :: 0 <= i < |headers| ==>
               !OccursAt(headers + BLANK, BLANK, i) && !OccursAt(headers + BLANK, "\n\n", i)
    ensures DocumentIn("\r\n" + (headers + BLANK + body) + "\r\n") == Some(body)
  {
    var text := headers + BLANK + body;
    EnvelopeIsStripped(text);
    HeadersEnd(headers, text, body);
    assert text[|headers|..] == BLANK + body;
    assert (BLANK + body)[..4] == BLANK;
    assert text[|headers| + 4..] == body;
  }

  // ---- Chunks do not matter ----

  /** An occurrence that is found stays the first one when text is added. */
  lemma {:induction false} FoundStays(s: string, d: string, from: nat, more: string)
    requires IndexOf(s, d, from) >= 0
    ensures IndexOf(s + more, d, from) == IndexOf(s, d, from)
    decreases |s| - from
  {
    assert (s + more)[from..from + |d|] == s[from..from + |d|];
    if s[from..from + |d|] != d {
      FoundStays(s, d, from + 1, more);
    }
  }

  lemma {:induction false} CutStays(a: string, d: string, b: string)
    requires d != "" && FirstCut(a, d).Some?
    ensures FirstCut(a + b, d) == FirstCut(a, d)
  {
    var begin := IndexOf(a, d, 0);
    FoundStays(a, d, 0, b);
    FoundStays(a, d, begin + |d|, b);
  }

  lemma {:induction false} SlicesOfJoin(a: string, b: string, c: string, start: nat, next: nat)
    requires c == a + b && start <= next <= |a|
    ensures c[next..] == a[next..] + b && c[start..next] == a[start..next]
  {
  }

  /** More text never changes where the first part is cut. */
  ghost predicate Steady(cutter: Cutter) {
    forall a: string, b: string :: SteadyAt(cutter, a, b)
  }

  predicate SteadyAt(cutter: Cutter, a: string, b: string) {
    IsCut(cutter(a), |a|) ==> cutter(a + b) == cutter(a)
  }

  lemma {:induction false} MarkerIsSteady(d: string)
    requires d != ""
    ensures Steady(Marker(d))
  {
    forall a: string, b: string ensures SteadyAt(Marker(d), a, b) {
      if IsCut(Marker(d)(a), |a|) { CutStays(a, d, b); }
    }
  }

  lemma {:induction false} StepOfBoth(cutter: Cutter, a: string, b: string)
    requires Steady(cutter) && IsCut(cutter(a), |a|)
    ensures var cut := cutter(a).value; var part, an := [a[cut.start..cut.next]], a[cut.next..];
            && Parts(cutter, a) == part + Parts(cutter, an) && Rest(cutter, a) == Rest(cutter, an)
            && Parts(cutter, a + b) == part + Parts(cutter, an + b) && Rest(cutter, a + b) == Rest(cutter, an + b)
  {
    var cut := cutter(a).value;
    assert SteadyAt(cutter, a, b);
    SlicesOfJoin(a, b, a + b, cut.start, cut.next);
    OnePart(cutter, a, cut.start, cut.next);
    OnePart(cutter, a + b, cut.start, cut.next);
  }

  /** Text can arrive in two pieces: the rest of the first takes the second. */
  lemma {:induction false} PartsInTwo(cutter: Cutter, a: string, b: string)
    requires Steady(cutter)
    ensures Parts(cutter, a + b) == Parts(cutter, a) + Parts(cutter, Rest(cutter, a) + b)
    decreases |a|
  {
    var c := cutter(a);
    if IsCut(c, |a|) {
      PartsInTwo(cutter, a[c.value.next..], b);
      StepOfBoth(cutter, a, b);
    }
  }

  lemma {:induction false} NoPartsInRest(cutter: Cutter, text: string)
    ensures Parts(cutter, Rest(cutter, text)) == []
    decreases |text|
  {
    var c := cutter(text);
    if IsCut(c, |text|) {
      NoPartsInRest(cutter, text[c.value.next..]);
    }
  }

  /** What the trimming drops never matters for the parts to come. */
  ghost predicate LosesNothing(cutter: Cutter, trim: string -> string) {
    forall x: string, more: string :: LosesNothingAt(cutter, trim, x, more)
  }

  predicate LosesNothingAt(cutter: Cutter, trim: string -> string, x: string, more: string) {
    Parts(cutter, trim(x) + more) == Parts(cutter, x + more)
  }

  lemma {:induction false} ChunksGiveTheParts(cutter: Cutter, trim: string -> string, f: Feed, chunks: seq<string>)
    requires Steady(cutter) && LosesNothing(cutter, trim) && Parts(cutter, f.buffer) == []
    ensures FeedChunks(cutter, trim, f, chunks).parts == f.parts + Parts(cutter, f.buffer + Join(chunks))
    decreases |chunks|
  {
    if chunks == [] {
      assert f.buffer + Join(chunks) == f.buffer;
    } else {
      NextFeed(cutter, trim, f, chunks[0], Join(chunks[1..]));
      ChunksGiveTheParts(cutter, trim, FeedOne(cutter, trim, f, chunks[0]), chunks[1..]);
    }
  }

  lemma {:induction false} NextFeed(cutter: Cutter, trim: string -> string, f: Feed, chunk: string, rest: string)
    requires Steady(cutter) && LosesNothing(cutter, trim)
    ensures var next := FeedOne(cutter, trim, f, chunk);
            && Parts(cutter, next.buffer) == []
            && next.parts + Parts(cutter, next.buffer + rest) == f.parts + Parts(cutter, f.buffer + (chunk + rest))
  {
    var text, left := f.buffer + chunk, Rest(cutter, f.buffer + chunk);
    Regroup(f.buffer, chunk, rest);
    PartsInTwo(cutter, text, rest);
    NoPartsInRest(cutter, text);
    TrimmedRest(cutter, trim, left, rest);
    Regroup(f.parts, Parts(cutter, text), Parts(cutter, left + rest));
  }

  lemma {:induction false} TrimmedRest(cutter: Cutter, trim: string -> string, left: string, rest: string)
    requires LosesNothing(cutter, trim)
    ensures Parts(cutter, trim(left)) == Parts(cutter, left)
    ensures Parts(cutter, trim(left) + rest) == Parts(cutter, left + rest)
  {
    assert left + "" == left && trim(left) + "" == trim(left);
    assert LosesNothingAt(cutter, trim, left, "") && LosesNothingAt(cutter, trim, left, rest);
  }

  function Moved(i: int, k: nat): int {
    if i < 0 then -1 else i - k
  }

  /** Dropping characters before the place where the search starts only moves what is found. */
  lemma {:induction false} IndexShifted(s: string, t: string, d: string, k: nat, j: nat, at: nat)
    requires k <= |s| && t == s[k..] && at == k + j
    ensures IndexOf(t, d, j) == Moved(IndexOf(s, d, at), k)
    decreases |s| - j
  {
    if j + |d| <= |t| {
      assert t[j..j + |d|] == s[at..at + |d|];
      if t[j..j + |d|] != d {
        IndexShifted(s, t, d, k, j + 1, at + 1);
      }
    }
  }

  lemma {:induction false} NothingBefore(s: string, d: string, from: nat, k: nat)
    requires from <= k <= |s| && forall i :: from <= i < k ==> !OccursAt(s, d, i)
    ensures IndexOf(s, d, from) == IndexOf(s, d, k)
    decreases k - from
  {
    if from < k {
      assert !OccursAt(s, d, from);
      NothingBefore(s, d, from + 1, k);
    }
  }

  lemma {:induction false} CutIs(text: string, d: string, begin: nat, next: int)
    requires IndexOf(text, d, 0) == begin && IndexOf(text, d, begin + |d|) == next
    ensures FirstCut(text, d) == if next < 0 then None else Some(Cut(begin + |d|, next))
  {
  }

  lemma {:induction false} CutShifted(s: string, t: string, d: string, k: nat)
    requires d != "" && k <= |s| && t == s[k..] && IndexOf(s, d, 0) == IndexOf(s, d, k)
    ensures FirstCut(s, d).None? ==> FirstCut(t, d).None?
    ensures FirstCut(s, d).Some? ==> FirstCut(s, d).value.start >= k && FirstCut(s, d).value.next >= k
    ensures FirstCut(s, d).Some? ==> FirstCut(t, d) == Some(Cut(FirstCut(s, d).value.start - k, FirstCut(s, d).value.next - k))
  {
    IndexShifted(s, t, d, k, 0, k);
    var begin := IndexOf(s, d, 0);
    if begin >= 0 {
      CutMoved(s, t, d, k, begin);
    }
  }

  lemma {:induction false} CutMoved(s: string, t: string, d: string, k: nat, begin: nat)
    requires k <= begin && k <= |s| && t == s[k..] && IndexOf(s, d, 0) == begin && IndexOf(t, d, 0) == begin - k
    ensures FirstCut(s, d).None? ==> FirstCut(t, d).None?
    ensures FirstCut(s, d).Some? ==> FirstCut(s, d).value.start >= k && FirstCut(s, d).value.next >= k
    ensures FirstCut(s, d).Some? ==> FirstCut(t, d) == Some(Cut(FirstCut(s, d).value.start - k, FirstCut(s, d).value.next - k))
  {
    IndexShifted(s, t, d, k, begin - k + |d|, begin + |d|);
    var next := IndexOf(s, d, begin + |d|);
    CutIs(s, d, begin, next);
    CutIs(t, d, begin - k, Moved(next, k));
  }

  lemma {:induction false} SlicesMoved(s: string, t: string, k: nat, start: nat, next: nat)
    requires k <= start <= next <= |s| && t == s[k..]
    ensures t[next - k..] == s[next..] && t[start - k..next - k] == s[start..next]
  {
  }

  lemma {:induction false} PartsMoved(cutter: Cutter, s: string, t: string, k: nat)
    requires k <= |s| && t == s[k..]
    requires IsCut(cutter(s), |s|) == IsCut(cutter(t), |t|)
    requires IsCut(cutter(s), |s|) ==>
               && cutter(s).value.start == cutter(t).value.start + k
               && cutter(s).value.next == cutter(t).value.next + k
    ensures Parts(cutter, t) == Parts(cutter, s)
  {
    var c := cutter(s);
    if IsCut(c, |s|) {
      SlicesMoved(s, t, k, c.value.start, c.value.next);
    }
  }

  lemma {:induction false} PartsAfterJunk(s: string, t: string, d: string, k: nat)
    requires d != "" && k <= |s| && t == s[k..] && IndexOf(s, d, 0) == IndexOf(s, d, k)
    ensures Parts(Marker(d), t) == Parts(Marker(d), s)
  {
    CutShifted(s, t, d, k);
    PartsMoved(Marker(d), s, t, k);
  }

  lemma {:induction false} NoMarkerInCut(buffer: string, d: string, more: string, k: nat, i: nat)
    requires IndexOf(buffer, d, 0) < 0 && |d| <= KEEP + 1 && k + KEEP == |buffer| && i < k
    ensures !OccursAt(buffer + more, d, i)
  {
    assert (buffer + more)[i..i + |d|] == buffer[i..i + |d|];
    IndexIsFirst(buffer, d, 0);
    assert !OccursAt(buffer, d, i);
  }

  lemma {:induction false} NoMarkerIsCut(buffer: string, d: string, more: string, k: nat)
    requires IndexOf(buffer, d, 0) < 0 && |d| <= KEEP + 1 && k + KEEP == |buffer|
    ensures IndexOf(buffer + more, d, 0) == IndexOf(buffer + more, d, k)
  {
    forall i | 0 <= i < k ensures !OccursAt(buffer + more, d, i) {
      NoMarkerInCut(buffer, d, more, k, i);
    }
    NothingBefore(buffer + more, d, 0, k);
  }

  lemma {:induction false} NothingIsCut(buffer: string, d: string, more: string, k: nat, text: string, kept: string)
    requires d != "" && IndexOf(buffer, d, 0) < 0 && |d| <= KEEP + 1 && k + KEEP == |buffer|
    requires text == buffer + more && kept == buffer[k..] + more
    ensures Parts(Marker(d), kept) == Parts(Marker(d), text)
  {
    NoMarkerIsCut(buffer, d, more, k);
    assert kept == text[k..];
    PartsAfterJunk(text, kept, d, k);
  }

  /** Cutting an over-long buffer without a marker loses no part, because no marker began in what is cut. */
  lemma {:induction false} TrimLosesNothing(buffer: string, d: string, more: string)
    requires d != "" && |d| <= KEEP + 1
    ensures Parts(Marker(d), Trimmed(buffer, d) + more) == Parts(Marker(d), buffer + more)
  {
    if IndexOf(buffer, d, 0) < 0 && |buffer| > MAX_BUFFER {
      NothingIsCut(buffer, d, more, |buffer| - KEEP, buffer + more, Trimmed(buffer, d) + more);
    }
  }

  const NOTHING := Feed("", [])

  ghost predicate AnyChunksGiveTheParts(d: string) {
    forall chunks: seq<string> ::
      FeedChunks(Marker(d), Trimmer(d), NOTHING, chunks).parts == Parts(Marker(d), Join(chunks))
  }

  lemma {:induction false} ShortMarkersAreKept(d: string)
    requires d != "" && |d| <= KEEP + 1
    ensures AnyChunksGiveTheParts(d)
  {
    var cutter, trim := Marker(d), Trimmer(d);
    MarkerIsSteady(d);
    forall x: string, more: string ensures LosesNothingAt(cutter, trim, x, more) {
      TrimLosesNothing(x, d, more);
    }
    OneMarkerHasNoPart("", d);
    forall chunks: seq<string> ensures FeedChunks(cutter, trim, NOTHING, chunks).parts == Parts(cutter, Join(chunks)) {
      ChunksGiveTheParts(cutter, trim, NOTHING, chunks);
      assert NOTHING.buffer + Join(chunks) == Join(chunks);
    }
  }

  // ---- A marker too long for the trimmed buffer ----

  function Padding(n: nat): string {
    seq(n, _ => 'x')
  }

  lemma {:induction false} NoMarkerInPadding(n: nat, d: string, s: string, i: nat)
    requires d != "" && d[0] == '-' && i < n <= |s| && s[..n] == Padding(n)
    ensures !OccursAt(s, d, i)
  {
    assert s[i] == s[..n][i] == 'x';
    if i + |d| <= |s| { assert s[i..i + |d|][0] == s[i]; }
  }

  lemma {:induction false} NotInPadding(n: nat, d: string, s: string)
    requires d != "" && d[0] == '-' && n <= |s| && s[..n] == Padding(n)
    ensures IndexOf(s, d, 0) == IndexOf(s, d, n)
  {
    forall i | 0 <= i < n ensures !OccursAt(s, d, i) {
      NoMarkerInPadding(n, d, s, i);
    }
    NothingBefore(s, d, 0, n);
  }

  lemma {:induction false} TwoMarkersAfterPadding(n: nat, d: string, text: string)
    requires d != "" && d[0] == '-' && text == Padding(n) + d + d
    ensures Parts(Marker(d), text) == [""]
  {
    assert text[..n] == Padding(n);
    NotInPadding(n, d, text);
    assert text[n..n + |d|] == d;
    assert text[n + |d|..n + |d| + |d|] == d;
    CutIs(text, d, n, n + |d|);
    OnePart(Marker(d), text, n + |d|, n + |d|);
    assert text[n + |d|..] == d;
    OneMarkerHasNoPart(d, d);
    assert Parts(Marker(d), text[n + |d|..]) == [];
    assert text[n + |d|..n + |d|] == "";
  }

  lemma {:induction false} LongMarkerText(d: string, a: string, b: string)
    requires |d| > KEEP + 1 && d[0] == '-'
    requires a == Padding(MAX_BUFFER) + d[..|d| - 1] && b == [d[|d| - 1]] + d
    ensures IndexOf(a, d, 0) < 0 && Parts(Marker(d), a + b) == [""]
  {
    assert d[..|d| - 1] + [d[|d| - 1]] == d;
    assert a + b == Padding(MAX_BUFFER) + d + d;
    TwoMarkersAfterPadding(MAX_BUFFER, d, a + b);
    assert a[..MAX_BUFFER] == Padding(MAX_BUFFER);
    NotInPadding(MAX_BUFFER, d, a);
  }

  lemma {:induction false} OneMarkerHasNoPart(text: string, d: string)
    requires d != "" && |text| < 2 * |d|
    ensures Parts(Marker(d), text) == []
  {
  }

  lemma {:induction false} TwoFeeds(cutter: Cutter, trim: string -> string, a: string, b: string)
    ensures FeedChunks(cutter, trim, NOTHING, [a, b]) == FeedOne(cutter, trim, FeedOne(cutter, trim, NOTHING, a), b)
  {
    var first := FeedOne(cutter, trim, NOTHING, a);
    assert [a, b][1..] == [b] && [b][1..] == [];
    assert FeedChunks(cutter, trim, first, [b]) == FeedChunks(cutter, trim, FeedOne(cutter, trim, first, b), []);
  }

  lemma {:induction false} SecondFeed(d: string, a: string, b: string)
    requires |d| > KEEP + 1 && |b| == |d| + 1
    requires IndexOf(a, d, 0) < 0 && |a| > MAX_BUFFER
    ensures FeedChunks(Marker(d), Trimmer(d), NOTHING, [a, b]).parts == []
  {
    var first := FeedOne(Marker(d), Trimmer(d), NOTHING, a);
    assert "" + a == a;
    assert first == Feed(a[|a| - KEEP..], []);
    OneMarkerHasNoPart(first.buffer + b, d);
    TwoFeeds(Marker(d), Trimmer(d), a, b);
  }

  lemma {:induction false} JoinTwo(a: string, b: string)
    ensures Join([a, b]) == a + b
  {
    assert [a, b][1..] == [b] && [b][1..] == [];
    assert Join([b]) == b + Join([]) == b;
  }

  lemma {:induction false} TwoChunksDiffer(d: string, a: string, b: string)
    requires FeedChunks(Marker(d), Trimmer(d), NOTHING, [a, b]).parts != Parts(Marker(d), Join([a, b]))
    ensures !AnyChunksGiveTheParts(d)
  {
  }

  lemma {:induction false} LongMarkerIsLost(d: string)
    requires |d| > KEEP + 1 && d[0] == '-'
    ensures !AnyChunksGiveTheParts(d)
  {
    var a, b := Padding(MAX_BUFFER) + d[..|d| - 1], [d[|d| - 1]] + d;
    LongMarkerText(d, a, b);
    SecondFeed(d, a, b);
    JoinTwo(a, b);
    TwoChunksDiffer(d, a, b);
  }

  /**
   * For every way of cutting the stream into chunks, the parts are those between successive markers
   * of the whole text, exactly when the marker is at most 1025 characters long.
   */
  lemma {:induction false} ChunksDoNotMatterIff(boundary: string)
    ensures AnyChunksGiveTheParts("--" + boundary) <==> |boundary| + 2 <= KEEP + 1
  {
    var d := "--" + boundary;
    if |d| <= KEEP + 1 {
      ShortMarkersAreKept(d);
    } else {
      LongMarkerIsLost(d);
    }
  }
}
