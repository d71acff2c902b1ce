/** What is handed on of a part: any line endings, any blanks around the document, and what is passed over. */
module PartDocuments {
  import opened Base
  import opened Slices
  import opened Multipart

  /** No line break, or one of either kind. */
  predicate IsBreak(s: string) {
    s == "" || s == "\r\n" || s == "\n"
  }

  /** A line break at either end of the raw part, and no more of it left that belongs to it. */
  ghost predicate Framed(lead: string, text: string, trail: string) {
    && IsBreak(lead) && IsBreak(trail) && text != ""
    && (lead == "" ==> text[0] != '\n' && !StartsWith(text + trail, "\r\n"))
    && (trail == "" ==> text[|text| - 1] != '\n')
    && (trail == "\n" ==> text[|text| - 1] != '\r')
  }

  lemma {:induction false} StartsWithBreak(s: string)
    ensures StartsWith(s, "\n") <==> s != "" && s[0] == '\n'
    ensures StartsWith(s, "\r\n") <==> |s| >= 2 && s[0] == '\r' && s[1] == '\n'
  {
    if s != "" { assert s[..1] == [s[0]]; }
    if |s| >= 2 { assert s[..2] == [s[0], s[1]]; }
  }

  lemma {:induction false} EndsWithBreak(s: string)
    ensures EndsWith(s, "\n") <==> s != "" && s[|s| - 1] == '\n'
    ensures EndsWith(s, "\r\n") <==> |s| >= 2 && s[|s| - 2] == '\r' && s[|s| - 1] == '\n'
  {
    if s != "" { assert s[|s| - 1..] == [s[|s| - 1]]; }
    if |s| >= 2 { assert s[|s| - 2..] == [s[|s| - 2], s[|s| - 1]]; }
  }

  function WithoutLead(raw: string): string {
    if StartsWith(raw, "\r\n") then raw[2..] else if StartsWith(raw, "\n") then raw[1..] else raw
  }

  function WithoutTrail(raw: string): string {
    if EndsWith(raw, "\r\n") then raw[..|raw| - 2] else if EndsWith(raw, "\n") then raw[..|raw| - 1] else raw
  }

  lemma {:induction false} LeadIsDropped(lead: string, rest: string)
    requires IsBreak(lead) && (lead == "" ==> !StartsWith(rest, "\n") && !StartsWith(rest, "\r\n"))
    ensures WithoutLead(lead + rest) == rest
  {
    var raw := lead + rest;
    StartsWithBreak(raw);
    assert raw[|lead|..] == rest;
    if lead == "" { assert raw == rest; }
  }

  lemma {:induction false} TrailIsDropped(text: string, trail: string)
    requires text != "" && IsBreak(trail)
    requires trail == "" ==> text[|text| - 1] != '\n'
    requires trail == "\n" ==> text[|text| - 1] != '\r'
    ensures WithoutTrail(text + trail) == text
  {
    var raw := text + trail;
    EndsWithBreak(raw);
    assert raw[..|text|] == text;
    if trail == "" { assert raw == text; }
  }

  lemma {:induction false} FramesAreDropped(lead: string, text: string, trail: string)
    requires Framed(lead, text, trail)
    ensures Stripped(lead + text + trail) == text
  {
    var rest := text + trail;
    StartsWithBreak(rest);
    FirstOfTwo(text, trail);
    LeadIsDropped(lead, rest);
    TrailIsDropped(text, trail);
    Regroup(lead, text, trail);
    BothDropped(lead + text + trail, lead + rest, rest, text);
  }

  lemma {:induction false} FirstOfTwo(text: string, trail: string)
    requires text != ""
    ensures (text + trail)[0] == text[0]
  {
  }

  lemma {:induction false} BothDropped(raw: string, same: string, rest: string, text: string)
    requires raw == same && WithoutLead(same) == rest && WithoutTrail(rest) == text
    ensures Stripped(raw) == text
  {
  }

  predicate IsBlankLine(mark: string) {
    mark == "\r\n\r\n" || mark == "\n\n"
  }

  /** A blank line of either kind begins at `n`, and none before. */
  ghost predicate FirstBlankLine(text: string, n: int) {
    && (OccursAt(text, "\r\n\r\n", n) || OccursAt(text, "\n\n", n))
    && forall i :: 0 <= i < n ==> !OccursAt(text, "\r\n\r\n", i) && !OccursAt(text, "\n\n", i)
  }

  lemma {:induction false} BlankLineIsFirst(text: string)
    ensures BlankLine(text) >= 0 ==> FirstBlankLine(text, BlankLine(text))
    ensures BlankLine(text) < 0 ==> forall i :: 0 <= i ==> !OccursAt(text, "\r\n\r\n", i) && !OccursAt(text, "\n\n", i)
  {
    IndexIsFirst(text, "\r\n\r\n", 0);
    IndexIsFirst(text, "\n\n", 0);
  }

  lemma {:induction false} OnlyFirst(text: string, n: nat)
    requires FirstBlankLine(text, n)
    ensures BlankLine(text) == n
  {
    BlankLineIsFirst(text);
  }

  predicate Blanks(s: string) {
    forall k :: 0 <= k < |s| ==> s[k] <= ' '
  }

  predicate Solid(doc: string) {
    doc == "" || (doc[0] > ' ' && doc[|doc| - 1] > ' ')
  }

  lemma {:induction false} SkipsBlanks(before: string, rest: string)
    requires Blanks(before) && (rest == "" || rest[0] > ' ')
    ensures SkipBlanks(before + rest) == rest
    decreases |before|
  {
    if before == "" {
      assert before + rest == rest;
    } else {
      assert (before + rest)[0] == before[0] && (before + rest)[1..] == before[1..] + rest;
      SkipsBlanks(before[1..], rest);
    }
  }

  lemma {:induction false} DropsBlanks(rest: string, after: string)
    requires Blanks(after) && (rest == "" || rest[|rest| - 1] > ' ')
    ensures DropBlanks(rest + after) == rest
    decreases |after|
  {
    var n := |after| - 1;
    if after == "" {
      assert rest + after == rest;
    } else {
      LastOfTwo(rest, after, n);
      DropsBlanks(rest, after[..n]);
    }
  }

  lemma {:induction false} LastOfTwo(rest: string, after: string, n: nat)
    requires |after| == n + 1
    ensures (rest + after)[|rest| + n] == after[n] && (rest + after)[..|rest| + n] == rest + after[..n]
  {
  }

  /** Blanks on both sides of a document are taken off, and it is left whole. */
  lemma {:induction false} TrimLeavesDocument(before: string, doc: string, after: string)
    requires Blanks(before) && Solid(doc) && Blanks(after)
    ensures DropBlanks(SkipBlanks(before + doc + after)) == doc
  {
    if doc == "" {
      assert before + doc + after == (before + after) + "";
      SkipsBlanks(before + after, "");
    } else {
      assert before + doc + after == before + (doc + after);
      SkipsBlanks(before, doc + after);
      DropsBlanks(doc, after);
    }
  }

  lemma {:induction false} BehindMark(headers: string, mark: string, rest: string)
    requires IsBlankLine(mark)
    ensures var text := headers + mark + rest;
      var skip := if StartsWith(text[|headers|..], "\r\n\r\n") then 4 else 2;
      skip == |mark| && text[|headers| + skip..] == rest && OccursAt(text, mark, |headers|)
  {
    var text := headers + mark + rest;
    assert text[|headers|..] == mark + rest && (mark + rest)[..|mark|] == mark;
    assert text[|headers|..|headers| + |mark|] == mark;
    if mark == "\n\n" { assert (mark + rest)[0] == '\n'; }
    assert text[|headers| + |mark|..] == rest;
  }

  /**
   * A part is headers, the first blank line, and a document among blanks: the document is handed on, whole
   * and without the blanks, exactly when it is JSON or XML by its first character.
   */
  lemma {:induction false} PartIsOpened(lead: string, headers: string, mark: string, before: string, doc: string, after: string, trail: string)
    requires IsBlankLine(mark) && Blanks(before) && Solid(doc) && Blanks(after)
    requires var text := headers + mark + (before + doc + after);
      Framed(lead, text, trail) && FirstBlankLine(text, |headers|)
    ensures DocumentIn(lead + (headers + mark + (before + doc + after)) + trail) ==
      if doc != "" && (doc[0] == '{' || doc[0] == '<') then Some(doc) else None
  {
    var text := headers + mark + (before + doc + after);
    FramesAreDropped(lead, text, trail);
    OnlyFirst(text, |headers|);
    BehindMark(headers, mark, before + doc + after);
    TrimLeavesDocument(before, doc, after);
  }

  /** A part without a blank line hands on nothing. */
  lemma {:induction false} NoBlankLineNoDocument(raw: string)
    requires forall i :: 0 <= i ==> !OccursAt(raw, "\r\n\r\n", i) && !OccursAt(raw, "\n\n", i)
    ensures DocumentIn(raw) == None
  {
    var text := Stripped(raw);
    BlankLineIsFirst(text);
    var n := BlankLine(text);
    if n >= 0 {
      var shift := if StartsWith(raw, "\r\n") then 2 else if StartsWith(raw, "\n") then 1 else 0;
      assert forall k :: 0 <= k < |text| ==> text[k] == raw[shift + k];
      OccursIn(raw, text, shift, "\r\n\r\n", n);
      OccursIn(raw, text, shift, "\n\n", n);
      assert false;
    }
  }

  lemma {:induction false} OccursIn(raw: string, text: string, shift: nat, mark: string, i: nat)
    requires shift + |text| <= |raw| && forall k :: 0 <= k < |text| ==> text[k] == raw[shift + k]
    ensures OccursAt(text, mark, i) ==> OccursAt(raw, mark, shift + i)
  {
    if OccursAt(text, mark, i) {
      assert raw[shift + i..shift + i + |mark|] == text[i..i + |mark|];
    }
  }
}
