/** The JSON reader: mutually recursive parsers that move one index over the text, each ahead or not at all. */
module JsonReader {
  import opened Base
  import opened JsonWriter

  datatype Failure =
    | TrailingCharacters | NotAnObject | EndOfInput | LiteralExpected | ValueExpected | NotANumber
    | KeyExpected | ColonExpected | ObjectNotClosed | ArrayNotClosed | SeparatorExpected
    | StringNotClosed | TruncatedEscape | UnknownEscape | BadHex

  /** What a parser read and the index it stopped at, or the exception it threw. */
  datatype Parsed<+T> = Done(value: T, next: nat) | Failed(failure: Failure)

  const SLASH: Unit := '/' as int
  const LOWER_U: Unit := 'u' as int
  const PLUS: Unit := '+' as int

  // ---- Numbers and escapes ----

  predicate IsSpace(c: Unit) {
    c == 32 || c == 9 || c == CR || c == LF
  }

  predicate IsDigit(c: Unit) {
    ZERO <= c <= ZERO + 9
  }

  predicate InNumber(c: Unit) {
    IsDigit(c) || c == MINUS || c == PLUS || c == '.' as int || c == 'e' as int || c == 'E' as int
  }

  predicate AllDigits(s: seq<Unit>) {
    forall k :: 0 <= k < |s| ==> IsDigit(s[k])
  }

  function Value(s: seq<Unit>): int {
    if s == [] then 0 else Value(s[..|s| - 1]) * 10 + (s[|s| - 1] - ZERO)
  }

  const LONG_MIN: int := -0x8000_0000_0000_0000
  const LONG_MAX: int := 0x7fff_ffff_ffff_ffff

  /** A 64-bit integer: an optional sign and digits, in range. */
  function LongOf(s: seq<Unit>): Option<int> {
    var digits := if s != [] && (s[0] == MINUS || s[0] == PLUS) then s[1..] else s;
    if digits == [] || !AllDigits(digits) then None
    else
      var n := if s[0] == MINUS then -Value(digits) else Value(digits);
      if LONG_MIN <= n <= LONG_MAX then Some(n) else None
  }

  function HexValue(c: Unit): Option<int>
    ensures HexValue(c).Some? ==> 0 <= HexValue(c).value < 16
  {
    if IsDigit(c) then Some(c - ZERO)
    else if 'a' as int <= c <= 'f' as int then Some(c - 'a' as int + 10)
    else if 'A' as int <= c <= 'F' as int then Some(c - 'A' as int + 10)
    else None
  }

  predicate IsBlank(c: Unit) {
    c == 32 || 9 <= c <= 13
  }

  function SkipBlank(s: seq<Unit>): (r: seq<Unit>)
    ensures |r| <= |s|
  {
    if s != [] && IsBlank(s[0]) then SkipBlank(s[1..]) else s
  }

  predicate OnlyNuls(s: seq<Unit>) {
    forall k :: 0 <= k < |s| ==> s[k] == 0
  }

  /** What a number may have reached with `n` of four hexadecimal digits still to come. */
  function Room(n: nat): int {
    if n == 0 then 0x1_0000 else if n == 1 then 0x1000 else if n == 2 then 0x100 else if n == 3 then 0x10 else 1
  }

  /** The digits of a hexadecimal number; after the first, blanks and then nul characters may follow. */
  function HexFrom(s: seq<Unit>, sum: nat, any: bool): (r: Option<Unit>)
    requires |s| <= 4 && sum < Room(|s|)
    decreases |s|
  {
    if s == [] then if any then Some(sum) else None
    else if HexValue(s[0]).Some? then HexFrom(s[1..], 16 * sum + HexValue(s[0]).value, true)
    else if any && OnlyNuls(SkipBlank(s)) then Some(sum) else None
  }

  /** Four characters read as one hexadecimal number, the way the runtime reads them. */
  function HexOf(s: seq<Unit>): Option<Unit>
    requires |s| == 4
  {
    HexFrom(SkipBlank(s), 0, false)
  }

  function Unescaped(c: Unit): Option<Unit> {
    if c == QUOTE || c == BACKSLASH || c == SLASH then Some(c)
    else if c == 'b' as int then Some(8)
    else if c == 'f' as int then Some(12)
    else if c == 'n' as int then Some(LF)
    else if c == 'r' as int then Some(CR)
    else if c == 't' as int then Some(9)
    else None
  }

  // ---- What each parser reads ----

  function SkipTo(text: seq<Unit>, i: nat): (r: nat)
    requires i <= |text|
    ensures i <= r <= |text|
    decreases |text| - i
  {
    if i < |text| && IsSpace(text[i]) then SkipTo(text, i + 1) else i
  }

  function NumberEnd(text: seq<Unit>, i: nat): (r: nat)
    requires i <= |text|
    ensures i <= r <= |text|
    decreases |text| - i
  {
    if i < |text| && InNumber(text[i]) then NumberEnd(text, i + 1) else i
  }

  function NumberAt(d: Doubles, text: seq<Unit>, i: nat): (r: Parsed<Json>)
    requires i <= |text|
    ensures r.Done? ==> i < r.next <= |text|
  {
    var end := NumberEnd(text, i);
    var slice := text[i..end];
    if slice == [] then Failed(ValueExpected)
    else if LongOf(slice).Some? then Done(Long(LongOf(slice).value), end)
    else if d.read(slice).Some? then Done(Double(d.read(slice).value), end)
    else Failed(NotANumber)
  }

  function LiteralAt(text: seq<Unit>, i: nat, literal: seq<Unit>, v: Json): (r: Parsed<Json>)
    requires i <= |text| && literal != []
    ensures r.Done? ==> i < r.next <= |text|
  {
    if i + |literal| > |text| || text[i..i + |literal|] != literal then Failed(LiteralExpected)
    else Done(v, i + |literal|)
  }

  /** One turn of the string loop: the character read and the index after it. */
  function UnitAt(text: seq<Unit>, i: nat): (r: Parsed<Unit>)
    requires i < |text| && text[i] != QUOTE
    ensures r.Done? ==> i < r.next <= |text|
  {
    if text[i] != BACKSLASH then Done(text[i], i + 1)
    else if i + 1 == |text| then Failed(StringNotClosed)
    else if text[i + 1] == LOWER_U then
      if i + 6 > |text| then Failed(TruncatedEscape)
      else
        var h := HexOf(text[i + 2..i + 6]);
        if h.None? then Failed(BadHex) else Done(h.value, i + 6)
    else
      var u := Unescaped(text[i + 1]);
      if u.None? then Failed(UnknownEscape) else Done(u.value, i + 2)
  }

  /** The rest of a string after its opening quotation mark. */
  function StringAt(text: seq<Unit>, i: nat, read: seq<Unit>): (r: Parsed<seq<Unit>>)
    requires i <= |text|
    ensures r.Done? ==> i < r.next <= |text|
    decreases |text| - i
  {
    if i == |text| then Failed(StringNotClosed)
    else if text[i] == QUOTE then Done(read, i + 1)
    else
      var u := UnitAt(text, i);
      if u.Failed? then Failed(u.failure) else StringAt(text, u.next, read + [u.value])
  }

  function ValueAt(d: Doubles, text: seq<Unit>, i: nat): (r: Parsed<Json>)
    requires i <= |text|
    ensures r.Done? ==> i < r.next <= |text|
    decreases |text| - i, 0
  {
    var j := SkipTo(text, i);
    if j == |text| then Failed(EndOfInput)
    else if text[j] == LBRACE then
      var k := SkipTo(text, j + 1);
      if k < |text| && text[k] == RBRACE then Done(Map([]), k + 1) else MembersAt(d, text, k, [])
    else if text[j] == LBRACKET then
      var k := SkipTo(text, j + 1);
      if k < |text| && text[k] == RBRACKET then Done(List([]), k + 1) else ItemsAt(d, text, k, [])
    else if text[j] == QUOTE then
      var s := StringAt(text, j + 1, []);
      if s.Failed? then Failed(s.failure) else Done(Str(s.value), s.next)
    else if text[j] == TRUE[0] then LiteralAt(text, j, TRUE, Bool(true))
    else if text[j] == FALSE[0] then LiteralAt(text, j, FALSE, Bool(false))
    else if text[j] == NULL[0] then LiteralAt(text, j, NULL, Null)
    else NumberAt(d, text, j)
  }

  /** The items from index `i` on, after those already read. */
  function ItemsAt(d: Doubles, text: seq<Unit>, i: nat, items: seq<Json>): (r: Parsed<Json>)
    requires i <= |text|
    ensures r.Done? ==> i < r.next <= |text|
    decreases |text| - i, 1
  {
    var v := ValueAt(d, text, i);
    if v.Failed? then v
    else
      var k := SkipTo(text, v.next);
      if k == |text| then Failed(ArrayNotClosed)
      else if text[k] == COMMA then ItemsAt(d, text, k + 1, items + [v.value])
      else if text[k] == RBRACKET then Done(List(items + [v.value]), k + 1)
      else Failed(SeparatorExpected)
  }

  /** A key that is already there keeps its place and takes the new value. */
  function Put(pairs: seq<Pair>, key: seq<Unit>, value: Json): seq<Pair> {
    if pairs == [] then [Pair(key, value)]
    else if pairs[0].key == key then [Pair(key, value)] + pairs[1..]
    else [pairs[0]] + Put(pairs[1..], key, value)
  }

  function KeyAt(text: seq<Unit>, i: nat): (r: Parsed<seq<Unit>>)
    requires i <= |text|
    ensures r.Done? ==> i < r.next <= |text|
  {
    var j := SkipTo(text, i);
    if j == |text| || text[j] != QUOTE then Failed(KeyExpected)
    else
      var key := StringAt(text, j + 1, []);
      if key.Failed? then key
      else
        var k := SkipTo(text, key.next);
        if k == |text| || text[k] != COLON then Failed(ColonExpected) else Done(key.value, k + 1)
  }

  function MemberAt(d: Doubles, text: seq<Unit>, i: nat): (r: Parsed<Pair>)
    requires i <= |text|
    ensures r.Done? ==> i < r.next <= |text|
    decreases |text| - i, 1
  {
    var key := KeyAt(text, i);
    if key.Failed? then Failed(key.failure)
    else
      var v := ValueAt(d, text, key.next);
      if v.Failed? then Failed(v.failure) else Done(Pair(key.value, v.value), v.next)
  }

  function MembersAt(d: Doubles, text: seq<Unit>, i: nat, pairs: seq<Pair>): (r: Parsed<Json>)
    requires i <= |text|
    ensures r.Done? ==> i < r.next <= |text|
    decreases |text| - i, 2
  {
    var p := MemberAt(d, text, i);
    if p.Failed? then Failed(p.failure)
    else
      var k := SkipTo(text, p.next);
      var more := Put(pairs, p.value.key, p.value.value);
      if k == |text| then Failed(ObjectNotClosed)
      else if text[k] == COMMA then MembersAt(d, text, k + 1, more)
      else if text[k] == RBRACE then Done(Map(more), k + 1)
      else Failed(SeparatorExpected)
  }

  /** A whole message: one object and nothing after it. */
  function ObjectOf(d: Doubles, text: seq<Unit>): Parsed<Json> {
    var v := ValueAt(d, text, 0);
    if v.Failed? then v
    else if SkipTo(text, v.next) < |text| then Failed(TrailingCharacters)
    else if !v.value.Map? then Failed(NotAnObject)
    else Done(v.value, |text|)
  }

  // ---- The parsers ----

  method ParseObject(d: Doubles, text: seq<Unit>) returns (r: Parsed<Json>)
    ensures r == ObjectOf(d, text)
  {
    var v := ParseValue(d, text, 0);
    if v.Failed? {
      return v;
    }
    var index := SkipWhitespace(text, v.next);
    if index < |text| {
      return Failed(TrailingCharacters);
    }
    if !v.value.Map? {
      return Failed(NotAnObject);
    }
    return Done(v.value, index);
  }

  method ParseValue(d: Doubles, text: seq<Unit>, start: nat) returns (r: Parsed<Json>)
    requires start <= |text|
    ensures r == ValueAt(d, text, start)
    decreases |text| - start, 1
  {
    var index := SkipWhitespace(text, start);
    if index >= |text| {
      return Failed(EndOfInput);
    }
    var c := text[index];
    if c == LBRACE { r := ParseMap(d, text, index); }
    else if c == LBRACKET { r := ParseArray(d, text, index); }
    else if c == QUOTE {
      var s := ParseString(text, index);
      r := if s.Failed? then Failed(s.failure) else Done(Str(s.value), s.next);
    }
    else if c == TRUE[0] { r := Expect(text, index, TRUE, Bool(true)); }
    else if c == FALSE[0] { r := Expect(text, index, FALSE, Bool(false)); }
    else if c == NULL[0] { r := Expect(text, index, NULL, Null); }
    else { r := ParseNumber(d, text, index); }
  }

  method ParseMap(d: Doubles, text: seq<Unit>, start: nat) returns (r: Parsed<Json>)
    requires start < |text|
    ensures r == var k := SkipTo(text, start + 1);
                 if k < |text| && text[k] == RBRACE then Done(Map([]), k + 1) else MembersAt(d, text, k, [])
    decreases |text| - start, 0
  {
    var index := SkipWhitespace(text, start + 1);
    if index < |text| && text[index] == RBRACE {
      return Done(Map([]), index + 1);
    }
    r := ParseMembers(d, text, index);
  }

  method ParseMembers(d: Doubles, text: seq<Unit>, start: nat) returns (r: Parsed<Json>)
    requires start <= |text|
    ensures r == MembersAt(d, text, start, [])
    decreases |text| - start, 3
  {
    var entries: seq<Pair>, index := [], start;
    ghost var wanted := MembersAt(d, text, index, []);
    while true
      invariant start <= index <= |text|
      invariant MembersAt(d, text, index, entries) == wanted
      decreases |text| - index
    {
      var p := ParseMember(d, text, index);
      if p.Failed? {
        return Failed(p.failure);
      }
      entries := Put(entries, p.value.key, p.value.value);
      index := SkipWhitespace(text, p.next);
      if index >= |text| {
        return Failed(ObjectNotClosed);
      }
      if text[index] == COMMA {
        index := index + 1;
        continue;
      }
      if text[index] == RBRACE {
        return Done(Map(entries), index + 1);
      }
      return Failed(SeparatorExpected);
    }
  }

  method ParseMember(d: Doubles, text: seq<Unit>, start: nat) returns (r: Parsed<Pair>)
    requires start <= |text|
    ensures r == MemberAt(d, text, start)
    decreases |text| - start, 2
  {
    var key := ParseKey(text, start);
    if key.Failed? {
      return Failed(key.failure);
    }
    var v := ParseValue(d, text, key.next);
    if v.Failed? {
      return Failed(v.failure);
    }
    return Done(Pair(key.value, v.value), v.next);
  }

  method ParseKey(text: seq<Unit>, start: nat) returns (r: Parsed<seq<Unit>>)
    requires start <= |text|
    ensures r == KeyAt(text, start)
  {
    var index := SkipWhitespace(text, start);
    if index >= |text| || text[index] != QUOTE {
      return Failed(KeyExpected);
    }
    var key := ParseString(text, index);
    if key.Failed? {
      return key;
    }
    index := SkipWhitespace(text, key.next);
    if index >= |text| || text[index] != COLON {
      return Failed(ColonExpected);
    }
    return Done(key.value, index + 1);
  }

  method ParseArray(d: Doubles, text: seq<Unit>, start: nat) returns (r: Parsed<Json>)
    requires start < |text|
    ensures r == var k := SkipTo(text, start + 1);
                 if k < |text| && text[k] == RBRACKET then Done(List([]), k + 1) else ItemsAt(d, text, k, [])
    decreases |text| - start, 0
  {
    var list := [];
    var index := SkipWhitespace(text, start + 1);
    if index < |text| && text[index] == RBRACKET {
      return Done(List(list), index + 1);
    }
    ghost var wanted := ItemsAt(d, text, index, []);
    while true
      invariant start < index <= |text|
      invariant ItemsAt(d, text, index, list) == wanted
      decreases |text| - index
    {
      var v := ParseValue(d, text, index);
      if v.Failed? {
        return v;
      }
      list := list + [v.value];
      index := SkipWhitespace(text, v.next);
      if index >= |text| {
        return Failed(ArrayNotClosed);
      }
      if text[index] == COMMA {
        index := index + 1;
        continue;
      }
      if text[index] == RBRACKET {
        return Done(List(list), index + 1);
      }
      return Failed(SeparatorExpected);
    }
  }

  method ParseString(text: seq<Unit>, start: nat) returns (r: Parsed<seq<Unit>>)
    requires start < |text|
    ensures r == StringAt(text, start + 1, [])
  {
    var builder: seq<Unit> := [];
    var index := start + 1;
    while index < |text|
      invariant start < index <= |text|
      invariant StringAt(text, index, builder) == StringAt(text, start + 1, [])
    {
      if text[index] == QUOTE {
        return Done(builder, index + 1);
      }
      var u := ParseUnit(text, index);
      if u.Failed? {
        return Failed(u.failure);
      }
      builder := builder + [u.value];
      index := u.next;
    }
    return Failed(StringNotClosed);
  }

  method ParseUnit(text: seq<Unit>, start: nat) returns (r: Parsed<Unit>)
    requires start < |text| && text[start] != QUOTE
    ensures r == UnitAt(text, start)
  {
    var index := start + 1;
    if text[start] != BACKSLASH {
      return Done(text[start], index);
    }
    if index >= |text| {
      return Failed(StringNotClosed);
    }
    var escape := text[index];
    index := index + 1;
    if escape == LOWER_U {
      if index + 4 > |text| {
        return Failed(TruncatedEscape);
      }
      var h := HexOf(text[index..index + 4]);
      if h.None? {
        return Failed(BadHex);
      }
      return Done(h.value, index + 4);
    }
    var u := Unescaped(escape);
    if u.None? {
      return Failed(UnknownEscape);
    }
    return Done(u.value, index);
  }

  method ParseNumber(d: Doubles, text: seq<Unit>, start: nat) returns (r: Parsed<Json>)
    requires start <= |text|
    ensures r == NumberAt(d, text, start)
  {
    var index := start;
    while index < |text| && InNumber(text[index])
      invariant start <= index <= |text|
      invariant NumberEnd(text, index) == NumberEnd(text, start)
    {
      index := index + 1;
    }
    var slice := text[start..index];
    if slice == [] {
      return Failed(ValueExpected);
    }
    var integer := LongOf(slice);
    if integer.Some? {
      return Done(Long(integer.value), index);
    }
    var double := d.read(slice);
    if double.Some? {
      return Done(Double(double.value), index);
    }
    return Failed(NotANumber);
  }

  method Expect(text: seq<Unit>, index: nat, literal: seq<Unit>, v: Json) returns (r: Parsed<Json>)
    requires index <= |text| && literal != []
    ensures r == LiteralAt(text, index, literal, v)
  {
    if index + |literal| > |text| || text[index..index + |literal|] != literal {
      return Failed(LiteralExpected);
    }
    return Done(v, index + |literal|);
  }

  method SkipWhitespace(text: seq<Unit>, start: nat) returns (index: nat)
    requires start <= |text|
    ensures index == SkipTo(text, start)
  {
    index := start;
    while index < |text| && IsSpace(text[index])
      invariant start <= index <= |text|
      invariant SkipTo(text, index) == SkipTo(text, start)
    {
      index := index + 1;
    }
  }
}
