/** JSON values of the helper's line protocol, and the writer that appends them to a builder. */
module JsonWriter {
  import opened Base

  /** One UTF-16 code unit. */
  type Unit = c: int | 0 <= c < 0x1_0000

  const QUOTE: Unit := '"' as int
  const BACKSLASH: Unit := '\\' as int
  const COMMA: Unit := ',' as int
  const COLON: Unit := ':' as int
  const LBRACE: Unit := '{' as int
  const RBRACE: Unit := '}' as int
  const LBRACKET: Unit := '[' as int
  const RBRACKET: Unit := ']' as int
  const MINUS: Unit := '-' as int
  const ZERO: Unit := '0' as int
  const LF: Unit := 10
  const CR: Unit := 13
  const TRUE: seq<Unit> := ['t' as int, 'r' as int, 'u' as int, 'e' as int]
  const FALSE: seq<Unit> := ['f' as int, 'a' as int, 'l' as int, 's' as int, 'e' as int]
  const NULL: seq<Unit> := ['n' as int, 'u' as int, 'l' as int, 'l' as int]

  datatype Pair = Pair(key: seq<Unit>, value: Json)

  /** A dictionary keeps its pairs in the order in which the keys came. */
  datatype Json =
    | Null
    | Bool(b: bool)
    | Long(n: int)
    | Double(r: real)
    | Str(s: seq<Unit>)
    | List(items: seq<Json>)
    | Map(pairs: seq<Pair>)

  /** The runtime's own text for a double, and its own reading of one. */
  datatype Doubles = Doubles(show: real -> seq<Unit>, read: seq<Unit> -> Option<real>)

  // ---- What the text of a value is ----

  function Digits(n: nat): seq<Unit> {
    if n < 10 then [ZERO + n] else Digits(n / 10) + [ZERO + n % 10]
  }

  function LongText(n: int): seq<Unit> {
    if n < 0 then [MINUS] + Digits(-n) else Digits(n)
  }

  function HexDigit(n: int): Unit
    requires 0 <= n < 16
  {
    if n < 10 then ZERO + n else 'a' as int + n - 10
  }

  /** Section 7 of RFC 8259: the quotation mark, the backslash and the control characters are escaped. */
  function EscapedUnit(c: Unit): seq<Unit> {
    if c == QUOTE then [BACKSLASH, QUOTE]
    else if c == BACKSLASH then [BACKSLASH, BACKSLASH]
    else if c == LF then [BACKSLASH, 'n' as int]
    else if c == CR then [BACKSLASH, 'r' as int]
    else if c == 9 then [BACKSLASH, 't' as int]
    else if c < 0x20 then [BACKSLASH, 'u' as int, ZERO, ZERO, HexDigit(c / 16), HexDigit(c % 16)]
    else [c]
  }

  function Escaped(s: seq<Unit>): seq<Unit> {
    if s == [] then [] else EscapedUnit(s[0]) + Escaped(s[1..])
  }

  function Quoted(s: seq<Unit>): seq<Unit> {
    [QUOTE] + Escaped(s) + [QUOTE]
  }

  function Render(d: Doubles, v: Json): seq<Unit>
    decreases v
  {
    match v
    case Null => NULL
    case Bool(b) => if b then TRUE else FALSE
    case Long(n) => LongText(n)
    case Double(r) => d.show(r)
    case Str(s) => Quoted(s)
    case List(items) => [LBRACKET] + Items(d, items) + [RBRACKET]
    case Map(pairs) => [LBRACE] + Members(d, pairs) + [RBRACE]
  }

  function Items(d: Doubles, items: seq<Json>): seq<Unit>
    decreases items
  {
    if items == [] then []
    else if |items| == 1 then Render(d, items[0])
    else Render(d, items[0]) + [COMMA] + Items(d, items[1..])
  }

  function Member(d: Doubles, p: Pair): seq<Unit>
    decreases p
  {
    Quoted(p.key) + [COLON] + Render(d, p.value)
  }

  function Members(d: Doubles, pairs: seq<Pair>): seq<Unit>
    decreases pairs
  {
    if pairs == [] then []
    else if |pairs| == 1 then Member(d, pairs[0])
    else Member(d, pairs[0]) + [COMMA] + Members(d, pairs[1..])
  }

  lemma {:induction false} EscapedNext(before: seq<Unit>, s: seq<Unit>, k: nat)
    requires k < |s|
    ensures before + Escaped(s[..k + 1]) == before + Escaped(s[..k]) + EscapedUnit(s[k])
  {
    EscapedMore(s[..k], s[k]);
    assert s[..k] + [s[k]] == s[..k + 1];
  }

  lemma {:induction false} EscapedMore(s: seq<Unit>, c: Unit)
    ensures Escaped(s + [c]) == Escaped(s) + EscapedUnit(c)
  {
    if s == [] {
      assert (s + [c])[1..] == [];
    } else {
      assert (s + [c])[1..] == s[1..] + [c];
      EscapedMore(s[1..], c);
    }
  }

  lemma {:induction false} ItemsMore(d: Doubles, items: seq<Json>, v: Json)
    ensures Items(d, items + [v]) == Items(d, items) + (if items == [] then [] else [COMMA]) + Render(d, v)
  {
    if items == [] {
      assert items + [v] == [v];
    } else {
      var all := items + [v];
      assert all[0] == items[0] && all[1..] == items[1..] + [v];
      ItemsMore(d, items[1..], v);
    }
  }

  lemma {:induction false} MembersMore(d: Doubles, pairs: seq<Pair>, p: Pair)
    ensures Members(d, pairs + [p]) == Members(d, pairs) + (if pairs == [] then [] else [COMMA]) + Member(d, p)
  {
    if pairs != [] {
      assert (pairs + [p])[1..] == pairs[1..] + [p];
      MembersMore(d, pairs[1..], p);
    }
  }

  lemma {:induction false} NextItem(d: Doubles, items: seq<Json>, k: nat, lead: seq<Unit>)
    requires k < |items|
    ensures lead + Items(d, items[..k + 1]) ==
            lead + Items(d, items[..k]) + (if k == 0 then [] else [COMMA]) + Render(d, items[k])
  {
    assert items[..k] + [items[k]] == items[..k + 1];
    ItemsMore(d, items[..k], items[k]);
  }

  lemma {:induction false} NextMember(d: Doubles, pairs: seq<Pair>, k: nat, lead: seq<Unit>)
    requires k < |pairs|
    ensures lead + Members(d, pairs[..k + 1]) ==
            lead + Members(d, pairs[..k]) + (if k == 0 then [] else [COMMA]) + Member(d, pairs[k])
  {
    assert pairs[..k] + [pairs[k]] == pairs[..k + 1];
    MembersMore(d, pairs[..k], pairs[k]);
  }

  // ---- The writer ----

  class StringBuilder {
    var text: seq<Unit>

    constructor ()
      ensures text == []
    {
      text := [];
    }

    method Append(s: seq<Unit>)
      modifies this
      ensures text == old(text) + s
    {
      text := text + s;
    }
  }

  method Write(d: Doubles, value: Json) returns (text: seq<Unit>)
    ensures text == Render(d, value)
  {
    var builder := new StringBuilder();
    WriteValue(d, builder, value);
    text := builder.text;
  }

  method WriteValue(d: Doubles, builder: StringBuilder, value: Json)
    modifies builder
    ensures builder.text == old(builder.text) + Render(d, value)
    decreases value, 1
  {
    match value
    case Null => builder.Append(NULL);
    case Str(s) => WriteString(builder, s);
    case Bool(b) => builder.Append(if b then TRUE else FALSE);
    case Long(n) => builder.Append(LongText(n));
    case Double(r) => builder.Append(d.show(r));
    case Map(pairs) => WriteMap(d, builder, pairs);
    case List(items) => WriteList(d, builder, items);
  }

  method WriteMap(d: Doubles, builder: StringBuilder, pairs: seq<Pair>)
    modifies builder
    ensures builder.text == old(builder.text) + ([LBRACE] + Members(d, pairs) + [RBRACE])
    decreases pairs, 2
  {
    ghost var lead := builder.text + [LBRACE];
    builder.Append([LBRACE]);
    var first := true;
    for k := 0 to |pairs|
      invariant first == (k == 0)
      invariant builder.text == lead + Members(d, pairs[..k])
    {
      WriteMember(d, builder, pairs, k, first, lead);
      first := false;
    }
    assert pairs[..|pairs|] == pairs;
    builder.Append([RBRACE]);
  }

  method WriteMember(d: Doubles, builder: StringBuilder, pairs: seq<Pair>, k: nat, first: bool, ghost lead: seq<Unit>)
    requires k < |pairs| && first == (k == 0)
    requires builder.text == lead + Members(d, pairs[..k])
    modifies builder
    ensures builder.text == lead + Members(d, pairs[..k + 1])
    decreases pairs, 1
  {
    if !first { builder.Append([COMMA]); }
    WritePair(d, builder, pairs[k]);
    NextMember(d, pairs, k, lead);
  }

  method WritePair(d: Doubles, builder: StringBuilder, p: Pair)
    modifies builder
    ensures builder.text == old(builder.text) + Member(d, p)
    decreases p, 1
  {
    WriteString(builder, p.key);
    builder.Append([COLON]);
    WriteValue(d, builder, p.value);
  }

  method WriteList(d: Doubles, builder: StringBuilder, items: seq<Json>)
    modifies builder
    ensures builder.text == old(builder.text) + ([LBRACKET] + Items(d, items) + [RBRACKET])
    decreases items, 1
  {
    ghost var lead := builder.text + [LBRACKET];
    builder.Append([LBRACKET]);
    var first := true;
    for k := 0 to |items|
      invariant first == (k == 0)
      invariant builder.text == lead + Items(d, items[..k])
    {
      WriteItem(d, builder, items, k, first, lead);
      first := false;
    }
    assert items[..|items|] == items;
    builder.Append([RBRACKET]);
  }

  method WriteItem(d: Doubles, builder: StringBuilder, items: seq<Json>, k: nat, first: bool, ghost lead: seq<Unit>)
    requires k < |items| && first == (k == 0)
    requires builder.text == lead + Items(d, items[..k])
    modifies builder
    ensures builder.text == lead + Items(d, items[..k + 1])
    decreases items, 0
  {
    if !first { builder.Append([COMMA]); }
    WriteValue(d, builder, items[k]);
    NextItem(d, items, k, lead);
  }

  method WriteString(builder: StringBuilder, value: seq<Unit>)
    modifies builder
    ensures builder.text == old(builder.text) + Quoted(value)
  {
    ghost var was := builder.text;
    builder.Append([QUOTE]);
    for k := 0 to |value|
      invariant builder.text == was + [QUOTE] + Escaped(value[..k])
    {
      WriteUnit(builder, value[k]);
      EscapedNext(was + [QUOTE], value, k);
    }
    assert value[..|value|] == value;
    builder.Append([QUOTE]);
  }

  method WriteUnit(builder: StringBuilder, c: Unit)
    modifies builder
    ensures builder.text == old(builder.text) + EscapedUnit(c)
  {
    if c == QUOTE { builder.Append([BACKSLASH, QUOTE]); }
    else if c == BACKSLASH { builder.Append([BACKSLASH, BACKSLASH]); }
    else if c == LF { builder.Append([BACKSLASH, 'n' as int]); }
    else if c == CR { builder.Append([BACKSLASH, 'r' as int]); }
    else if c == 9 { builder.Append([BACKSLASH, 't' as int]); }
    else if c < 0x20 {
      builder.Append([BACKSLASH, 'u' as int]);
      builder.Append([ZERO, ZERO, HexDigit(c / 16), HexDigit(c % 16)]);
    } else {
      builder.Append([c]);
    }
  }
}
