/** The archive writer: aligned local entries, the central directory and the end record. */
module Zip {
  import opened Base
  import opened Packing
  import opened Slices

  const LOCAL_SIGNATURE: nat := 0x04034B50
  const CENTRAL_SIGNATURE: nat := 0x02014B50
  const END_SIGNATURE: nat := 0x06054B50
  const STORED: nat := 0
  const DEFLATED: nat := 8

  /** Sections 4.3.7, 4.3.12 and 4.3.16 of PKWARE APPNOTE. */
  const LOCAL: seq<nat> := [4, 2, 2, 2, 2, 2, 4, 4, 4, 2, 2]
  const CENTRAL: seq<nat> := [4, 2, 2, 2, 2, 2, 2, 4, 4, 4, 2, 2, 2, 2, 2, 4, 4]
  const END: seq<nat> := [4, 2, 2, 2, 2, 4, 4, 2]

  /** The checksum and the compressor, of which only their laws are used. */
  datatype Codec = Codec(
    crc: seq<Byte> -> nat, deflate: seq<Byte> -> seq<Byte>, inflate: seq<Byte> -> Option<seq<Byte>>)

  ghost predicate Lawful(c: Codec) {
    && (forall data: seq<Byte> :: c.crc(data) < Pow256(4))
    && (forall data: seq<Byte> :: c.inflate(c.deflate(data)) == Some(data))
  }

  datatype Entry = Entry(name: string, data: seq<Byte>, stored: bool)

  // ---- Names ----

  function Utf8Char(ch: char): (r: seq<Byte>)
    ensures r != [] && (ch as int < 0x80 <==> r == [ch as int]) && (ch as int >= 0x80 <==> |r| > 1)
    ensures forall k :: 0 <= k < |r| && |r| > 1 ==> r[k] >= 0x80
  {
    var c := ch as int;
    if c < 0x80 then [c]
    else if c < 0x800 then [0xC0 + c / 64, 0x80 + c % 64]
    else if c < 0x1_0000 then [0xE0 + c / 4096, 0x80 + c / 64 % 64, 0x80 + c % 64]
    else [0xF0 + c / 262144, 0x80 + c / 4096 % 64, 0x80 + c / 64 % 64, 0x80 + c % 64]
  }

  /** The code point that a sequence of one to four bytes stands for: section 3 of RFC 3629. */
  function CodePoint(r: seq<Byte>): Option<int> {
    if |r| == 1 && r[0] < 0x80 then Some(r[0])
    else if |r| == 2 && 0xC2 <= r[0] < 0xE0 && Continues(r[1]) then Some(0x40 * Past(r[0], 0xC0) + Past(r[1], 0x80))
    else if |r| == 3 && 0xE0 <= r[0] < 0xF0 && Continues(r[1]) && Continues(r[2]) then
      Some(0x1000 * Past(r[0], 0xE0) + 0x40 * Past(r[1], 0x80) + Past(r[2], 0x80))
    else if |r| == 4 && 0xF0 <= r[0] < 0xF5 && Continues(r[1]) && Continues(r[2]) && Continues(r[3]) then
      Some(0x4_0000 * Past(r[0], 0xF0) + 0x1000 * Past(r[1], 0x80) + 0x40 * Past(r[2], 0x80) + Past(r[3], 0x80))
    else None
  }

  function Past(b: Byte, base: int): int {
    b - base
  }

  predicate Continues(b: Byte) {
    0x80 <= b < 0xC0
  }

  /** Every character is encoded as the bytes that stand for it. */
  lemma {:induction false} CharReadsBack(ch: char)
    ensures CodePoint(Utf8Char(ch)) == Some(ch as int)
  {
    SixBits(ch as int);
  }

  lemma {:induction false} SixBits(c: nat)
    ensures c == 0x40 * (c / 64) + c % 64 && c / 64 == 0x40 * (c / 4096) + c / 64 % 64
    ensures c / 4096 == 0x40 * (c / 262144) + c / 4096 % 64
  {
  }

  function Utf8(s: string): seq<Byte> {
    if s == "" then [] else Utf8Char(s[0]) + Utf8(s[1..])
  }

  // ---- The layout of an archive ----

  /** What is recorded of one entry, both before its data and in the central directory. */
  datatype Header = Header(name: seq<Byte>, method_: nat, crc: nat, packed: nat, size: nat, pad: nat, offset: nat)

  function Zeros(n: nat): seq<Byte> {
    seq(n, _ => 0)
  }

  function Payload(c: Codec, e: Entry): seq<Byte> {
    if e.stored then e.data else c.deflate(e.data)
  }

  /** Padding that brings the data of a stored entry to a multiple of four. */
  function Padding(e: Entry, offset: nat): (pad: nat)
    ensures pad < 4
  {
    if e.stored then (4 - (offset + 30 + |Utf8(e.name)|) % 4) % 4 else 0
  }

  function HeaderOf(c: Codec, e: Entry, offset: nat): Header {
    Header(Utf8(e.name), if e.stored then STORED else DEFLATED, c.crc(e.data), |Payload(c, e)|, |e.data|,
           Padding(e, offset), offset)
  }

  function LocalFields(h: Header): (r: seq<nat>)
    ensures |r| == |LOCAL|
  {
    [LOCAL_SIGNATURE, 20, 0, h.method_, 0x21, 0, h.crc, h.packed, h.size, |h.name|, h.pad]
  }

  function CentralFields(h: Header): (r: seq<nat>)
    ensures |r| == |CENTRAL|
  {
    [CENTRAL_SIGNATURE, 20, 20, 0, h.method_, 0x21, 0, h.crc, h.packed, h.size, |h.name|, h.pad, 0, 0, 0, 0, h.offset]
  }

  function EndFields(count: nat, size: nat, offset: nat): (r: seq<nat>)
    ensures |r| == |END|
  {
    [END_SIGNATURE, 0, 0, count, count, size, offset, 0]
  }

  function LocalHeader(h: Header): seq<Byte> {
    Pack(LOCAL, LocalFields(h)) + h.name + Zeros(h.pad)
  }

  function CentralRecord(h: Header): seq<Byte> {
    Pack(CENTRAL, CentralFields(h)) + h.name + Zeros(h.pad)
  }

  function Local(c: Codec, e: Entry, offset: nat): seq<Byte> {
    LocalHeader(HeaderOf(c, e, offset)) + Payload(c, e)
  }

  /** The local entries one after another, each recorded at the offset it has reached. */
  function Locals(c: Codec, entries: seq<Entry>): (r: seq<seq<Byte>>)
    ensures |r| == |entries|
  {
    if entries == [] then []
    else
      var before := Locals(c, entries[..|entries| - 1]);
      before + [Local(c, entries[|entries| - 1], |Concat(before)|)]
  }

  function Headers(c: Codec, entries: seq<Entry>): (r: seq<Header>)
    ensures |r| == |entries|
  {
    if entries == [] then []
    else
      var front := entries[..|entries| - 1];
      Headers(c, front) + [HeaderOf(c, entries[|entries| - 1], |Concat(Locals(c, front))|)]
  }

  function Directory(headers: seq<Header>): (r: seq<seq<Byte>>)
    ensures |r| == |headers|
  {
    if headers == [] then [] else [CentralRecord(headers[0])] + Directory(headers[1..])
  }

  lemma {:induction false} DirectoryMore(headers: seq<Header>, h: Header)
    ensures Directory(headers + [h]) == Directory(headers) + [CentralRecord(h)]
    decreases |headers|
  {
    if headers == [] {
      assert (headers + [h])[1..] == [];
    } else {
      assert (headers + [h])[1..] == headers[1..] + [h];
      DirectoryMore(headers[1..], h);
    }
  }

  function Archive(c: Codec, entries: seq<Entry>): seq<Byte> {
    var blob, directory := Concat(Locals(c, entries)), Concat(Directory(Headers(c, entries)));
    blob + directory + Pack(END, EndFields(|entries|, |directory|, |blob|))
  }

  const LIMIT16: nat := 0x1_0000
  const LIMIT32: nat := 0x1_0000_0000

  /** Lengths are within 16 bits; the checksum, the sizes and the offset within 32. */
  predicate HeaderFits(h: Header) {
    && |h.name| < LIMIT16 && h.pad < LIMIT16 && h.method_ < LIMIT16
    && h.crc < LIMIT32 && h.packed < LIMIT32 && h.size < LIMIT32 && h.offset < LIMIT32
  }

  predicate HeadersFit(headers: seq<Header>) {
    headers == [] || (HeadersFit(headers[..|headers| - 1]) && HeaderFits(headers[|headers| - 1]))
  }

  predicate EndFits(count: nat, size: nat, offset: nat) {
    count < LIMIT16 && size < LIMIT32 && offset < LIMIT32
  }

  /** Every length, offset and count is within its field. */
  predicate Representable(c: Codec, entries: seq<Entry>) {
    && HeadersFit(Headers(c, entries))
    && EndFits(|entries|, |Concat(Directory(Headers(c, entries)))|, |Concat(Locals(c, entries))|)
  }

  // ---- The writer ----

  method WriteAlignedApk(c: Codec, entries: seq<Entry>) returns (r: Result<seq<Byte>>)
    ensures r.Ok? <==> Representable(c, entries)
    ensures r.Ok? ==> r.value == Archive(c, entries)
  {
    var central: seq<seq<Byte>> := [];
    var blob: seq<Byte> := [];
    for k := 0 to |entries|
      invariant Written(c, entries[..k], blob, central)
    {
      var ok, local, record := PackEntry(c, entries[k], |blob|);
      if !ok {
        WrittenMore(c, entries, k, blob, central);
        NotRepresentable(c, entries, k + 1);
        return Err("struct.error");
      }
      WrittenMore(c, entries, k, blob, central);
      blob := blob + local;
      central := central + [record];
    }
    assert entries[..|entries|] == entries;
    var offset := |blob|;
    var directory := Join(central);
    if !EndFits(|entries|, |directory|, offset) {
      return Err("struct.error");
    }
    return Ok(blob + directory + Pack(END, EndFields(|entries|, |directory|, offset)));
  }

  /** One turn of the loop: the local entry and the central record, unless a field does not fit. */
  method PackEntry(c: Codec, e: Entry, offset: nat) returns (ok: bool, local: seq<Byte>, record: seq<Byte>)
    ensures ok == HeaderFits(HeaderOf(c, e, offset))
    ensures ok ==> local == Local(c, e, offset) && record == CentralRecord(HeaderOf(c, e, offset))
  {
    var h := HeaderOf(c, e, offset);
    if !HeaderFits(h) {
      return false, [], [];
    }
    local := LocalHeader(h);
    if e.stored && (offset + |local|) % 4 != 0 {
      StoredIsAligned(c, e, offset);
      assert false;
    }
    return true, local + Payload(c, e), CentralRecord(h);
  }

  method Join(parts: seq<seq<Byte>>) returns (r: seq<Byte>)
    ensures r == Concat(parts)
  {
    r := [];
    for k := 0 to |parts|
      invariant r == Concat(parts[..k])
    {
      assert parts[..k + 1] == parts[..k] + [parts[k]];
      ConcatMore(parts[..k], parts[k]);
      r := r + parts[k];
    }
    assert parts[..|parts|] == parts;
  }

  ghost predicate Written(c: Codec, entries: seq<Entry>, blob: seq<Byte>, central: seq<seq<Byte>>) {
    && blob == Concat(Locals(c, entries)) && HeadersFit(Headers(c, entries))
    && central == Directory(Headers(c, entries))
  }

  lemma {:induction false} NextEntry(c: Codec, entries: seq<Entry>, k: nat)
    requires k < |entries|
    ensures var offset := |Concat(Locals(c, entries[..k]))|;
            && Locals(c, entries[..k + 1]) == Locals(c, entries[..k]) + [Local(c, entries[k], offset)]
            && Headers(c, entries[..k + 1]) == Headers(c, entries[..k]) + [HeaderOf(c, entries[k], offset)]
  {
    assert entries[..k + 1][..k] == entries[..k];
  }

  lemma {:induction false} HeadersFitMore(headers: seq<Header>, h: Header)
    ensures HeadersFit(headers + [h]) <==> HeadersFit(headers) && HeaderFits(h)
  {
    assert (headers + [h])[..|headers|] == headers;
  }

  lemma {:induction false} WrittenMore(c: Codec, entries: seq<Entry>, k: nat, blob: seq<Byte>, central: seq<seq<Byte>>)
    requires k < |entries| && Written(c, entries[..k], blob, central)
    ensures var h := HeaderOf(c, entries[k], |blob|); var record := CentralRecord(h);
            && (HeadersFit(Headers(c, entries[..k + 1])) <==> HeaderFits(h))
            && (HeaderFits(h) ==> Written(c, entries[..k + 1], blob + Local(c, entries[k], |blob|), central + [record]))
  {
    var h := HeaderOf(c, entries[k], |blob|);
    NextEntry(c, entries, k);
    HeadersFitMore(Headers(c, entries[..k]), h);
    DirectoryMore(Headers(c, entries[..k]), h);
    ConcatMore(Locals(c, entries[..k]), Local(c, entries[k], |blob|));
  }

  /** One field that does not fit is enough to refuse the whole archive. */
  lemma {:induction false} NotRepresentable(c: Codec, entries: seq<Entry>, k: nat)
    requires k <= |entries| && !HeadersFit(Headers(c, entries[..k]))
    ensures !Representable(c, entries)
    decreases |entries| - k
  {
    if k == |entries| {
      assert entries[..k] == entries;
    } else {
      NextEntry(c, entries, k);
      HeadersFitMore(Headers(c, entries[..k]), HeaderOf(c, entries[k], |Concat(Locals(c, entries[..k]))|));
      NotRepresentable(c, entries, k + 1);
    }
  }

  lemma {:induction false} Rounded(x: nat)
    ensures (x + (4 - x % 4) % 4) % 4 == 0
  {
  }

  /** The data of a stored entry starts at a multiple of four, so the writer's own check never fails. */
  lemma {:induction false} StoredIsAligned(c: Codec, e: Entry, offset: nat)
    requires e.stored
    ensures (offset + |LocalHeader(HeaderOf(c, e, offset))|) % 4 == 0
  {
    HeaderSizes(HeaderOf(c, e, offset));
    Rounded(offset + 30 + |Utf8(e.name)|);
  }

  lemma {:induction false} LocalWidth()
    ensures Width(LOCAL) == 30
  {
    assert Width([2, 2, 4, 4, 4, 2, 2]) == 20;
  }

  lemma {:induction false} WidthJoin(a: seq<nat>, b: seq<nat>)
    ensures Width(a + b) == Width(a) + Width(b)
  {
    if a == [] {
      assert a + b == b;
    } else {
      WidthJoin(a[1..], b);
      assert (a + b)[1..] == a[1..] + b;
    }
  }

  lemma {:induction false} CentralWidth()
    ensures Width(CENTRAL) == 46
  {
    var first, second, third := [4, 2, 2, 2, 2, 2], [2, 4, 4, 4, 2], [2, 2, 2, 2, 4, 4];
    assert CENTRAL == first + (second + third);
    WidthJoin(first, second + third);
    WidthJoin(second, third);
  }

  lemma {:induction false} EndWidth()
    ensures Width(END) == 22
  {
  }

  lemma {:induction false} HeaderSizes(h: Header)
    ensures |LocalHeader(h)| == 30 + |h.name| + h.pad && |CentralRecord(h)| == 46 + |h.name| + h.pad
  {
    LocalWidth();
    CentralWidth();
    PackSize(LOCAL, LocalFields(h));
    PackSize(CENTRAL, CentralFields(h));
  }

  lemma {:induction false} Powers()
    ensures Pow256(2) == LIMIT16 && Pow256(4) == LIMIT32
  {
    assert Pow256(1) == 256 && Pow256(3) == 0x100_0000;
  }
}
