/** An archive told from its bytes: what stands at each place of a header, and a reading by local headers alone. */
module ZipScan {
  import opened Base
  import opened Packing
  import opened Slices
  import opened Zip
  import opened ZipReader
  import opened ZipRoundTrip

  function Short(blob: seq<Byte>, i: nat): nat
    requires i + 2 <= |blob|
  {
    var low: nat, high: nat := blob[i], blob[i + 1];
    low + 256 * high
  }

  function Long(blob: seq<Byte>, i: nat): nat
    requires i + 4 <= |blob|
  {
    Short(blob, i) + 0x1_0000 * Short(blob, i + 2)
  }

  /** A local entry: its header field by field, and what stands behind it. */
  datatype Part = Part(version: nat, flags: nat, method_: nat, time: nat, date: nat, crc: nat, packed: nat, size: nat,
                       name: seq<Byte>, extra: seq<Byte>, payload: seq<Byte>)

  /** Section 4.3.7 of PKWARE APPNOTE, by offsets. */
  function PartAt(blob: seq<Byte>, i: nat): Option<Part> {
    if i + 30 > |blob| || Long(blob, i) != 0x04034B50 then None
    else
      var packed := Long(blob, i + 18);
      var extra := i + 30 + Short(blob, i + 26);
      var start := extra + Short(blob, i + 28);
      if start + packed > |blob| then None
      else Some(Part(Short(blob, i + 4), Short(blob, i + 6), Short(blob, i + 8), Short(blob, i + 10), Short(blob, i + 12),
                     Long(blob, i + 14), packed, Long(blob, i + 22),
                     blob[i + 30..extra], blob[extra..start], blob[start..start + packed]))
  }

  function SizeOf(p: Part): nat {
    30 + |p.name| + |p.extra| + |p.payload|
  }

  /** The local entries that stand one behind another from a place on, and where they end. */
  function Scan(blob: seq<Byte>, i: nat): (seq<Part>, nat)
    requires i <= |blob|
    decreases |blob| - i
  {
    var part := PartAt(blob, i);
    if part.None? then ([], i)
    else
      var rest := Scan(blob, i + SizeOf(part.value));
      ([part.value] + rest.0, rest.1)
  }

  // ---- What the fields of a packed record are, byte by byte ----

  lemma {:induction false} ShortIsNumber(blob: seq<Byte>, i: nat, v: nat)
    requires At(blob, i, LittleEndian(2, v)) && v < LIMIT16
    ensures i + 2 <= |blob| && Short(blob, i) == v
  {
    Powers();
    var s := blob[i..i + 2];
    NumberReadsBack(2, v);
    assert s[0] == blob[i] && s[1] == blob[i + 1];
    assert Number(s) == s[0] + 256 * Number(s[1..]) && Number(s[1..]) == s[1] + 256 * Number(s[1..][1..]);
  }

  lemma {:induction false} LongIsNumber(blob: seq<Byte>, i: nat, v: nat)
    requires At(blob, i, LittleEndian(4, v)) && v < LIMIT32
    ensures i + 4 <= |blob| && Long(blob, i) == v
  {
    Powers();
    NumberReadsBack(4, v);
    NumberOfFour(blob[i..i + 4]);
  }

  lemma {:induction false} NumberOfFour(s: seq<Byte>)
    requires |s| == 4
    ensures Number(s) == Long(s, 0)
  {
    assert Number(s) == s[0] + 256 * Number(s[1..]);
    assert Number(s[1..]) == s[1] + 256 * Number(s[1..][1..]);
    assert s[1..][1..] == s[2..] && s[2..][1..] == s[3..] && s[3..][1..] == [];
    assert Number(s[2..]) == s[2] + 256 * Number(s[3..]);
    assert Number(s[3..]) == s[3] + 256 * Number([]);
  }

  /** Each field of a packed record stands behind the widths of those before it. */
  lemma {:induction false} FieldAt(blob: seq<Byte>, i: nat, widths: seq<nat>, values: seq<nat>, k: nat, at: nat)
    requires |widths| == |values| && k < |values| && At(blob, i, Pack(widths, values)) && at == i + Width(widths[..k])
    ensures At(blob, at, LittleEndian(widths[k], values[k]))
    decreases k
  {
    var head, tail := LittleEndian(widths[0], values[0]), Pack(widths[1..], values[1..]);
    AtSplit(blob, i, head, tail);
    if k > 0 {
      assert widths[..k][1..] == widths[1..][..k - 1];
      FieldAt(blob, i + widths[0], widths[1..], values[1..], k - 1, at);
    }
  }

  lemma {:induction false} ShortField(blob: seq<Byte>, i: nat, widths: seq<nat>, values: seq<nat>, k: nat, at: nat)
    requires |widths| == |values| && k < |values| && At(blob, i, Pack(widths, values)) && at == i + Width(widths[..k])
    requires widths[k] == 2 && values[k] < LIMIT16
    ensures at + 2 <= |blob| && Short(blob, at) == values[k]
  {
    FieldAt(blob, i, widths, values, k, at);
    ShortIsNumber(blob, at, values[k]);
  }

  lemma {:induction false} LongField(blob: seq<Byte>, i: nat, widths: seq<nat>, values: seq<nat>, k: nat, at: nat)
    requires |widths| == |values| && k < |values| && At(blob, i, Pack(widths, values)) && at == i + Width(widths[..k])
    requires widths[k] == 4 && values[k] < LIMIT32
    ensures at + 4 <= |blob| && Long(blob, at) == values[k]
  {
    FieldAt(blob, i, widths, values, k, at);
    LongIsNumber(blob, at, values[k]);
  }

  lemma {:induction false} PackFirst(w: nat, widths: seq<nat>, v: nat, values: seq<nat>)
    requires |widths| == |values|
    ensures Pack([w] + widths, [v] + values) == LittleEndian(w, v) + Pack(widths, values)
  {
    assert ([w] + widths)[1..] == widths && ([v] + values)[1..] == values;
  }

  lemma {:induction false} PackJoin(a: seq<nat>, b: seq<nat>, va: seq<nat>, vb: seq<nat>)
    requires |a| == |va| && |b| == |vb|
    ensures Pack(a + b, va + vb) == Pack(a, va) + Pack(b, vb) && |Pack(a, va)| == Width(a)
    decreases |a|
  {
    PackSize(a, va);
    if a == [] {
      assert a + b == b && va + vb == vb;
    } else {
      PackJoin(a[1..], b, va[1..], vb);
      PackFirst(a[0], a[1..] + b, va[0], va[1..] + vb);
      assert [a[0]] + (a[1..] + b) == a + b && [va[0]] + (va[1..] + vb) == va + vb;
      Regroup(LittleEndian(a[0], va[0]), Pack(a[1..], va[1..]), Pack(b, vb));
    }
  }

  /** The method, the clock fields and what stands before them, in the local header. */
  const LOCAL_FRONT: seq<nat> := [4, 2, 2, 2, 2, 2]

  /** The checksum, the two sizes and the two lengths, in both headers. */
  const SIZES: seq<nat> := [4, 4, 4, 2, 2]

  const CENTRAL_FRONT: seq<nat> := [4, 2, 2, 2, 2, 2, 2]
  const CENTRAL_BACK: seq<nat> := [2, 2, 2, 4, 4]

  lemma {:induction false} WidthMore(widths: seq<nat>, k: nat)
    requires k < |widths|
    ensures Width(widths[..k + 1]) == Width(widths[..k]) + widths[k]
  {
    assert widths[..k + 1] == widths[..k] + [widths[k]];
    WidthJoin(widths[..k], [widths[k]]);
  }

  lemma {:induction false} Places(widths: seq<nat>)
    requires |widths| >= 4
    ensures Width(widths[..0]) == 0 && Width(widths[..1]) == widths[0] && Width(widths[..2]) == widths[0] + widths[1]
    ensures Width(widths[..3]) == widths[0] + widths[1] + widths[2]
    ensures Width(widths[..4]) == widths[0] + widths[1] + widths[2] + widths[3]
  {
    assert widths[..0] == [];
    WidthMore(widths, 0);
    WidthMore(widths, 1);
    WidthMore(widths, 2);
    WidthMore(widths, 3);
  }

  lemma {:induction false} FrontFields(blob: seq<Byte>, i: nat, values: seq<nat>)
    requires |values| == 6 && At(blob, i, Pack(LOCAL_FRONT, values)) && values[0] < LIMIT32
    requires forall k :: 1 <= k < 6 ==> values[k] < LIMIT16
    ensures i + 14 <= |blob| && Long(blob, i) == values[0] && Short(blob, i + 4) == values[1] && Short(blob, i + 6) == values[2]
    ensures Short(blob, i + 8) == values[3] && Short(blob, i + 10) == values[4] && Short(blob, i + 12) == values[5]
  {
    Places(LOCAL_FRONT);
    WidthMore(LOCAL_FRONT, 4);
    LongField(blob, i, LOCAL_FRONT, values, 0, i);
    ShortField(blob, i, LOCAL_FRONT, values, 1, i + 4);
    ShortField(blob, i, LOCAL_FRONT, values, 2, i + 6);
    ShortField(blob, i, LOCAL_FRONT, values, 3, i + 8);
    ShortField(blob, i, LOCAL_FRONT, values, 4, i + 10);
    ShortField(blob, i, LOCAL_FRONT, values, 5, i + 12);
  }

  lemma {:induction false} SizeFields(blob: seq<Byte>, i: nat, values: seq<nat>)
    requires |values| == 5 && At(blob, i, Pack(SIZES, values))
    requires values[0] < LIMIT32 && values[1] < LIMIT32 && values[2] < LIMIT32 && values[3] < LIMIT16 && values[4] < LIMIT16
    ensures i + 16 <= |blob| && Long(blob, i) == values[0] && Long(blob, i + 4) == values[1] && Long(blob, i + 8) == values[2]
    ensures Short(blob, i + 12) == values[3] && Short(blob, i + 14) == values[4]
  {
    Places(SIZES);
    LongField(blob, i, SIZES, values, 0, i);
    LongField(blob, i, SIZES, values, 1, i + 4);
    LongField(blob, i, SIZES, values, 2, i + 8);
    ShortField(blob, i, SIZES, values, 3, i + 12);
    ShortField(blob, i, SIZES, values, 4, i + 14);
  }

  lemma {:induction false} LocalHalves(h: Header) returns (front: seq<nat>, sizes: seq<nat>)
    ensures front == [0x04034B50, 20, 0, h.method_, 33, 0] && sizes == [h.crc, h.packed, h.size, |h.name|, h.pad]
    ensures Pack(LOCAL, LocalFields(h)) == Pack(LOCAL_FRONT, front) + Pack(SIZES, sizes)
    ensures |Pack(LOCAL_FRONT, front)| == 14
  {
    front, sizes := [0x04034B50, 20, 0, h.method_, 33, 0], [h.crc, h.packed, h.size, |h.name|, h.pad];
    assert LOCAL == LOCAL_FRONT + SIZES;
    assert LocalFields(h) == front + sizes;
    PackJoin(LOCAL_FRONT, SIZES, front, sizes);
  }

  lemma {:induction false} CentralThirds(h: Header) returns (front: seq<nat>, sizes: seq<nat>, back: seq<nat>)
    ensures front == [0x02014B50, 20, 20, 0, h.method_, 33, 0] && sizes == [h.crc, h.packed, h.size, |h.name|, h.pad]
    ensures back == [0, 0, 0, 0, h.offset]
    ensures Pack(CENTRAL, CentralFields(h)) == Pack(CENTRAL_FRONT, front) + (Pack(SIZES, sizes) + Pack(CENTRAL_BACK, back))
    ensures |Pack(CENTRAL_FRONT, front)| == 16 && |Pack(SIZES, sizes)| == 16
  {
    front, sizes, back := [0x02014B50, 20, 20, 0, h.method_, 33, 0], [h.crc, h.packed, h.size, |h.name|, h.pad], [0, 0, 0, 0, h.offset];
    assert CENTRAL == CENTRAL_FRONT + (SIZES + CENTRAL_BACK);
    assert CentralFields(h) == front + (sizes + back);
    PackJoin(CENTRAL_FRONT, SIZES + CENTRAL_BACK, front, sizes + back);
    PackJoin(SIZES, CENTRAL_BACK, sizes, back);
  }

  lemma {:induction false} CentralFrontFields(blob: seq<Byte>, i: nat, values: seq<nat>)
    requires |values| == 7 && At(blob, i, Pack(CENTRAL_FRONT, values)) && values[0] < LIMIT32
    requires forall k :: 1 <= k < 7 ==> values[k] < LIMIT16
    ensures i + 16 <= |blob| && Long(blob, i) == values[0] && Short(blob, i + 4) == values[1] && Short(blob, i + 6) == values[2]
    ensures Short(blob, i + 8) == values[3] && Short(blob, i + 10) == values[4] && Short(blob, i + 12) == values[5]
    ensures Short(blob, i + 14) == values[6]
  {
    Places(CENTRAL_FRONT);
    WidthMore(CENTRAL_FRONT, 4);
    WidthMore(CENTRAL_FRONT, 5);
    LongField(blob, i, CENTRAL_FRONT, values, 0, i);
    ShortField(blob, i, CENTRAL_FRONT, values, 1, i + 4);
    ShortField(blob, i, CENTRAL_FRONT, values, 2, i + 6);
    ShortField(blob, i, CENTRAL_FRONT, values, 3, i + 8);
    ShortField(blob, i, CENTRAL_FRONT, values, 4, i + 10);
    ShortField(blob, i, CENTRAL_FRONT, values, 5, i + 12);
    ShortField(blob, i, CENTRAL_FRONT, values, 6, i + 14);
  }

  lemma {:induction false} CentralBackFields(blob: seq<Byte>, i: nat, values: seq<nat>)
    requires |values| == 5 && At(blob, i, Pack(CENTRAL_BACK, values)) && values[3] < LIMIT32 && values[4] < LIMIT32
    requires forall k :: 0 <= k < 3 ==> values[k] < LIMIT16
    ensures i + 14 <= |blob| && Short(blob, i) == values[0] && Short(blob, i + 2) == values[1] && Short(blob, i + 4) == values[2]
    ensures Long(blob, i + 6) == values[3] && Long(blob, i + 10) == values[4]
  {
    Places(CENTRAL_BACK);
    ShortField(blob, i, CENTRAL_BACK, values, 0, i);
    ShortField(blob, i, CENTRAL_BACK, values, 1, i + 2);
    ShortField(blob, i, CENTRAL_BACK, values, 2, i + 4);
    LongField(blob, i, CENTRAL_BACK, values, 3, i + 6);
    LongField(blob, i, CENTRAL_BACK, values, 4, i + 10);
  }

  /** Section 4.3.12 of PKWARE APPNOTE, by offsets. */
  lemma {:induction false} CentralBytes(blob: seq<Byte>, i: nat, h: Header)
    requires HeaderFits(h) && At(blob, i, Pack(CENTRAL, CentralFields(h)))
    ensures i + 46 <= |blob| && Long(blob, i) == 0x02014B50 && Short(blob, i + 4) == 20 && Short(blob, i + 6) == 20
    ensures Short(blob, i + 8) == 0 && Short(blob, i + 10) == h.method_ && Short(blob, i + 12) == 0x21 && Short(blob, i + 14) == 0
    ensures Long(blob, i + 16) == h.crc && Long(blob, i + 20) == h.packed && Long(blob, i + 24) == h.size
    ensures Short(blob, i + 28) == |h.name| && Short(blob, i + 30) == h.pad && Short(blob, i + 32) == 0
    ensures Short(blob, i + 34) == 0 && Short(blob, i + 36) == 0 && Long(blob, i + 38) == 0 && Long(blob, i + 42) == h.offset
  {
    var front, sizes, back := CentralThirds(h);
    AtSplit(blob, i, Pack(CENTRAL_FRONT, front), Pack(SIZES, sizes) + Pack(CENTRAL_BACK, back));
    AtSplit(blob, i + 16, Pack(SIZES, sizes), Pack(CENTRAL_BACK, back));
    CentralFrontFields(blob, i, front);
    SizeFields(blob, i + 16, sizes);
    CentralBackFields(blob, i + 32, back);
  }

  /** Section 4.3.16 of PKWARE APPNOTE, by offsets. */
  lemma {:induction false} EndBytes(blob: seq<Byte>, i: nat, count: nat, size: nat, offset: nat)
    requires EndFits(count, size, offset) && At(blob, i, Pack(END, EndFields(count, size, offset)))
    ensures i + 22 <= |blob| && Long(blob, i) == 0x06054B50 && Short(blob, i + 4) == 0 && Short(blob, i + 6) == 0
    ensures Short(blob, i + 8) == count && Short(blob, i + 10) == count && Long(blob, i + 12) == size
    ensures Long(blob, i + 16) == offset && Short(blob, i + 20) == 0
  {
    var values := EndFields(count, size, offset);
    Places(END);
    WidthMore(END, 4);
    WidthMore(END, 5);
    WidthMore(END, 6);
    LongField(blob, i, END, values, 0, i);
    ShortField(blob, i, END, values, 1, i + 4);
    ShortField(blob, i, END, values, 2, i + 6);
    ShortField(blob, i, END, values, 3, i + 8);
    ShortField(blob, i, END, values, 4, i + 10);
    LongField(blob, i, END, values, 5, i + 12);
    LongField(blob, i, END, values, 6, i + 16);
    ShortField(blob, i, END, values, 7, i + 20);
  }

  // ---- A written archive, told by its local headers alone ----

  /** The local entry says of itself what was to be written, and its data follow. */
  ghost predicate Tells(c: Codec, e: Entry, p: Part) {
    && p.version == 20 && p.flags == 0 && p.method_ == (if e.stored then 0 else 8) && p.time == 0x21 && p.date == 0
    && p.crc == c.crc(e.data) && p.packed == |p.payload| && p.size == |e.data| && p.name == Utf8(e.name)
    && |p.extra| < 4 && (forall k :: 0 <= k < |p.extra| ==> p.extra[k] == 0)
    && p.payload == if e.stored then e.data else c.deflate(e.data)
  }

  lemma {:induction false} HeaderBytes(blob: seq<Byte>, i: nat, h: Header)
    requires HeaderFits(h) && At(blob, i, Pack(LOCAL, LocalFields(h)))
    ensures i + 30 <= |blob| && Long(blob, i) == 0x04034B50 && Short(blob, i + 4) == 20 && Short(blob, i + 6) == 0
    ensures Short(blob, i + 8) == h.method_ && Short(blob, i + 10) == 0x21 && Short(blob, i + 12) == 0
    ensures Long(blob, i + 14) == h.crc && Long(blob, i + 18) == h.packed && Long(blob, i + 22) == h.size
    ensures Short(blob, i + 26) == |h.name| && Short(blob, i + 28) == h.pad
  {
    var front, sizes := LocalHalves(h);
    AtSplit(blob, i, Pack(LOCAL_FRONT, front), Pack(SIZES, sizes));
    FrontFields(blob, i, front);
    SizeFields(blob, i + 14, sizes);
  }

  lemma {:induction false} PartFromBytes(blob: seq<Byte>, i: nat, h: Header, payload: seq<Byte>, extra: nat, start: nat)
    requires HeaderFits(h) && h.packed == |payload| && extra == i + 30 + |h.name| && start == extra + h.pad
    requires At(blob, i, Pack(LOCAL, LocalFields(h))) && At(blob, i + 30, h.name) && At(blob, extra, Zeros(h.pad)) && At(blob, start, payload)
    ensures PartAt(blob, i) == Some(Part(20, 0, h.method_, 0x21, 0, h.crc, h.packed, h.size, h.name, Zeros(h.pad), payload))
  {
    HeaderBytes(blob, i, h);
  }

  lemma {:induction false} PartTells(c: Codec, e: Entry, offset: nat)
    ensures var h := HeaderOf(c, e, offset);
      Tells(c, e, Part(20, 0, h.method_, 0x21, 0, h.crc, h.packed, h.size, h.name, Zeros(h.pad), Payload(c, e)))
  {
  }

  lemma {:induction false} PartIsRead(c: Codec, blob: seq<Byte>, e: Entry, offset: nat)
    requires HeaderFits(HeaderOf(c, e, offset)) && At(blob, offset, Local(c, e, offset))
    ensures PartAt(blob, offset).Some? && Tells(c, e, PartAt(blob, offset).value)
    ensures SizeOf(PartAt(blob, offset).value) == |Local(c, e, offset)|
  {
    var h := HeaderOf(c, e, offset);
    var start := LocalParts(blob, h, Payload(c, e), offset);
    AtSplit(blob, offset, LocalHeader(h), Payload(c, e));
    PaddingAt(blob, h, offset, offset + 30 + |h.name|);
    PartFromBytes(blob, offset, h, Payload(c, e), offset + 30 + |h.name|, start);
    PartTells(c, e, offset);
  }

  lemma {:induction false} PaddingAt(blob: seq<Byte>, h: Header, offset: nat, extra: nat)
    requires At(blob, offset, LocalHeader(h)) && extra == offset + 30 + |h.name|
    ensures At(blob, extra, Zeros(h.pad))
  {
    LocalWidth();
    PackSize(LOCAL, LocalFields(h));
    AtSplit(blob, offset, Pack(LOCAL, LocalFields(h)) + h.name, Zeros(h.pad));
  }

  lemma {:induction false} ScanStep(blob: seq<Byte>, i: nat, next: nat)
    requires i <= |blob| && PartAt(blob, i).Some? && next == i + SizeOf(PartAt(blob, i).value)
    ensures next <= |blob| && Scan(blob, i) == ([PartAt(blob, i).value] + Scan(blob, next).0, Scan(blob, next).1)
  {
  }

  /** Neither a directory record nor the end record begins as a local entry does. */
  lemma {:induction false} DirectoryIsNoPart(c: Codec, blob: seq<Byte>, entries: seq<Entry>, i: nat)
    requires blob == Archive(c, entries) && Representable(c, entries) && i == |Concat(Locals(c, entries))|
    ensures i <= |blob| && PartAt(blob, i).None?
  {
    var headers := Headers(c, entries);
    var directory := Concat(Directory(headers));
    ArchiveParts(c, entries, i, directory);
    if entries == [] {
      EndBytes(blob, i, 0, 0, i);
    } else {
      EachHeaderFits(headers, 0);
      AtSplit(blob, i, CentralRecord(headers[0]), Concat(Directory(headers[1..])));
      CentralParts(blob, i, headers[0]);
      CentralBytes(blob, i, headers[0]);
    }
  }

  lemma {:induction false} OffsetMoves(c: Codec, entries: seq<Entry>, k: nat, offset: nat)
    requires k < |entries| && offset == |Concat(Locals(c, entries[..k]))|
    ensures |Concat(Locals(c, entries[..k + 1]))| == offset + |Local(c, entries[k], offset)|
  {
    NextEntry(c, entries, k);
    ConcatMore(Locals(c, entries[..k]), Local(c, entries[k], offset));
  }

  ghost predicate TellAll(c: Codec, entries: seq<Entry>, parts: seq<Part>) {
    |parts| == |entries| && forall k :: 0 <= k < |parts| ==> Tells(c, entries[k], parts[k])
  }

  lemma {:induction false} TellMore(c: Codec, entries: seq<Entry>, k: nat, p: Part, parts: seq<Part>)
    requires k < |entries| && Tells(c, entries[k], p) && TellAll(c, entries[k + 1..], parts)
    ensures TellAll(c, entries[k..], [p] + parts)
  {
    assert entries[k..] == [entries[k]] + entries[k + 1..];
  }

  lemma {:induction false} ScansFrom(c: Codec, blob: seq<Byte>, entries: seq<Entry>, k: nat, i: nat)
    requires blob == Archive(c, entries) && Representable(c, entries)
    requires k <= |entries| && i == |Concat(Locals(c, entries[..k]))|
    ensures i <= |blob| && TellAll(c, entries[k..], Scan(blob, i).0) && Scan(blob, i).1 == |Concat(Locals(c, entries))|
    decreases |entries| - k
  {
    if k == |entries| {
      assert entries[..k] == entries;
      DirectoryIsNoPart(c, blob, entries, i);
    } else {
      EntryIsPart(c, blob, entries, k, i);
      var p := PartAt(blob, i).value;
      var next := i + SizeOf(p);
      OffsetMoves(c, entries, k, i);
      ScanStep(blob, i, next);
      ScansFrom(c, blob, entries, k + 1, next);
      TellMore(c, entries, k, p, Scan(blob, next).0);
    }
  }

  lemma {:induction false} EntryIsPart(c: Codec, blob: seq<Byte>, entries: seq<Entry>, k: nat, offset: nat)
    requires blob == Archive(c, entries) && Representable(c, entries)
    requires k < |entries| && offset == |Concat(Locals(c, entries[..k]))|
    ensures Headers(c, entries)[k] == HeaderOf(c, entries[k], offset)
    ensures PartAt(blob, offset).Some? && Tells(c, entries[k], PartAt(blob, offset).value)
    ensures SizeOf(PartAt(blob, offset).value) == |Local(c, entries[k], offset)|
    ensures offset <= |blob|
  {
    ArchiveParts(c, entries, |Concat(Locals(c, entries))|, Concat(Directory(Headers(c, entries))));
    LocalInBlob(c, blob, entries, k, offset);
    EachEntry(c, entries, k, offset);
    EachHeaderFits(Headers(c, entries), k);
    PartIsRead(c, blob, entries[k], offset);
  }

  /**
   * Reading a written archive front to back by its local headers alone gives every entry in order: its
   * name, method, checksum, sizes and data; and it ends exactly where the end record says that the
   * directory begins.
   */
  lemma {:induction false} ReadsFrontToBack(c: Codec, entries: seq<Entry>)
    requires Representable(c, entries)
    ensures var blob := Archive(c, entries);
      && TellAll(c, entries, Scan(blob, 0).0)
      && |blob| >= 22 && Scan(blob, 0).1 == Long(blob, |blob| - 6)
      && Short(blob, |blob| - 12) == |entries| && Long(blob, |blob| - 6) + Long(blob, |blob| - 10) == |blob| - 22
  {
    assert entries[..0] == [] && entries[0..] == entries;
    ScansFrom(c, Archive(c, entries), entries, 0, 0);
    var body, directory := Concat(Locals(c, entries)), Concat(Directory(Headers(c, entries)));
    EndTells(Archive(c, entries), body, directory, Pack(END, EndFields(|entries|, |directory|, |body|)), |entries|);
  }

  lemma {:induction false} EndTells(blob: seq<Byte>, body: seq<Byte>, directory: seq<Byte>, record: seq<Byte>, count: nat)
    requires EndFits(count, |directory|, |body|) && record == Pack(END, EndFields(count, |directory|, |body|))
    requires blob == body + directory + record
    ensures EndIs(blob, count, |directory|, |body|)
  {
    EndWidth();
    PackSize(END, EndFields(count, |directory|, |body|));
    ThreeParts(body, directory, record);
    LastRecord(blob, |body| + |directory|, count, |directory|, |body|);
  }

  ghost predicate EndIs(blob: seq<Byte>, count: nat, size: nat, offset: nat) {
    && |blob| == offset + size + 22 && Short(blob, |blob| - 12) == count
    && Long(blob, |blob| - 10) == size && Long(blob, |blob| - 6) == offset
  }

  lemma {:induction false} LastRecord(blob: seq<Byte>, end: nat, count: nat, size: nat, offset: nat)
    requires EndFits(count, size, offset) && end == offset + size && |blob| == end + 22
    requires At(blob, end, Pack(END, EndFields(count, size, offset)))
    ensures EndIs(blob, count, size, offset)
  {
    EndBytes(blob, end, count, size, offset);
    assert |blob| - 12 == end + 10 && |blob| - 10 == end + 12 && |blob| - 6 == end + 16;
  }

  /** The local header at the offset of each directory record says what the record says, and so does the name. */
  lemma {:induction false} HeadersAgree(c: Codec, page: Byte -> char, entries: seq<Entry>, k: nat)
    requires Representable(c, entries) && k < |entries|
    ensures var infos := InfoList(page, Archive(c, entries));
      && infos.Some? && |infos.value| == |entries|
      && var info := infos.value[k];
         && info.offset >= 0 && PartAt(Archive(c, entries), info.offset).Some?
         && var p := PartAt(Archive(c, entries), info.offset).value;
            && Tells(c, entries[k], p)
            && (p.method_, p.crc, p.packed, p.size, |p.extra|) == (info.method_, info.crc, info.packed, info.size, info.extra)
            && Decoded(page, p.name) == info.raw
  {
    var offset := |Concat(Locals(c, entries[..k]))|;
    DirectoryReadsBack(c, page, entries);
    EntryIsPart(c, Archive(c, entries), entries, k, offset);
    PaddingIsKept(c, Archive(c, entries), entries, k, offset);
  }

  lemma {:induction false} PaddingIsKept(c: Codec, blob: seq<Byte>, entries: seq<Entry>, k: nat, offset: nat)
    requires blob == Archive(c, entries) && Representable(c, entries)
    requires k < |entries| && offset == |Concat(Locals(c, entries[..k]))|
    ensures PartAt(blob, offset).Some? && |PartAt(blob, offset).value.extra| == HeaderOf(c, entries[k], offset).pad
  {
    EntryIsPart(c, blob, entries, k, offset);
    HeaderSizes(HeaderOf(c, entries[k], offset));
  }
}
