/** An archive that the writer made is read back as what went into it. */
module ZipRoundTrip {
  import opened Base
  import opened Packing
  import opened Slices
  import opened Zip
  import opened ZipReader

  // ---- Records ----

  lemma {:induction false} HeaderFieldsFit(h: Header)
    requires HeaderFits(h)
    ensures Fits(LOCAL, LocalFields(h)) && Fits(CENTRAL, CentralFields(h))
  {
    Powers();
  }

  lemma {:induction false} UnpacksAt(blob: seq<Byte>, i: nat, widths: seq<nat>, values: seq<nat>, size: nat)
    requires |widths| == |values| && Fits(widths, values) && size == Width(widths)
    requires At(blob, i, Pack(widths, values))
    ensures i + size <= |blob| && Unpack(widths, blob[i..i + size]) == values
  {
    PackSize(widths, values);
    RecordReadsBack(widths, values);
  }

  function InfoOf(page: Byte -> char, h: Header): Info {
    Info(Decoded(page, h.name), h.method_, h.crc, h.packed, h.size, h.pad, h.offset)
  }

  lemma {:induction false} CentralParts(blob: seq<Byte>, i: nat, h: Header)
    requires At(blob, i, CentralRecord(h))
    ensures At(blob, i, Pack(CENTRAL, CentralFields(h))) && At(blob, i + 46, h.name)
  {
    CentralWidth();
    var fields := Pack(CENTRAL, CentralFields(h));
    PackSize(CENTRAL, CentralFields(h));
    AtSplit(blob, i, fields + h.name, Zeros(h.pad));
    AtSplit(blob, i, fields, h.name);
  }

  lemma {:induction false} InfoFromFields(page: Byte -> char, blob: seq<Byte>, i: nat, h: Header, name: seq<Byte>)
    requires i + 46 <= |blob| && Unpack(CENTRAL, blob[i..i + 46]) == CentralFields(h)
    requires name == h.name && At(blob, i + 46, name)
    ensures InfoAt(page, blob, i, 0) == Some(Located(InfoOf(page, h), i + 46 + |name| + h.pad))
  {
  }

  lemma {:induction false} CentralFieldsRead(blob: seq<Byte>, i: nat, h: Header)
    requires HeaderFits(h) && At(blob, i, Pack(CENTRAL, CentralFields(h)))
    ensures i + 46 <= |blob| && Unpack(CENTRAL, blob[i..i + 46]) == CentralFields(h)
  {
    HeaderFieldsFit(h);
    CentralWidth();
    UnpacksAt(blob, i, CENTRAL, CentralFields(h), 46);
  }

  lemma {:induction false} CentralIsRead(page: Byte -> char, blob: seq<Byte>, i: nat, h: Header, size: nat)
    requires HeaderFits(h) && At(blob, i, CentralRecord(h)) && size == 46 + |h.name| + h.pad
    ensures InfoAt(page, blob, i, 0) == Some(Located(InfoOf(page, h), i + size))
  {
    CentralParts(blob, i, h);
    CentralFieldsRead(blob, i, h);
    InfoFromFields(page, blob, i, h, h.name);
  }

  /** Where the parts of a local entry stand. */
  lemma {:induction false} HeaderParts(blob: seq<Byte>, h: Header, offset: nat)
    requires At(blob, offset, LocalHeader(h))
    ensures At(blob, offset, Pack(LOCAL, LocalFields(h))) && At(blob, offset + 30, h.name)
  {
    var fields := Pack(LOCAL, LocalFields(h));
    LocalWidth();
    PackSize(LOCAL, LocalFields(h));
    AtSplit(blob, offset, fields + h.name, Zeros(h.pad));
    AtSplit(blob, offset, fields, h.name);
  }

  lemma {:induction false} LocalParts(blob: seq<Byte>, h: Header, payload: seq<Byte>, offset: nat) returns (start: nat)
    requires At(blob, offset, LocalHeader(h) + payload)
    ensures At(blob, offset, Pack(LOCAL, LocalFields(h))) && At(blob, offset + 30, h.name)
    ensures At(blob, start, payload) && start == offset + |LocalHeader(h)| && start == offset + 30 + |h.name| + h.pad
  {
    start := offset + |LocalHeader(h)|;
    HeaderSizes(h);
    AtSplit(blob, offset, LocalHeader(h), payload);
    HeaderParts(blob, h, offset);
  }

  lemma {:induction false} PayloadUnpacks(c: Codec, page: Byte -> char, e: Entry, offset: nat)
    requires Lawful(c)
    ensures Unpacked(c, InfoOf(page, HeaderOf(c, e, offset)), Payload(c, e)) == Some(e.data)
  {
    assert c.inflate(c.deflate(e.data)) == Some(e.data);
  }

  lemma {:induction false} DataFromFields(c: Codec, page: Byte -> char, blob: seq<Byte>, info: Info, h: Header, payload: seq<Byte>,
                                          offset: nat, start: nat)
    requires info == InfoOf(page, h) && h.packed == |payload| && offset == h.offset && offset + 30 <= |blob|
    requires Unpack(LOCAL, blob[offset..offset + 30]) == LocalFields(h)
    requires start == offset + 30 + |h.name| + h.pad && At(blob, offset + 30, h.name) && At(blob, start, payload)
    ensures DataOf(c, page, blob, info) == Unpacked(c, info, payload)
  {
  }

  lemma {:induction false} LocalFieldsRead(blob: seq<Byte>, offset: nat, h: Header)
    requires HeaderFits(h) && At(blob, offset, Pack(LOCAL, LocalFields(h)))
    ensures offset + 30 <= |blob| && Unpack(LOCAL, blob[offset..offset + 30]) == LocalFields(h)
  {
    HeaderFieldsFit(h);
    LocalWidth();
    UnpacksAt(blob, offset, LOCAL, LocalFields(h), 30);
  }

  lemma {:induction false} LocalIsRead(c: Codec, page: Byte -> char, blob: seq<Byte>, e: Entry, offset: nat)
    requires Lawful(c) && HeaderFits(HeaderOf(c, e, offset)) && At(blob, offset, Local(c, e, offset))
    ensures DataOf(c, page, blob, InfoOf(page, HeaderOf(c, e, offset))) == Some(e.data)
  {
    var h := HeaderOf(c, e, offset);
    var start := LocalParts(blob, h, Payload(c, e), offset);
    LocalFieldsRead(blob, offset, h);
    DataFromFields(c, page, blob, InfoOf(page, h), h, Payload(c, e), offset, start);
    PayloadUnpacks(c, page, e, offset);
  }

  // ---- The whole archive ----

  lemma {:induction false} FirstLocals(c: Codec, entries: seq<Entry>, k: nat)
    requires k <= |entries|
    ensures Locals(c, entries)[..k] == Locals(c, entries[..k])
    decreases |entries|
  {
    var n := |entries|;
    if k < n {
      FirstLocals(c, entries[..n - 1], k);
      assert entries[..n - 1][..k] == entries[..k];
    } else {
      assert entries[..k] == entries;
    }
  }

  /** Each entry is laid out at the offset that its header records: the length of all before it. */
  lemma {:induction false} EachEntry(c: Codec, entries: seq<Entry>, k: nat, offset: nat)
    requires k < |entries| && offset == |Concat(Locals(c, entries[..k]))|
    ensures Locals(c, entries)[k] == Local(c, entries[k], offset)
    ensures Headers(c, entries)[k] == HeaderOf(c, entries[k], offset)
    decreases |entries|
  {
    var front := entries[..|entries| - 1];
    if k < |front| {
      assert front[..k] == entries[..k];
      EachEntry(c, front, k, offset);
    }
  }

  lemma {:induction false} LocalInBlob(c: Codec, blob: seq<Byte>, entries: seq<Entry>, k: nat, offset: nat)
    requires k < |entries| && offset == |Concat(Locals(c, entries[..k]))| && At(blob, 0, Concat(Locals(c, entries)))
    ensures At(blob, offset, Local(c, entries[k], offset))
  {
    EachEntry(c, entries, k, offset);
    FirstLocals(c, entries, k);
    ConcatAt(Locals(c, entries), k);
    AtWithin(blob, 0, Concat(Locals(c, entries)), offset, Locals(c, entries)[k]);
  }

  lemma {:induction false} EachHeaderFits(headers: seq<Header>, k: nat)
    requires HeadersFit(headers) && k < |headers|
    ensures HeaderFits(headers[k])
    decreases |headers|
  {
    if k < |headers| - 1 { EachHeaderFits(headers[..|headers| - 1], k); }
  }

  function InfosOf(page: Byte -> char, headers: seq<Header>): (r: seq<Info>)
    ensures |r| == |headers| && forall k :: 0 <= k < |r| ==> r[k] == InfoOf(page, headers[k])
  {
    if headers == [] then [] else [InfoOf(page, headers[0])] + InfosOf(page, headers[1..])
  }

  /** Wherever the part stands in the blob, the record is read from it and nothing else. */
  ghost predicate Reads(records: Records, blob: seq<Byte>, part: seq<Byte>, info: Info) {
    part != [] && forall i: nat :: At(blob, i, part) ==> records(i) == Some(Located(info, i + |part|))
  }

  lemma {:induction false} InfosStep(records: Records, i: nat, next: nat, end: nat, info: Info, rest: seq<Info>)
    requires i < next && i < end && records(i) == Some(Located(info, next)) && Infos(records, next, end) == Some(rest)
    ensures Infos(records, i, end) == Some([info] + rest)
  {
  }

  lemma {:induction false} FirstReads(records: Records, blob: seq<Byte>, i: nat, part: seq<Byte>, info: Info, next: nat)
    requires Reads(records, blob, part, info) && At(blob, i, part) && next == i + |part|
    ensures i < next && records(i) == Some(Located(info, next))
  {
  }

  lemma {:induction false} OthersRead(records: Records, blob: seq<Byte>, parts: seq<seq<Byte>>, infos: seq<Info>)
    requires |parts| == |infos| > 0 && forall k :: 0 <= k < |parts| ==> Reads(records, blob, parts[k], infos[k])
    ensures forall k :: 0 <= k < |parts| - 1 ==> Reads(records, blob, parts[1..][k], infos[1..][k])
  {
    forall k | 0 <= k < |parts| - 1 ensures Reads(records, blob, parts[1..][k], infos[1..][k]) {
      assert parts[1..][k] == parts[k + 1] && infos[1..][k] == infos[k + 1];
    }
  }

  lemma {:induction false} AllAreListed(records: Records, blob: seq<Byte>, i: nat, parts: seq<seq<Byte>>, infos: seq<Info>, end: nat)
    requires |parts| == |infos| && forall k :: 0 <= k < |parts| ==> Reads(records, blob, parts[k], infos[k])
    requires At(blob, i, Concat(parts)) && end == i + |Concat(parts)|
    ensures Infos(records, i, end) == Some(infos)
    decreases |parts|
  {
    if parts != [] {
      var next := i + |parts[0]|;
      AtSplit(blob, i, parts[0], Concat(parts[1..]));
      FirstReads(records, blob, i, parts[0], infos[0], next);
      OthersRead(records, blob, parts, infos);
      AllAreListed(records, blob, next, parts[1..], infos[1..], end);
      InfosStep(records, i, next, end, infos[0], infos[1..]);
      assert infos == [infos[0]] + infos[1..];
    }
  }

  lemma {:induction false} EachRecord(headers: seq<Header>, k: nat)
    requires k < |headers|
    ensures Directory(headers)[k] == CentralRecord(headers[k])
    decreases |headers|
  {
    if k > 0 { EachRecord(headers[1..], k - 1); }
  }

  lemma {:induction false} RecordReads(page: Byte -> char, blob: seq<Byte>, h: Header, size: nat)
    requires HeaderFits(h) && size == |CentralRecord(h)|
    ensures size > 0 && forall i: nat :: At(blob, i, CentralRecord(h)) ==>
              InfoAt(page, blob, i, 0) == Some(Located(InfoOf(page, h), i + size))
  {
    HeaderSizes(h);
    forall i: nat | At(blob, i, CentralRecord(h))
      ensures InfoAt(page, blob, i, 0) == Some(Located(InfoOf(page, h), i + size))
    {
      CentralIsRead(page, blob, i, h, size);
    }
  }

  lemma {:induction false} DirectoryReads(page: Byte -> char, blob: seq<Byte>, headers: seq<Header>, k: nat)
    requires HeadersFit(headers) && k < |headers|
    ensures Reads(RecordsOf(page, blob, 0), blob, Directory(headers)[k], InfosOf(page, headers)[k])
  {
    EachRecord(headers, k);
    EachHeaderFits(headers, k);
    RecordReads(page, blob, headers[k], |CentralRecord(headers[k])|);
  }

  lemma {:induction false} EachIsRead(page: Byte -> char, blob: seq<Byte>, headers: seq<Header>, parts: seq<seq<Byte>>, infos: seq<Info>)
    requires HeadersFit(headers) && parts == Directory(headers) && infos == InfosOf(page, headers)
    ensures |parts| == |infos| && forall k :: 0 <= k < |parts| ==> Reads(RecordsOf(page, blob, 0), blob, parts[k], infos[k])
  {
    forall k | 0 <= k < |parts| ensures Reads(RecordsOf(page, blob, 0), blob, parts[k], infos[k]) {
      DirectoryReads(page, blob, headers, k);
    }
  }

  lemma {:induction false} InfosAreRead(page: Byte -> char, blob: seq<Byte>, start: nat, headers: seq<Header>, end: nat)
    requires At(blob, start, Concat(Directory(headers))) && HeadersFit(headers) && end == start + |Concat(Directory(headers))|
    ensures Infos(RecordsOf(page, blob, 0), start, end) == Some(InfosOf(page, headers))
  {
    EachIsRead(page, blob, headers, Directory(headers), InfosOf(page, headers));
    AllAreListed(RecordsOf(page, blob, 0), blob, start, Directory(headers), InfosOf(page, headers), end);
  }

  lemma {:induction false} EndIsRead(blob: seq<Byte>, count: nat, size: nat, offset: nat)
    requires EndFits(count, size, offset) && |blob| == offset + size + 22
    requires At(blob, offset + size, Pack(END, EndFields(count, size, offset)))
    ensures Unpack(END, blob[offset + size..]) == EndFields(count, size, offset)
  {
    Powers();
    EndWidth();
    UnpacksAt(blob, offset + size, END, EndFields(count, size, offset), 22);
    assert blob[offset + size..offset + size + 22] == blob[offset + size..];
  }

  lemma {:induction false} ThreeParts(a: seq<Byte>, b: seq<Byte>, z: seq<Byte>)
    ensures At(a + b + z, 0, a) && At(a + b + z, |a|, b) && At(a + b + z, |a| + |b|, z)
  {
    AtLonger(a + b, z, 0, a);
    AtEnd(a, b);
    AtLonger(a + b, z, |a|, b);
    AtEnd(a + b, z);
  }

  lemma {:induction false} ArchiveParts(c: Codec, entries: seq<Entry>, offset: nat, directory: seq<Byte>)
    requires offset == |Concat(Locals(c, entries))| && directory == Concat(Directory(Headers(c, entries)))
    ensures var blob := Archive(c, entries);
            && |blob| == offset + |directory| + 22
            && At(blob, 0, Concat(Locals(c, entries))) && At(blob, offset, directory)
            && At(blob, offset + |directory|, Pack(END, EndFields(|entries|, |directory|, offset)))
  {
    var end := EndFields(|entries|, |directory|, offset);
    EndWidth();
    PackSize(END, end);
    ThreeParts(Concat(Locals(c, entries)), directory, Pack(END, end));
  }

  lemma {:induction false} ListFromEnd(page: Byte -> char, blob: seq<Byte>, count: nat, size: nat, offset: nat, end: nat)
    requires EndFits(count, size, offset) && end == offset + size && |blob| == end + 22
    requires At(blob, end, Pack(END, EndFields(count, size, offset)))
    ensures InfoList(page, blob) == Infos(RecordsOf(page, blob, 0), offset, end)
  {
    EndIsRead(blob, count, size, offset);
  }

  lemma {:induction false} ListOfDirectory(page: Byte -> char, blob: seq<Byte>, headers: seq<Header>, count: nat, size: nat, offset: nat)
    requires HeadersFit(headers) && EndFits(count, size, offset) && |blob| == offset + size + 22
    requires size == |Concat(Directory(headers))| && At(blob, offset, Concat(Directory(headers)))
    requires At(blob, offset + size, Pack(END, EndFields(count, size, offset)))
    ensures InfoList(page, blob) == Some(InfosOf(page, headers))
  {
    ListFromEnd(page, blob, count, size, offset, offset + size);
    InfosAreRead(page, blob, offset, headers, offset + size);
  }

  lemma {:induction false} ListOfParts(page: Byte -> char, blob: seq<Byte>, body: seq<Byte>, headers: seq<Header>, count: nat)
    requires HeadersFit(headers) && EndFits(count, |Concat(Directory(headers))|, |body|)
    requires blob == body + Concat(Directory(headers)) + Pack(END, EndFields(count, |Concat(Directory(headers))|, |body|))
    ensures InfoList(page, blob) == Some(InfosOf(page, headers))
  {
    var directory := Concat(Directory(headers));
    EndWidth();
    PackSize(END, EndFields(count, |directory|, |body|));
    ThreeParts(body, directory, Pack(END, EndFields(count, |directory|, |body|)));
    ListOfDirectory(page, blob, headers, count, |directory|, |body|);
  }

  /** The end record and the directory give one record for each entry, in order. */
  lemma {:induction false} DirectoryReadsBack(c: Codec, page: Byte -> char, entries: seq<Entry>)
    requires Representable(c, entries)
    ensures InfoList(page, Archive(c, entries)) == Some(InfosOf(page, Headers(c, entries)))
  {
    ListOfParts(page, Archive(c, entries), Concat(Locals(c, entries)), Headers(c, entries), |entries|);
  }

  /** A name as the directory gives it back. */
  function Reread(page: Byte -> char, name: string): string {
    UpToNul(Decoded(page, Utf8(name)))
  }

  function Kept(page: Byte -> char, entries: seq<Entry>): seq<Entry> {
    if entries == [] then []
    else
      var e := entries[0].(name := Reread(page, entries[0].name));
      (if IsDirectory(e.name) then [] else [e]) + Kept(page, entries[1..])
  }

  lemma {:induction false} EntryReadsBack(c: Codec, page: Byte -> char, entries: seq<Entry>, k: nat)
    requires Lawful(c) && Representable(c, entries) && k < |entries|
    ensures DataOf(c, page, Archive(c, entries), InfoOf(page, Headers(c, entries)[k])) == Some(entries[k].data)
  {
    var blob, offset := Archive(c, entries), |Concat(Locals(c, entries[..k]))|;
    ArchiveParts(c, entries, |Concat(Locals(c, entries))|, Concat(Directory(Headers(c, entries))));
    LocalInBlob(c, blob, entries, k, offset);
    EachEntry(c, entries, k, offset);
    EachHeaderFits(Headers(c, entries), k);
    LocalIsRead(c, page, blob, entries[k], offset);
  }

  lemma {:induction false} EntriesReadBack(c: Codec, page: Byte -> char, entries: seq<Entry>, k: nat)
    requires Lawful(c) && Representable(c, entries) && k <= |entries|
    ensures EntriesOf(c, page, Archive(c, entries), InfosOf(page, Headers(c, entries)[k..])) == Some(Kept(page, entries[k..]))
    decreases |entries| - k
  {
    var headers := Headers(c, entries);
    if k < |entries| {
      EntriesReadBack(c, page, entries, k + 1);
      EntryReadsBack(c, page, entries, k);
      var offset := |Concat(Locals(c, entries[..k]))|;
      EachEntry(c, entries, k, offset);
      assert headers[k..][1..] == headers[k + 1..] && entries[k..][1..] == entries[k + 1..];
      OneEntry(c, page, Archive(c, entries), headers[k..], entries[k..], offset);
    }
  }

  lemma {:induction false} OneEntry(c: Codec, page: Byte -> char, blob: seq<Byte>, headers: seq<Header>, entries: seq<Entry>, offset: nat)
    requires headers != [] && entries != [] && headers[0] == HeaderOf(c, entries[0], offset)
    requires DataOf(c, page, blob, InfoOf(page, headers[0])) == Some(entries[0].data)
    requires EntriesOf(c, page, blob, InfosOf(page, headers[1..])) == Some(Kept(page, entries[1..]))
    ensures EntriesOf(c, page, blob, InfosOf(page, headers)) == Some(Kept(page, entries))
  {
    var infos, e := InfosOf(page, headers), entries[0];
    assert infos[1..] == InfosOf(page, headers[1..]) && infos[0] == InfoOf(page, headers[0]);
    assert NameOf(infos[0]) == Reread(page, e.name);
    assert Entry(NameOf(infos[0]), e.data, infos[0].method_ == STORED) == e.(name := Reread(page, e.name));
    assert [] + Kept(page, entries[1..]) == Kept(page, entries[1..]);
  }

  /**
   * What the writer wrote, the reader gives back: methods, sizes and data in order, without the
   * directories, and each name as it is encoded and decoded.
   */
  lemma {:induction false} ArchiveReadsBack(c: Codec, page: Byte -> char, entries: seq<Entry>)
    requires Lawful(c) && Representable(c, entries)
    ensures var infos := InfoList(page, Archive(c, entries));
            infos.Some? && EntriesOf(c, page, Archive(c, entries), infos.value) == Some(Kept(page, entries))
  {
    DirectoryReadsBack(c, page, entries);
    EntriesReadBack(c, page, entries, 0);
    assert Headers(c, entries)[0..] == Headers(c, entries) && entries[0..] == entries;
  }

  // ---- Names ----

  predicate NoNul(name: string) {
    forall k :: 0 <= k < |name| ==> name[k] != '\0'
  }

  predicate Ascii(name: string) {
    forall k :: 0 <= k < |name| ==> name[k] as int < 0x80
  }

  lemma {:induction false} Utf8Sizes(name: string)
    ensures |Utf8(name)| >= |name| && (|Utf8(name)| == |name| <==> Ascii(name))
    ensures Ascii(name) ==> forall k :: 0 <= k < |name| ==> Utf8(name)[k] == name[k] as int
    decreases |name|
  {
    if name != "" {
      Utf8Sizes(name[1..]);
      assert forall k :: 0 < k < |name| ==> name[k] == name[1..][k - 1];
    }
  }

  lemma {:induction false} Utf8HasNoNul(name: string)
    requires NoNul(name)
    ensures forall k :: 0 <= k < |Utf8(name)| ==> Utf8(name)[k] != 0
    decreases |name|
  {
    if name != "" {
      assert forall k :: 0 < k < |name| ==> name[k] == name[1..][k - 1];
      Utf8HasNoNul(name[1..]);
    }
  }

  lemma {:induction false} UpToNulKeeps(s: string)
    ensures NoNul(UpToNul(s)) && (NoNul(s) ==> UpToNul(s) == s)
    decreases |s|
  {
    if s != "" {
      UpToNulKeeps(s[1..]);
      assert forall k :: 0 < k < |s| ==> s[k] == s[1..][k - 1];
    }
  }

  /** A name comes back as it was exactly when it is ASCII without a nul character. */
  lemma {:induction false} NameSurvivesIff(page: Byte -> char, name: string)
    requires IsCodePage(page)
    ensures Reread(page, name) == name <==> Ascii(name) && NoNul(name)
  {
    var bytes := Utf8(name);
    var shown := Decoded(page, bytes);
    UpToNulKeeps(shown);
    Utf8Sizes(name);
    if NoNul(name) {
      Utf8HasNoNul(name);
      assert NoNul(shown);
      if Ascii(name) { assert shown == name; }
    }
  }

  /** A file whose name comes back. */
  predicate Survives(e: Entry) {
    Ascii(e.name) && NoNul(e.name) && !IsDirectory(e.name)
  }

  lemma {:induction false} AllKeptIff(page: Byte -> char, entries: seq<Entry>)
    requires IsCodePage(page)
    ensures |Kept(page, entries)| <= |entries|
    ensures Kept(page, entries) == entries <==> forall k :: 0 <= k < |entries| ==> Survives(entries[k])
    decreases |entries|
  {
    if entries != [] {
      NameSurvivesIff(page, entries[0].name);
      AllKeptIff(page, entries[1..]);
      assert entries == [entries[0]] + entries[1..];
      FirstKeptIff(page, entries);
    }
  }

  lemma {:induction false} FirstKeptIff(page: Byte -> char, entries: seq<Entry>)
    requires entries != [] && |Kept(page, entries[1..])| <= |entries[1..]|
    ensures Kept(page, entries) == entries
        <==> !IsDirectory(Reread(page, entries[0].name)) && Reread(page, entries[0].name) == entries[0].name && Kept(page, entries[1..]) == entries[1..]
  {
    var e, rest := entries[0].(name := Reread(page, entries[0].name)), Kept(page, entries[1..]);
    assert entries == [entries[0]] + entries[1..];
    if !IsDirectory(e.name) {
      assert Kept(page, entries) == [e] + rest;
      assert ([e] + rest)[1..] == rest && ([e] + rest)[0] == e;
    }
  }

  /** Reading undoes writing exactly when every entry is a file with an ASCII name without a nul character. */
  lemma {:induction false} RoundTripIff(c: Codec, page: Byte -> char, entries: seq<Entry>)
    requires Lawful(c) && IsCodePage(page) && Representable(c, entries)
    ensures var infos := InfoList(page, Archive(c, entries));
            infos.Some? && (EntriesOf(c, page, Archive(c, entries), infos.value) == Some(entries)
                            <==> forall k :: 0 <= k < |entries| ==> Survives(entries[k]))
  {
    ArchiveReadsBack(c, page, entries);
    AllKeptIff(page, entries);
  }

  // ---- The script's own check ----

  predicate Low(bytes: seq<Byte>) {
    forall k :: 0 <= k < |bytes| ==> bytes[k] < 0x80
  }

  lemma {:induction false} Utf8OfDecoded(page: Byte -> char, bytes: seq<Byte>, shown: string)
    requires IsCodePage(page) && shown == Decoded(page, bytes)
    ensures |Utf8(shown)| == |bytes| <==> Low(bytes)
  {
    Utf8Sizes(shown);
    assert forall k :: 0 <= k < |bytes| ==> (shown[k] as int < 0x80 <==> bytes[k] < 0x80);
  }

  lemma {:induction false} LowJoined(a: seq<Byte>, b: seq<Byte>)
    ensures Low(a + b) <==> Low(a) && Low(b)
  {
    assert forall k :: 0 <= k < |a| ==> (a + b)[k] == a[k];
    assert forall k :: 0 <= k < |b| ==> (a + b)[|a| + k] == b[k];
  }

  lemma {:induction false} AsciiBytes(name: string)
    ensures Ascii(name) <==> Low(Utf8(name))
    decreases |name|
  {
    if name != "" {
      var head := Utf8Char(name[0]);
      AsciiBytes(name[1..]);
      LowJoined(head, Utf8(name[1..]));
      assert Low(head) <==> name[0] as int < 0x80 by { assert head[0] < 0x80 <==> name[0] as int < 0x80; }
      assert forall k :: 0 < k < |name| ==> name[k] == name[1..][k - 1];
      assert forall k :: 0 <= k < |name[1..]| ==> name[1..][k] == name[k + 1];
    }
  }

  /** How much longer a name is when it is decoded up to a nul character and encoded again. */
  function Widening(page: Byte -> char, name: string): int {
    |Utf8(Reread(page, name))| - |Utf8(name)|
  }

  lemma {:induction false} WideningIs(page: Byte -> char, name: string)
    requires IsCodePage(page)
    ensures NoNul(name) ==> Widening(page, name) >= 0 && (Widening(page, name) == 0 <==> Ascii(name))
    ensures Ascii(name) ==> Widening(page, name) <= 0 && (Widening(page, name) == 0 <==> NoNul(name))
  {
    var bytes := Utf8(name);
    var shown := Decoded(page, bytes);
    UpToNulKeeps(shown);
    Utf8Sizes(shown);
    if NoNul(name) {
      Utf8HasNoNul(name);
      assert NoNul(shown);
      Utf8OfDecoded(page, bytes, shown);
      AsciiBytes(name);
    }
    if Ascii(name) {
      Utf8Sizes(name);
      assert shown == name;
      UpToNulIsShorter(name);
      Utf8Sizes(UpToNul(name));
    }
  }

  lemma {:induction false} UpToNulIsShorter(s: string)
    ensures |UpToNul(s)| <= |s| && (|UpToNul(s)| == |s| <==> NoNul(s))
    ensures Ascii(s) ==> Ascii(UpToNul(s))
    decreases |s|
  {
    if s != "" {
      UpToNulIsShorter(s[1..]);
      assert forall k :: 0 < k < |s| ==> s[k] == s[1..][k - 1];
      assert forall k :: 0 <= k < |s[1..]| ==> s[1..][k] == s[k + 1];
    }
  }

  /**
   * The offset that the check takes from the directory is off by the widening of the name. So for a
   * name without a nul character it is right exactly when the name is ASCII, and for an ASCII name
   * exactly when it has no nul character.
   */
  lemma {:induction false} CheckedOffsetIff(c: Codec, page: Byte -> char, e: Entry, offset: nat)
    requires IsCodePage(page)
    ensures var h := HeaderOf(c, e, offset); var right := offset + |LocalHeader(h)|;
            && CheckedOffset(InfoOf(page, h)) == right + Widening(page, e.name)
            && (NoNul(e.name) ==> (CheckedOffset(InfoOf(page, h)) == right <==> Ascii(e.name)))
            && (Ascii(e.name) ==> (CheckedOffset(InfoOf(page, h)) == right <==> NoNul(e.name)))
  {
    HeaderSizes(HeaderOf(c, e, offset));
    WideningIs(page, e.name);
  }

  /** A stored entry is found misaligned exactly when the widening of its name is no multiple of four. */
  lemma {:induction false} MisalignedByName(c: Codec, page: Byte -> char, e: Entry, offset: nat)
    requires IsCodePage(page) && e.stored
    ensures CheckedOffset(InfoOf(page, HeaderOf(c, e, offset))) % 4 == 0 <==> Widening(page, e.name) % 4 == 0
  {
    CheckedOffsetIff(c, page, e, offset);
    StoredIsAligned(c, e, offset);
    SumOfFours(offset + |LocalHeader(HeaderOf(c, e, offset))|, Widening(page, e.name));
  }

  lemma {:induction false} SumOfFours(a: int, b: int)
    requires a % 4 == 0
    ensures (a + b) % 4 == 0 <==> b % 4 == 0
  {
  }

  /** No stored entry has a name that the check measures wrongly modulo four. */
  predicate NamesMeasured(page: Byte -> char, entries: seq<Entry>) {
    forall k :: 0 <= k < |entries| && entries[k].stored ==> Widening(page, entries[k].name) % 4 == 0
  }

  lemma {:induction false} LastInfo(c: Codec, page: Byte -> char, entries: seq<Entry>)
    requires entries != []
    ensures var front, last := entries[..|entries| - 1], entries[|entries| - 1];
            InfosOf(page, Headers(c, entries)) ==
            InfosOf(page, Headers(c, front)) + [InfoOf(page, HeaderOf(c, last, |Concat(Locals(c, front))|))]
  {
  }

  /** The check finds misaligned entries exactly when some stored entry has a wrongly measured name. */
  lemma {:induction false} NothingIsMisalignedIff(c: Codec, page: Byte -> char, entries: seq<Entry>)
    requires IsCodePage(page)
    ensures Misaligned(InfosOf(page, Headers(c, entries))) == [] <==> NamesMeasured(page, entries)
    decreases |entries|
  {
    if entries != [] {
      var front, last := entries[..|entries| - 1], entries[|entries| - 1];
      var offset := |Concat(Locals(c, front))|;
      NothingIsMisalignedIff(c, page, front);
      LastInfo(c, page, entries);
      if last.stored { MisalignedByName(c, page, last, offset); }
      MisalignedMore(InfosOf(page, Headers(c, front)), InfoOf(page, HeaderOf(c, last, offset)));
      MeasuredMore(page, entries);
    }
  }

  lemma {:induction false} MeasuredMore(page: Byte -> char, entries: seq<Entry>)
    requires entries != []
    ensures var front, last := entries[..|entries| - 1], entries[|entries| - 1];
      NamesMeasured(page, entries) <==> NamesMeasured(page, front) && (last.stored ==> Widening(page, last.name) % 4 == 0)
  {
    var front := entries[..|entries| - 1];
    assert forall k :: 0 <= k < |front| ==> front[k] == entries[k];
  }

  lemma {:induction false} MisalignedMore(infos: seq<Info>, info: Info)
    ensures Misaligned(infos + [info]) == [] <==> Misaligned(infos) == [] && (info.method_ == STORED ==> CheckedOffset(info) % 4 == 0)
  {
    assert (infos + [info])[..|infos|] == infos;
  }

  /** The last entry whose name is read back as this one. */
  function LastNamed(page: Byte -> char, entries: seq<Entry>, name: string): Option<Entry> {
    if entries == [] then None
    else if Reread(page, entries[|entries| - 1].name) == name then Some(entries[|entries| - 1])
    else LastNamed(page, entries[..|entries| - 1], name)
  }

  lemma {:induction false} LookupFinds(c: Codec, page: Byte -> char, entries: seq<Entry>, name: string)
    ensures var infos := InfosOf(page, Headers(c, entries)); var found := LastNamed(page, entries, name);
            && (HasName(infos, name) <==> found.Some?) && (Lookup(infos, name).Some? <==> found.Some?)
            && (found.Some? ==> (Lookup(infos, name).value.method_ == STORED <==> found.value.stored))
    decreases |entries|
  {
    if entries != [] {
      var front, last := entries[..|entries| - 1], entries[|entries| - 1];
      var offset := |Concat(Locals(c, front))|;
      var infos := InfosOf(page, Headers(c, front));
      var info := InfoOf(page, HeaderOf(c, last, offset));
      LookupFinds(c, page, front, name);
      LastInfo(c, page, entries);
      LookupMore(infos, info, name);
    }
  }

  lemma {:induction false} LookupMore(infos: seq<Info>, info: Info, name: string)
    ensures Lookup(infos + [info], name) == if NameOf(info) == name then Some(info) else Lookup(infos, name)
    ensures HasName(infos + [info], name) <==> HasName(infos, name) || NameOf(info) == name
    decreases |infos|
  {
    assert (infos + [info])[..|infos|] == infos;
    if infos == [] {
      assert (infos + [info])[1..] == [];
    } else {
      assert (infos + [info])[1..] == infos[1..] + [info];
      LookupMore(infos[1..], info, name);
    }
  }

  /**
   * The check passes a written archive exactly when the three entries that Android needs are read back,
   * the last resource table is stored, the file is not too small, and no stored entry has a name that
   * is measured wrongly modulo four; a name of ASCII without nul never is.
   */
  lemma {:induction false} CheckPassesIff(c: Codec, page: Byte -> char, entries: seq<Entry>)
    requires IsCodePage(page) && Representable(c, entries)
    ensures var infos := InfoList(page, Archive(c, entries)); var resources := LastNamed(page, entries, RESOURCES);
            && infos.Some? && (Misaligned(infos.value) == [] <==> NamesMeasured(page, entries))
            && (MissingNames(infos.value) + ResourcesProblem(infos.value) == [] <==>
                LastNamed(page, entries, MANIFEST).Some? && LastNamed(page, entries, CLASSES).Some?
                && resources.Some? && resources.value.stored)
  {
    DirectoryReadsBack(c, page, entries);
    NothingIsMisalignedIff(c, page, entries);
    LookupFinds(c, page, entries, MANIFEST);
    LookupFinds(c, page, entries, RESOURCES);
    LookupFinds(c, page, entries, CLASSES);
  }

  lemma {:induction false} PlainNamesAreMeasured(page: Byte -> char, entries: seq<Entry>)
    requires IsCodePage(page) && forall k :: 0 <= k < |entries| ==> Ascii(entries[k].name) && NoNul(entries[k].name)
    ensures NamesMeasured(page, entries)
  {
    forall k | 0 <= k < |entries| && entries[k].stored ensures Widening(page, entries[k].name) % 4 == 0 {
      WideningIs(page, entries[k].name);
    }
  }
}
