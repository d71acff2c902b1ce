/** Reading an archive back through its end record and central directory, and the build script's own check. */
module ZipReader {
  import opened Base
  import opened Packing
  import opened Slices
  import opened Zip

  // ---- The reader ----

  /** Names without the UTF-8 flag are decoded by code page 437, one character a byte. */
  ghost predicate IsCodePage(page: Byte -> char) {
    forall b: Byte :: if b < 0x80 then page(b) as int == b else page(b) as int >= 0x80
  }

  function Decoded(page: Byte -> char, bytes: seq<Byte>): (r: string)
    ensures |r| == |bytes| && forall k :: 0 <= k < |r| ==> r[k] == page(bytes[k])
  {
    seq(|bytes|, k requires 0 <= k < |bytes| => page(bytes[k]))
  }

  /** A name ends at its first nul character. */
  function UpToNul(s: string): string {
    if s == "" || s[0] == '\0' then "" else [s[0]] + UpToNul(s[1..])
  }

  datatype Info = Info(raw: string, method_: nat, crc: nat, packed: nat, size: nat, extra: nat, offset: int)

  function NameOf(info: Info): string {
    UpToNul(info.raw)
  }

  datatype Located = Located(info: Info, next: nat)

  /** The central record at `i`; its offset is moved by what precedes the archive. */
  function InfoAt(page: Byte -> char, blob: seq<Byte>, i: nat, shift: int): (r: Option<Located>)
    ensures r.Some? ==> i < r.value.next
  {
    if i + 46 > |blob| then None
    else
      var f := Unpack(CENTRAL, blob[i..i + 46]);
      if |f| < |CENTRAL| || f[0] != CENTRAL_SIGNATURE || f[3] != 0 || i + 46 + f[10] > |blob| then None
      else
        var raw := Decoded(page, blob[i + 46..i + 46 + f[10]]);
        Some(Located(Info(raw, f[4], f[7], f[8], f[9], f[11], f[16] + shift), i + 46 + f[10] + f[11] + f[12]))
  }

  /** What one step of the listing reads at an index. */
  type Records = nat -> Option<Located>

  function Infos(records: Records, i: nat, end: nat): Option<seq<Info>>
    decreases end - i
  {
    if i >= end then Some([])
    else
      var head := records(i);
      if head.None? || head.value.next <= i then None
      else
        var tail := Infos(records, head.value.next, end);
        if tail.None? then None else Some([head.value.info] + tail.value)
  }

  function RecordsOf(page: Byte -> char, blob: seq<Byte>, shift: int): Records {
    (i: nat) => InfoAt(page, blob, i, shift)
  }

  function InfoList(page: Byte -> char, blob: seq<Byte>): Option<seq<Info>> {
    if |blob| < 22 then None
    else
      var end := |blob| - 22;
      var f := Unpack(END, blob[end..]);
      if |f| < |END| || f[0] != END_SIGNATURE || f[7] != 0 || f[5] > end then None
      else Infos(RecordsOf(page, blob, end - f[5] - f[6]), end - f[5], end)
  }

  /** The data of an entry, found by its local header and checked against the directory. */
  function DataOf(c: Codec, page: Byte -> char, blob: seq<Byte>, info: Info): Option<seq<Byte>> {
    if info.offset < 0 || info.offset + 30 > |blob| then None
    else
      var f := Unpack(LOCAL, blob[info.offset..info.offset + 30]);
      if |f| < |LOCAL| || f[0] != LOCAL_SIGNATURE then None
      else
        var start := info.offset + 30 + f[9] + f[10];
        if start + info.packed > |blob| then None
        else if Decoded(page, blob[info.offset + 30..info.offset + 30 + f[9]]) != info.raw then None
        else Unpacked(c, info, blob[start..start + info.packed])
  }

  function Unpacked(c: Codec, info: Info, raw: seq<Byte>): Option<seq<Byte>> {
    var data := if info.method_ == STORED then Some(raw) else if info.method_ == DEFLATED then c.inflate(raw) else None;
    if data.None? || |data.value| != info.size || c.crc(data.value) != info.crc then None else data
  }

  predicate IsDirectory(name: string) {
    name != "" && name[|name| - 1] == '/'
  }

  function EntriesOf(c: Codec, page: Byte -> char, blob: seq<Byte>, infos: seq<Info>): Option<seq<Entry>> {
    if infos == [] then Some([])
    else
      var info, tail := infos[0], EntriesOf(c, page, blob, infos[1..]);
      if IsDirectory(NameOf(info)) then tail
      else
        var data := DataOf(c, page, blob, info);
        if data.None? || tail.None? then None
        else Some([Entry(NameOf(info), data.value, info.method_ == STORED)] + tail.value)
  }

  method ReadEntries(c: Codec, page: Byte -> char, blob: seq<Byte>) returns (r: Option<seq<Entry>>)
    ensures r == var infos := InfoList(page, blob); if infos.None? then None else EntriesOf(c, page, blob, infos.value)
  {
    var infos := InfoList(page, blob);
    if infos.None? {
      return None;
    }
    var entries: seq<Entry> := [];
    ghost var wanted := EntriesOf(c, page, blob, infos.value);
    assert infos.value[0..] == infos.value;
    PrependedNothing(wanted);
    for k := 0 to |infos.value|
      invariant wanted == Prepended(entries, EntriesOf(c, page, blob, infos.value[k..]))
    {
      var info := infos.value[k];
      assert infos.value[k..][0] == info && infos.value[k..][1..] == infos.value[k + 1..];
      if IsDirectory(NameOf(info)) {
        continue;
      }
      var data := DataOf(c, page, blob, info);
      if data.None? {
        return None;
      }
      var e := Entry(NameOf(info), data.value, info.method_ == STORED);
      PrependedMore(entries, e, EntriesOf(c, page, blob, infos.value[k + 1..]));
      entries := entries + [e];
    }
    assert infos.value[|infos.value|..] == [] && entries + [] == entries;
    return Some(entries);
  }

  function Prepended(front: seq<Entry>, back: Option<seq<Entry>>): Option<seq<Entry>> {
    if back.None? then None else Some(front + back.value)
  }

  lemma {:induction false} PrependedNothing(back: Option<seq<Entry>>)
    ensures Prepended([], back) == back
  {
    if back.Some? { assert [] + back.value == back.value; }
  }

  lemma {:induction false} PrependedMore(front: seq<Entry>, e: Entry, back: Option<seq<Entry>>)
    ensures Prepended(front + [e], back) == Prepended(front, Prepended([e], back))
  {
    if back.Some? { assert front + [e] + back.value == front + ([e] + back.value); }
  }

  // ---- The build script's own check ----

  datatype Problem =
    | ManifestMissing | ResourcesMissing | ClassesMissing | ResourcesCompressed
    | NotAligned(name: string, offset: int) | TooSmall

  const MANIFEST := "AndroidManifest.xml"
  const RESOURCES := "resources.arsc"
  const CLASSES := "classes.dex"

  predicate HasName(infos: seq<Info>, name: string) {
    infos != [] && (NameOf(infos[0]) == name || HasName(infos[1..], name))
  }

  /** Of two entries with one name, the directory looks up the later. */
  function Lookup(infos: seq<Info>, name: string): Option<Info> {
    if infos == [] then None
    else if NameOf(infos[|infos| - 1]) == name then Some(infos[|infos| - 1])
    else Lookup(infos[..|infos| - 1], name)
  }

  /** Where the check takes the data of an entry to start: from the directory alone, with the name encoded again. */
  function CheckedOffset(info: Info): int {
    info.offset + 30 + |Utf8(NameOf(info))| + info.extra
  }

  function Misaligned(infos: seq<Info>): seq<Problem> {
    if infos == [] then []
    else
      var front, info := Misaligned(infos[..|infos| - 1]), infos[|infos| - 1];
      if info.method_ == STORED && CheckedOffset(info) % 4 != 0 then front + [NotAligned(NameOf(info), CheckedOffset(info))]
      else front
  }

  function MissingNames(infos: seq<Info>): seq<Problem> {
    (if HasName(infos, MANIFEST) then [] else [ManifestMissing])
    + (if HasName(infos, RESOURCES) then [] else [ResourcesMissing])
    + (if HasName(infos, CLASSES) then [] else [ClassesMissing])
  }

  function ResourcesProblem(infos: seq<Info>): seq<Problem> {
    var info := Lookup(infos, RESOURCES);
    if info.Some? && info.value.method_ != STORED then [ResourcesCompressed] else []
  }

  method VerifyApk(page: Byte -> char, blob: seq<Byte>) returns (problems: Option<seq<Problem>>)
    ensures problems.None? <==> InfoList(page, blob).None?
    ensures problems.Some? ==>
              var infos := InfoList(page, blob).value;
              problems.value == MissingNames(infos) + ResourcesProblem(infos) + Misaligned(infos)
                                + (if |blob| < 1024 then [TooSmall] else [])
  {
    var infos := InfoList(page, blob);
    if infos.None? {
      return None;
    }
    var found := CheckNames(infos.value);
    var info := Lookup(infos.value, RESOURCES);
    var compressed := if info.Some? && info.value.method_ != STORED then [ResourcesCompressed] else [];
    var misaligned := CheckAlignment(infos.value);
    return Some(found + compressed + misaligned + (if |blob| < 1024 then [TooSmall] else []));
  }

  method CheckNames(infos: seq<Info>) returns (found: seq<Problem>)
    ensures found == MissingNames(infos)
  {
    found := [];
    if !HasName(infos, MANIFEST) { found := found + [ManifestMissing]; }
    if !HasName(infos, RESOURCES) { found := found + [ResourcesMissing]; }
    if !HasName(infos, CLASSES) { found := found + [ClassesMissing]; }
  }

  method CheckAlignment(infos: seq<Info>) returns (problems: seq<Problem>)
    ensures problems == Misaligned(infos)
  {
    problems := [];
    for k := 0 to |infos|
      invariant problems == Misaligned(infos[..k])
    {
      assert infos[..k + 1][..k] == infos[..k];
      if infos[k].method_ != STORED {
        continue;
      }
      var offset := CheckedOffset(infos[k]);
      if offset % 4 != 0 {
        problems := problems + [NotAligned(NameOf(infos[k]), offset)];
      }
    }
    assert infos[..|infos|] == infos;
  }
}
