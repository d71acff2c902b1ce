/** The whole digest: padding, the blocks and the hexadecimal text. */
module Md5Digest {
  import opened Base
  import opened Packing
  import opened Md5
  import Bits

  // ---- Sections 3.1 to 3.5 ----

  function Zeros(n: nat): (r: seq<Byte>)
    ensures |r| == n
  {
    seq(n, _ => 0)
  }

  /** How many zero bytes bring the length to 56 beyond a multiple of 64. */
  function Gap(n: nat): nat {
    (55 - n) % 64
  }

  /** One bit, the fewest zero bits that leave 64 bits for the length, and the length in bits, low-order word first. */
  function Padded(bytes: seq<Byte>): seq<Byte> {
    bytes + [0x80] + Zeros(Gap(|bytes|)) + LittleEndian(8, 8 * |bytes|)
  }

  /** A word has its low-order byte first. */
  function WordAt(s: seq<Byte>, i: nat): Word
    requires i + 4 <= |s|
  {
    var b0: int, b1: int, b2: int, b3: int := s[i], s[i + 1], s[i + 2], s[i + 3];
    b0 + 0x100 * b1 + 0x1_0000 * b2 + 0x100_0000 * b3
  }

  function Block(s: seq<Byte>, k: nat): (r: seq<Word>)
    requires 64 * k + 64 <= |s|
    ensures |r| == 16 && forall j :: 0 <= j < 16 ==> r[j] == WordAt(s, 64 * k + 4 * j)
  {
    seq(16, j requires 0 <= j < 16 => WordAt(s, 64 * k + 4 * j))
  }

  /** Section 3.3: the registers at the start, as bytes, low-order first. */
  const START: seq<Byte> :=
    [0x01, 0x23, 0x45, 0x67] + [0x89, 0xab, 0xcd, 0xef] + [0xfe, 0xdc, 0xba, 0x98] + [0x76, 0x54, 0x32, 0x10]

  function Initial(): Registers {
    [WordAt(START, 0), WordAt(START, 4), WordAt(START, 8), WordAt(START, 12)]
  }

  function AddAll(r: Registers, t: Registers): Registers {
    [Plus(r[0], t[0]), Plus(r[1], t[1]), Plus(r[2], t[2]), Plus(r[3], t[3])]
  }

  function Hash(table: seq<Word>, s: seq<Byte>, n: nat): Registers
    requires |table| == 64 && 64 * n <= |s|
  {
    if n == 0 then Initial()
    else
      var r := Hash(table, s, n - 1);
      AddAll(r, StandardSteps(table, Block(s, n - 1), |table|, r))
  }

  function HexDigit(n: nat): char
    requires n < 16
  {
    "0123456789abcdef"[n]
  }

  /** Digits by their character codes. */
  lemma {:induction false} HexDigitIs(n: nat)
    requires n < 16
    ensures HexDigit(n) as int == if n < 10 then 48 + n else 87 + n
  {
  }

  function HexOf(bytes: seq<Byte>): string {
    if bytes == [] then ""
    else HexOf(bytes[..|bytes| - 1]) + [HexDigit(bytes[|bytes| - 1] / 16), HexDigit(bytes[|bytes| - 1] % 16)]
  }

  function RegisterBytes(r: Registers): seq<Byte> {
    LittleEndian(4, r[0]) + LittleEndian(4, r[1]) + LittleEndian(4, r[2]) + LittleEndian(4, r[3])
  }

  function StandardDigest(table: seq<Word>, bytes: seq<Byte>): string
    requires |table| == 64
  {
    PaddingIsLeast(bytes);
    HexOf(RegisterBytes(Hash(table, Padded(bytes), |Padded(bytes)| / 64)))
  }

  lemma {:induction false} PaddingIsLeast(bytes: seq<Byte>)
    ensures |Padded(bytes)| % 64 == 0 && |bytes| + 9 <= |Padded(bytes)| < |bytes| + 9 + 64
  {
    RoundUp(|bytes|);
    WholeBlocks((|bytes| + 8) / 64 + 1);
  }

  /** A byte as eight bits, high-order first. */
  function Octet(b: Byte): seq<nat> {
    [b / 128, b / 64 % 2, b / 32 % 2, b / 16 % 2, b / 8 % 2, b / 4 % 2, b / 2 % 2, b % 2]
  }

  /**
   * Sections 3.1 and 3.2 in bits: the message, one bit set, the fewest clear bits that leave room for
   * 64, and in those the length of the message in bits.
   */
  lemma {:induction false} PaddingIsStandard(bytes: seq<Byte>)
    requires 8 * |bytes| < Pow256(8)
    ensures var p, n := Padded(bytes), |bytes|;
      && |p| % 64 == 0 && n + 9 <= |p| < n + 9 + 64 && bytes <= p
      && Octet(p[n]) == [1, 0, 0, 0, 0, 0, 0, 0]
      && (forall k :: n < k < |p| - 8 ==> Octet(p[k]) == [0, 0, 0, 0, 0, 0, 0, 0])
      && Number(p[|p| - 8..]) == 8 * n
  {
    PaddingIsLeast(bytes);
    NumberReadsBack(8, 8 * |bytes|);
    FourParts(bytes, 0x80, Zeros(Gap(|bytes|)), LittleEndian(8, 8 * |bytes|));
    OctetsOfPadding();
  }

  lemma {:induction false} OctetsOfPadding()
    ensures Octet(0x80) == [1, 0, 0, 0, 0, 0, 0, 0] && Octet(0) == [0, 0, 0, 0, 0, 0, 0, 0]
  {
  }

  lemma {:induction false} FourParts(a: seq<Byte>, b: Byte, z: seq<Byte>, size: seq<Byte>)
    ensures var p, n := a + [b] + z + size, |a| + 1 + |z|;
      && |p| == n + |size| && a <= p && p[|a|] == b && p[n..] == size
      && forall k :: |a| < k < n ==> p[k] == z[k - |a| - 1]
  {
  }

  /** The worker's starting values are the bytes of the standard. */
  lemma {:induction false} StartAgrees()
    ensures Initial() == [0x67452301, 0xefcdab89, 0x98badcfe, 0x10325476]
  {
  }

  lemma {:induction false} WholeBlocks(blocks: nat)
    ensures 64 * blocks % 64 == 0
  {
  }

  // ---- The worker's sizes ----

  /** `>>` on a number: the sign stays. */
  function JsSar(x: int, s: nat): int {
    var w := Signed(ToUint32(x));
    if w >= 0 then Bits.Shr(w, s) else -1 - Bits.Shr(-1 - w, s)
  }

  function JsPaddedLength(n: nat): int {
    JsShl(JsSar(n + 8, 6) + 1, 6)
  }

  lemma {:induction false} ShrSix(n: nat)
    ensures Bits.Shr(n, 6) == n / 64 && Bits.Shl(n, 6) == 64 * n
  {
    assert Bits.Pow2(6) == 64;
    Bits.ShrIsDiv(n, 6);
  }

  lemma {:induction false} JsSarSix(x: int)
    requires 0 <= x < TWO31
    ensures JsSar(x, 6) == x / 64
  {
    SignedIsSame(x);
    ShrSix(x);
  }

  lemma {:induction false} StillByBlocks(x: int)
    ensures Signed(ToUint32(64 * x)) % 64 == 0
  {
    var q := 64 * x / TWO32;
    assert ToUint32(64 * x) == 64 * (x - 0x400_0000 * q);
  }

  lemma {:induction false} JsShlSix(x: int)
    ensures -TWO31 <= JsShl(x, 6) < TWO31 && JsShl(x, 6) % 64 == 0
    ensures 0 <= x < TWO32 ==> JsShl(x, 6) == Signed(ToUint32(64 * x))
  {
    SignedIsSame(ToUint32(Bits.Shl(ToUint32(x), 6)));
    ShrSix(ToUint32(x));
    StillByBlocks(ToUint32(x));
    if 0 <= x < TWO32 { SignedIsSame(x); }
  }

  lemma {:induction false} SignedAgain(x: nat)
    requires x < TWO31 + 64
    ensures Signed(ToUint32(x)) == if x < TWO31 then x else x - TWO32
  {
  }

  lemma {:induction false} ShortLength(n: nat, size: nat)
    requires n + 8 < TWO31 && size == n + 9 + Gap(n)
    ensures JsPaddedLength(n) == if size < TWO31 then size else size - TWO32
  {
    var blocks := (n + 8) / 64 + 1;
    RoundUp(n);
    FewBlocks(blocks, size);
    JsSarSix(n + 8);
    JsShlSix(blocks);
    SignedAgain(size);
  }

  lemma {:induction false} FewBlocks(blocks: nat, size: nat)
    requires size == 64 * blocks && size <= TWO31 + 64
    ensures blocks < TWO32
  {
  }

  /** The 32-bit shifts give the padded length exactly while that length is below 2^31. */
  lemma {:induction false} PaddedLengthIff(n: nat, size: nat)
    requires size == n + 9 + Gap(n)
    ensures JsPaddedLength(n) == size <==> size < TWO31
    ensures JsPaddedLength(n) >= n <==> size < TWO31
  {
    if n + 8 < TWO31 {
      ShortLength(n, size);
    } else {
      LongLength(n);
    }
  }

  lemma {:induction false} LongLength(n: nat)
    requires n + 8 >= TWO31
    ensures JsPaddedLength(n) <= TWO31 - 64
  {
    JsShlSix(JsSar(n + 8, 6) + 1);
    BelowBlock(JsPaddedLength(n));
  }

  lemma {:induction false} BelowBlock(x: int)
    requires x % 64 == 0 && x < TWO31
    ensures x <= TWO31 - 64
  {
  }

  lemma {:induction false} RoundUp(n: nat)
    ensures n + 9 + Gap(n) == 64 * ((n + 8) / 64 + 1)
  {
  }

  // ---- Reading and writing words ----

  lemma {:induction false} FourBytes(v: nat)
    ensures LittleEndian(4, v) == [v % 256, v / 256 % 256, v / 256 / 256 % 256, v / 256 / 256 / 256 % 256]
  {
    assert LittleEndian(1, v / 256 / 256 / 256) == [v / 256 / 256 / 256 % 256];
    assert LittleEndian(2, v / 256 / 256) == [v / 256 / 256 % 256, v / 256 / 256 / 256 % 256];
  }

  lemma {:induction false} LengthInTwoWords(v: nat)
    ensures LittleEndian(8, v) == LittleEndian(4, v % TWO32) + LittleEndian(4, v / TWO32)
  {
    TruncatedSame(v);
    DroppedFour(v);
    JoinedWords(4, 4, v, v / TWO32);
  }

  lemma {:induction false} TruncatedSame(v: nat)
    ensures LittleEndian(4, v % TWO32) == LittleEndian(4, v)
  {
    FourBytes(v);
    FourBytes(v % TWO32);
    var q, r := v / TWO32, v % TWO32;
    FirstByte(v, r, 0x100_0000 * q);
    FirstByte(v / 256, r / 256, 0x1_0000 * q);
    FirstByte(v / 256 / 256, r / 256 / 256, 0x100 * q);
    FirstByte(v / 256 / 256 / 256, r / 256 / 256 / 256, q);
  }

  lemma {:induction false} FirstByte(v: nat, r: nat, high: nat)
    requires v == 256 * high + r
    ensures v / 256 == high + r / 256 && v % 256 == r % 256
  {
  }

  lemma {:induction false} DroppedFour(v: nat)
    ensures Dropped(4, v) == v / TWO32
  {
    assert Dropped(2, v / 256 / 256) == v / 256 / 256 / 256 / 256;
  }

  lemma {:induction false} JoinedWords(j: nat, k: nat, v: nat, rest: nat)
    requires rest == Dropped(j, v)
    ensures LittleEndian(j + k, v) == LittleEndian(j, v) + LittleEndian(k, rest)
    decreases j
  {
    if j > 0 {
      JoinedWords(j - 1, k, v / 256, rest);
    }
  }

  function Dropped(j: nat, v: nat): nat
    decreases j
  {
    if j == 0 then v else Dropped(j - 1, v / 256)
  }

  // ---- The worker's code ----

  /** `DataView.setUint32`, low-order byte first. */
  method SetUint32(view: array<Byte>, at: nat, value: nat)
    requires at + 4 <= view.Length
    modifies view
    ensures view[..] == old(view[..at]) + LittleEndian(4, value) + old(view[at + 4..])
  {
    var bytes := LittleEndian(4, value);
    for k := 0 to 4
      invariant view[..] == old(view[..at]) + bytes[..k] + old(view[at + k..])
    {
      view[at + k] := bytes[k];
    }
  }

  method Pad(bytes: seq<Byte>) returns (padded: array<Byte>)
    requires |Padded(bytes)| < TWO31
    ensures fresh(padded) && padded[..] == Padded(bytes)
  {
    var n := |bytes|;
    PaddedLengthIff(n, |Padded(bytes)|);
    padded := new Byte[JsPaddedLength(n)](_ => 0);
    Set(padded, bytes);
    padded[n] := 0x80;
    ghost var front := bytes + [0x80] + Zeros(Gap(n));
    assert padded[..] == front + Zeros(8);
    WriteLength(padded, n, front);
  }

  method Set(padded: array<Byte>, bytes: seq<Byte>)
    requires |bytes| <= padded.Length
    modifies padded
    ensures forall j :: 0 <= j < padded.Length ==> padded[j] == if j < |bytes| then bytes[j] else old(padded[j])
  {
    for k := 0 to |bytes|
      invariant forall j :: 0 <= j < padded.Length ==> padded[j] == if j < k then bytes[j] else old(padded[j])
    {
      padded[k] := bytes[k];
    }
  }

  method WriteLength(padded: array<Byte>, n: nat, ghost front: seq<Byte>)
    requires padded[..] == front + Zeros(8)
    modifies padded
    ensures padded[..] == front + LittleEndian(8, 8 * n)
  {
    var at, bits := padded.Length - 8, 8 * n;
    ghost var low, high := LittleEndian(4, bits % TWO32), LittleEndian(4, bits / TWO32);
    assert padded[..at] == front;
    SetUint32(padded, at, bits % TWO32);
    assert padded[..at + 4] == front + low;
    SetUint32(padded, at + 4, bits / TWO32);
    LengthInTwoWords(bits);
    assert padded[..] == front + low + high;
  }

  function AsState(r: Registers): State {
    State(r[0], r[1], r[2], r[3])
  }

  method ReadWords(view: array<Byte>, offset: nat, words: array<Word>, ghost k: nat)
    requires offset == 64 * k && offset + 64 <= view.Length && words.Length == 16
    modifies words
    ensures words[..] == Block(old(view[..]), k)
  {
    ghost var text := view[..];
    for i := 0 to 16
      invariant forall j :: 0 <= j < i ==> words[j] == WordAt(text, 64 * k + 4 * j)
    {
      words[i] := GetUint32(view, offset + 4 * i);
    }
  }

  method GetUint32(view: array<Byte>, at: nat) returns (w: Word)
    requires at + 4 <= view.Length
    ensures w == WordAt(view[..], at)
  {
    var b0: int, b1: int, b2: int, b3: int := view[at], view[at + 1], view[at + 2], view[at + 3];
    w := b0 + 0x100 * b1 + 0x1_0000 * b2 + 0x100_0000 * b3;
  }

  method Rounds(table: seq<Word>, words: array<Word>, s: State) returns (t: State)
    requires |table| == 64 && words.Length == 16
    ensures t == JsSteps(table, words[..], |table|, s)
  {
    t := s;
    for i := 0 to |table|
      invariant t == JsSteps(table, words[..], i, s)
    {
      t := Round(table, words, i, t);
    }
  }

  method Round(table: seq<Word>, words: array<Word>, i: nat, s: State) returns (t: State)
    requires |table| == 64 && words.Length == 16 && i < 64
    ensures t == JsStep(table, words[..], i, s)
  {
    var A: int, B: int, C: int, D: int := s.A, s.B, s.C, s.D;
    var F := JsMix(i, B, C, D);
    var g := Index(i);
    var moved := Turn(F, A, B, words[g], table[i], JsShift(i));
    A := D;
    D := C;
    C := B;
    B := moved;
    t := State(A, B, C, D);
  }

  method Turn(F: int, A: Word, B: Word, word: Word, K: Word, shift: nat) returns (moved: Word)
    requires 0 < shift < 32
    ensures moved == JsTurn(F, A, B, word, K, shift)
  {
    var next := ToUint32(F + A + K + word);
    var rotated := JsRotate(next, shift);
    moved := ToUint32(B + rotated);
  }

  function Added(s: State, t: State): State {
    State(ToUint32(s.A + t.A), ToUint32(s.B + t.B), ToUint32(s.C + t.C), ToUint32(s.D + t.D))
  }

  lemma {:induction false} ViewAtStart(r: Registers)
    ensures View(0, r) == AsState(r) && View(64, r) == AsState(r)
  {
    assert First(0) == 0 && First(64) == 0;
  }

  lemma {:induction false} AddedAgrees(r: Registers, t: Registers)
    ensures Added(AsState(r), AsState(t)) == AsState(AddAll(r, t))
  {
  }

  /** One block added to the running state is one block of the standard. */
  lemma {:induction false} BlockAgrees(table: seq<Word>, x: seq<Word>, r: Registers)
    requires |table| == 64 && |x| == 16
    ensures Added(AsState(r), JsSteps(table, x, 64, AsState(r))) == AsState(AddAll(r, StandardSteps(table, x, |table|, r)))
  {
    StepsAgree(table, x, |table|, r);
    ViewAtStart(r);
    ViewAtStart(StandardSteps(table, x, |table|, r));
    AddedAgrees(r, StandardSteps(table, x, |table|, r));
  }

  lemma {:induction false} HashMore(table: seq<Word>, s: seq<Byte>, k: nat, r: Registers)
    requires |table| == 64 && 64 * k + 64 <= |s| && r == Hash(table, s, k)
    ensures Hash(table, s, k + 1) == AddAll(r, StandardSteps(table, Block(s, k), |table|, r))
  {
  }

  /** The digest of a text of bytes; too long a text is a range error. */
  method Md5Hex(table: seq<Word>, bytes: seq<Byte>) returns (r: Option<string>)
    requires |table| == 64
    ensures r.Some? <==> |Padded(bytes)| < TWO31
    ensures r.Some? ==> r.value == StandardDigest(table, bytes)
  {
    PaddedLengthIff(|bytes|, |Padded(bytes)|);
    if JsPaddedLength(|bytes|) < |bytes| {
      return None;
    }
    var padded := Pad(bytes);
    PaddingIsLeast(bytes);
    var s := HashAll(table, padded);
    var hex := HexText(s);
    return Some(hex);
  }

  method HashAll(table: seq<Word>, padded: array<Byte>) returns (s: State)
    requires |table| == 64 && padded.Length % 64 == 0
    ensures s == AsState(Hash(table, padded[..], padded.Length / 64))
  {
    ghost var k: nat := 0;
    var words := new Word[16];
    s := State(0x67452301, 0xefcdab89, 0x98badcfe, 0x10325476);
    StartAgrees();
    var offset := 0;
    while offset < padded.Length
      invariant offset == 64 * k && offset <= padded.Length
      invariant s == AsState(Hash(table, padded[..], k))
    {
      s := NextBlock(table, padded, offset, words, s, k);
      offset := offset + 64;
      k := k + 1;
    }
  }

  method NextBlock(table: seq<Word>, padded: array<Byte>, offset: nat, words: array<Word>, s: State, ghost k: nat)
    returns (t: State)
    requires |table| == 64 && words.Length == 16 && offset == 64 * k && offset + 64 <= padded.Length
    requires s == AsState(Hash(table, padded[..], k))
    modifies words
    ensures t == AsState(Hash(table, old(padded[..]), k + 1))
  {
    HashMore(table, padded[..], k, Hash(table, padded[..], k));
    t := OneBlock(table, padded, offset, words, s, Hash(table, padded[..], k), k);
  }

  method OneBlock(table: seq<Word>, padded: array<Byte>, offset: nat, words: array<Word>, s: State, ghost r: Registers, ghost k: nat)
    returns (t: State)
    requires |table| == 64 && words.Length == 16 && offset == 64 * k && offset + 64 <= padded.Length
    requires s == AsState(r)
    modifies words
    ensures t == AsState(AddAll(r, StandardSteps(table, Block(old(padded[..]), k), |table|, r)))
  {
    ghost var x := Block(padded[..], k);
    ReadWords(padded, offset, words, k);
    var u := Rounds(table, words, s);
    t := Added(s, u);
    BlockAgrees(table, x, r);
  }

  /** A byte of a word, as two hexadecimal digits. */
  function ByteText(word: Word, i: nat): string
    requires i < 4
  {
    ByteOfWord(word, i);
    var byte := JsAnd(JsShr(word, 8 * i), 0xff);
    if byte < 16 then "0" + [HexDigit(byte)] else [HexDigit(byte / 16), HexDigit(byte % 16)]
  }

  method HexText(s: State) returns (hex: string)
    ensures hex == HexOf(RegisterBytes([s.A, s.B, s.C, s.D]))
  {
    hex := "";
    var all: seq<Word> := [s.A, s.B, s.C, s.D];
    for k := 0 to 4
      invariant hex == HexOf(FirstBytes(all, k))
    {
      hex := AppendWord(hex, all[k], FirstBytes(all, k));
    }
    FourWords(all);
  }

  lemma {:induction false} FourWords(all: Registers)
    ensures FirstBytes(all, 4) == RegisterBytes(all)
  {
    assert FirstBytes(all, 1) == LittleEndian(4, all[0]);
    assert FirstBytes(all, 2) == LittleEndian(4, all[0]) + LittleEndian(4, all[1]);
  }

  method AppendWord(before: string, word: Word, ghost bytes: seq<Byte>) returns (hex: string)
    requires before == HexOf(bytes)
    ensures hex == HexOf(bytes + LittleEndian(4, word))
  {
    hex := before;
    ghost var all := LittleEndian(4, word);
    assert bytes + all[..0] == bytes;
    for i := 0 to 4
      invariant hex == HexOf(bytes + all[..i])
    {
      ByteTextIs(word, i, bytes, all);
      hex := hex + ByteText(word, i);
    }
    assert all[..4] == all;
  }

  lemma {:induction false} ByteTextIs(word: Word, i: nat, bytes: seq<Byte>, all: seq<Byte>)
    requires i < 4 && all == LittleEndian(4, word)
    ensures HexOf(bytes + all[..i + 1]) == HexOf(bytes + all[..i]) + ByteText(word, i)
  {
    TextOfByte(word, i, all[i]);
    HexMore(bytes + all[..i], all[i]);
    assert bytes + all[..i] + [all[i]] == bytes + all[..i + 1];
  }

  lemma {:induction false} TextOfByte(word: Word, i: nat, b: Byte)
    requires i < 4 && b == LittleEndian(4, word)[i]
    ensures ByteText(word, i) == [HexDigit(b / 16), HexDigit(b % 16)]
  {
    ByteOfWord(word, i);
  }

  function FirstBytes(words: seq<Word>, k: nat): seq<Byte>
    requires k <= |words|
  {
    if k == 0 then [] else FirstBytes(words, k - 1) + LittleEndian(4, words[k - 1])
  }

  lemma {:induction false} HexMore(bytes: seq<Byte>, b: Byte)
    ensures HexOf(bytes + [b]) == HexOf(bytes) + [HexDigit(b / 16), HexDigit(b % 16)]
  {
    assert (bytes + [b])[..|bytes|] == bytes;
  }

  lemma {:induction false} LowByte(n: nat)
    ensures Bits.And(n, 0xff) == n % 256
  {
    assert Bits.Pow2(8) == 256;
    Bits.LowMask(n, 8);
  }

  lemma {:induction false} ByteOfWord(word: Word, i: nat)
    requires i < 4
    ensures JsAnd(JsShr(word, 8 * i), 0xff) == LittleEndian(4, word)[i]
  {
    SignedIsSame(word);
    ShrBytes(word, i);
    MaskedByte(Bits.Shr(word, 8 * i));
  }

  lemma {:induction false} MaskedByte(n: nat)
    requires n < TWO32
    ensures JsAnd(n, 0xff) == n % 256
  {
    SignedIsSame(n);
    LowByte(n);
  }

  lemma {:induction false} ShrBytes(word: Word, i: nat)
    requires i < 4
    ensures Bits.Shr(word, 8 * i) < TWO32 && Bits.Shr(word, 8 * i) % 256 == LittleEndian(4, word)[i]
  {
    FourBytes(word);
    ShrByte(word, 0);
    ShrByte(word / 256, 0);
    ShrByte(word / 256 / 256, 0);
    if i > 0 { ShrByte(word, 8 * i - 8); }
    if i > 1 { ShrByte(word / 256, 8 * i - 16); }
    if i > 2 { ShrByte(word / 256 / 256, 8 * i - 24); }
  }

  lemma {:induction false} ShrByte(n: nat, k: nat)
    ensures Bits.Shr(n, 8 + k) == Bits.Shr(n / 256, k) && Bits.Shr(n, 0) == n
  {
    HalfEight(n);
    assert Bits.Shr(n, 8 + k) == Bits.Shr(n / 2 / 2, 6 + k);
    assert Bits.Shr(n / 2 / 2, 6 + k) == Bits.Shr(n / 2 / 2 / 2 / 2, 4 + k);
    assert Bits.Shr(n / 2 / 2 / 2 / 2, 4 + k) == Bits.Shr(n / 2 / 2 / 2 / 2 / 2 / 2, 2 + k);
  }

  lemma {:induction false} HalfEight(n: nat)
    ensures n / 2 / 2 / 2 / 2 / 2 / 2 / 2 / 2 == n / 256
  {
  }
}
