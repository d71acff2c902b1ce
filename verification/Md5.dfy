/** The worker's MD5: JavaScript numbers and 32-bit operators, against sections 3.1 to 3.5 of RFC 1321. */
module Md5 {
  import opened Base
  import opened Packing
  import Bits

  const TWO32: int := 0x1_0000_0000
  const TWO31: int := 0x8000_0000

  type Word = w: int | 0 <= w < 0x1_0000_0000

  // ---- Words, and the operations of the standard ----

  lemma {:induction false} TwoTo32()
    ensures Bits.Pow2(32) == TWO32
  {
    assert Bits.Pow2(8) == 256;
    PowersMultiply(8, 8);
    PowersMultiply(16, 16);
  }

  lemma {:induction false} PowersMultiply(j: nat, k: nat)
    ensures Bits.Pow2(j + k) == Bits.Pow2(j) * Bits.Pow2(k)
    decreases j
  {
    if j > 0 {
      PowersMultiply(j - 1, k);
      assert 2 * (Bits.Pow2(j - 1) * Bits.Pow2(k)) == (2 * Bits.Pow2(j - 1)) * Bits.Pow2(k);
    }
  }

  lemma {:induction false} WordsStayWords(x: Word, y: Word)
    ensures Bits.And(x, y) < TWO32 && Bits.Or(x, y) < TWO32 && Bits.Xor(x, y) < TWO32
  {
    TwoTo32();
    Bits.BitwiseInRange(x, y, 32);
  }

  function And(x: Word, y: Word): Word { WordsStayWords(x, y); Bits.And(x, y) }

  function Or(x: Word, y: Word): Word { WordsStayWords(x, y); Bits.Or(x, y) }

  function Xor(x: Word, y: Word): Word { WordsStayWords(x, y); Bits.Xor(x, y) }

  function Not(x: Word): Word { TWO32 - 1 - x }

  function Plus(x: Word, y: Word): Word { (x + y) % TWO32 }

  /** A circular shift: the low bits move up, and the bits that leave at the top come in at the bottom. */
  function RotateLeft(x: Word, s: nat): Word
    requires 0 < s < 32
  {
    CutWord(x, s);
    Bits.Shl(Bits.Low(x, 32 - s), s) + Bits.Shr(x, 32 - s)
  }

  // ---- The operators of JavaScript on numbers ----

  function ToUint32(x: int): Word { x % TWO32 }

  function Signed(w: Word): int { if w < TWO31 then w else w - TWO32 }

  function JsAnd(x: int, y: int): int { Signed(And(ToUint32(x), ToUint32(y))) }

  function JsOr(x: int, y: int): int { Signed(Or(ToUint32(x), ToUint32(y))) }

  function JsXor(x: int, y: int): int { Signed(Xor(ToUint32(x), ToUint32(y))) }

  function JsNot(x: int): int { Signed(Not(ToUint32(x))) }

  function JsShl(x: int, s: nat): int { Signed(ToUint32(Bits.Shl(ToUint32(x), s))) }

  function JsShr(x: int, s: nat): nat { Bits.Shr(ToUint32(x), s) }

  lemma {:induction false} SignedIsSame(w: Word)
    ensures ToUint32(Signed(w)) == w && ToUint32(w) == w && -TWO31 <= Signed(w) < TWO31
  {
  }

  // ---- The standard: four registers, of which each step changes the next one round ----

  /** The shifts of section 3.4: four in each round, over and over. */
  function Shift(i: nat): (s: nat)
    requires i < 64
    ensures 0 < s < 32
  {
    var column := i % 4;
    if i < 16 then (if column == 0 then 7 else if column == 1 then 12 else if column == 2 then 17 else 22)
    else if i < 32 then (if column == 0 then 5 else if column == 1 then 9 else if column == 2 then 14 else 20)
    else if i < 48 then (if column == 0 then 4 else if column == 1 then 11 else if column == 2 then 16 else 23)
    else (if column == 0 then 6 else if column == 1 then 10 else if column == 2 then 15 else 21)
  }

  /** The word each step of section 3.4 uses, as listed there round by round. */
  function Order(i: nat): (k: nat)
    requires i < 64
    ensures k < 16
  {
    if i < 16 then i else if i < 32 then Order2(i - 16) else if i < 48 then Order3(i - 32) else Order4(i - 48)
  }

  function Order2(j: nat): (k: nat)
    requires j < 16
    ensures k < 16
  {
    match j
    case 0 => 1 case 1 => 6 case 2 => 11 case 3 => 0 case 4 => 5 case 5 => 10 case 6 => 15 case 7 => 4
    case 8 => 9 case 9 => 14 case 10 => 3 case 11 => 8 case 12 => 13 case 13 => 2 case 14 => 7 case _ => 12
  }

  function Order3(j: nat): (k: nat)
    requires j < 16
    ensures k < 16
  {
    match j
    case 0 => 5 case 1 => 8 case 2 => 11 case 3 => 14 case 4 => 1 case 5 => 4 case 6 => 7 case 7 => 10
    case 8 => 13 case 9 => 0 case 10 => 3 case 11 => 6 case 12 => 9 case 13 => 12 case 14 => 15 case _ => 2
  }

  function Order4(j: nat): (k: nat)
    requires j < 16
    ensures k < 16
  {
    match j
    case 0 => 0 case 1 => 7 case 2 => 14 case 3 => 5 case 4 => 12 case 5 => 3 case 6 => 10 case 7 => 1
    case 8 => 8 case 9 => 15 case 10 => 6 case 11 => 13 case 12 => 4 case 13 => 11 case 14 => 2 case _ => 9
  }

  /** F, G, H and I of section 3.4. */
  function Mix(i: nat, x: Word, y: Word, z: Word): Word {
    if i < 16 then Or(And(x, y), And(Not(x), z))
    else if i < 32 then Or(And(x, z), And(y, Not(z)))
    else if i < 48 then Xor(Xor(x, y), z)
    else Xor(y, Or(x, Not(z)))
  }

  type Registers = r: seq<Word> | |r| == 4 witness [0, 0, 0, 0]

  /** Steps are written [ABCD], [DABC], [CDAB], [BCDA] and again from the first. */
  function First(i: nat): nat {
    (4 - i % 4) % 4
  }

  /** a = b + ((a + F(b,c,d) + X[k] + T[i]) <<< s) */
  function StandardValue(i: nat, a: Word, b: Word, c: Word, d: Word, word: Word, constant: Word): Word
    requires i < 64
  {
    StandardTurn(Mix(i, b, c, d), a, b, word, constant, Shift(i))
  }

  function StandardTurn(f: Word, a: Word, b: Word, word: Word, constant: Word, shift: nat): Word
    requires 0 < shift < 32
  {
    Plus(b, RotateLeft(Plus(Plus(Plus(a, f), word), constant), shift))
  }

  function StandardStep(table: seq<Word>, x: seq<Word>, i: nat, r: Registers): Registers
    requires |table| == 64 && |x| == 16 && i < 64
  {
    var p := First(i);
    r[p := StandardValue(i, r[p], r[(p + 1) % 4], r[(p + 2) % 4], r[(p + 3) % 4], x[Order(i)], table[i])]
  }

  function StandardSteps(table: seq<Word>, x: seq<Word>, n: nat, r: Registers): Registers
    requires |table| == 64 && |x| == 16 && n <= 64
    decreases n, 1, |table|
  {
    if n == 0 then r else LastStep(table, x, n, r)
  }

  function LastStep(table: seq<Word>, x: seq<Word>, n: nat, r: Registers): Registers
    requires |table| == 64 && |x| == 16 && 0 < n <= 64
    decreases n, 0, |table|
  {
    StandardStep(table, x, n - 1, StandardSteps(table, x, n - 1, r))
  }

  // ---- The worker's loop: four variables that change places ----

  datatype State = State(A: Word, B: Word, C: Word, D: Word)

  /** The worker's flat table of 64 shifts, sixteen on a line. */
  function JsShift(i: nat): (s: nat)
    requires i < 64
    ensures 0 < s < 32
  {
    if i < 16 then JsLine1(i) else if i < 32 then JsLine2(i - 16) else if i < 48 then JsLine3(i - 32) else JsLine4(i - 48)
  }

  function JsLine1(j: nat): (s: nat)
    requires j < 16
    ensures 0 < s < 32
  {
    match j
    case 0 => 7 case 1 => 12 case 2 => 17 case 3 => 22 case 4 => 7 case 5 => 12 case 6 => 17 case 7 => 22
    case 8 => 7 case 9 => 12 case 10 => 17 case 11 => 22 case 12 => 7 case 13 => 12 case 14 => 17 case _ => 22
  }

  function JsLine2(j: nat): (s: nat)
    requires j < 16
    ensures 0 < s < 32
  {
    match j
    case 0 => 5 case 1 => 9 case 2 => 14 case 3 => 20 case 4 => 5 case 5 => 9 case 6 => 14 case 7 => 20
    case 8 => 5 case 9 => 9 case 10 => 14 case 11 => 20 case 12 => 5 case 13 => 9 case 14 => 14 case _ => 20
  }

  function JsLine3(j: nat): (s: nat)
    requires j < 16
    ensures 0 < s < 32
  {
    match j
    case 0 => 4 case 1 => 11 case 2 => 16 case 3 => 23 case 4 => 4 case 5 => 11 case 6 => 16 case 7 => 23
    case 8 => 4 case 9 => 11 case 10 => 16 case 11 => 23 case 12 => 4 case 13 => 11 case 14 => 16 case _ => 23
  }

  function JsLine4(j: nat): (s: nat)
    requires j < 16
    ensures 0 < s < 32
  {
    match j
    case 0 => 6 case 1 => 10 case 2 => 15 case 3 => 21 case 4 => 6 case 5 => 10 case 6 => 15 case 7 => 21
    case 8 => 6 case 9 => 10 case 10 => 15 case 11 => 21 case 12 => 6 case 13 => 10 case 14 => 15 case _ => 21
  }

  function JsMix(i: nat, B: Word, C: Word, D: Word): int {
    if i < 16 then JsOr(JsAnd(B, C), JsAnd(JsNot(B), D))
    else if i < 32 then JsOr(JsAnd(D, B), JsAnd(JsNot(D), C))
    else if i < 48 then JsXor(JsXor(B, C), D)
    else JsXor(C, JsOr(B, JsNot(D)))
  }

  function Index(i: nat): (k: nat)
    requires i < 64
    ensures k < 16
  {
    if i < 16 then i else if i < 32 then (5 * i + 1) % 16 else if i < 48 then (3 * i + 5) % 16 else 7 * i % 16
  }

  function JsRotate(next: Word, shift: nat): Word
    requires 0 < shift < 32
  {
    ToUint32(JsOr(JsShl(next, shift), JsShr(next, 32 - shift)))
  }

  function JsValue(i: nat, s: State, word: Word, constant: Word): Word
    requires i < 64
  {
    JsTurn(JsMix(i, s.B, s.C, s.D), s.A, s.B, word, constant, JsShift(i))
  }

  function JsTurn(f: int, a: Word, b: Word, word: Word, constant: Word, shift: nat): Word
    requires 0 < shift < 32
  {
    var next := ToUint32(f + a + constant + word);
    ToUint32(b + JsRotate(next, shift))
  }

  function JsStep(table: seq<Word>, words: seq<Word>, i: nat, s: State): State
    requires |table| == 64 && |words| == 16 && i < 64
  {
    State(s.D, JsValue(i, s, words[Index(i)], table[i]), s.B, s.C)
  }

  function JsSteps(table: seq<Word>, words: seq<Word>, n: nat, s: State): State
    requires |table| == 64 && |words| == 16 && n <= 64
  {
    if n == 0 then s else JsStep(table, words, n - 1, JsSteps(table, words, n - 1, s))
  }

  // ---- One step of each ----

  lemma {:induction false} SecondOrder(j: nat)
    requires j < 16
    ensures (5 * (16 + j) + 1) % 16 == Order2(j)
  {
  }

  lemma {:induction false} ThirdOrder(j: nat)
    requires j < 16
    ensures (3 * (32 + j) + 5) % 16 == Order3(j)
  {
  }

  lemma {:induction false} FourthOrder(j: nat)
    requires j < 16
    ensures 7 * (48 + j) % 16 == Order4(j)
  {
  }

  /** The index formulas of the loop give the order listed in the standard. */
  lemma {:induction false} IndexIsOrder(i: nat)
    requires i < 64
    ensures Index(i) == Order(i)
  {
    if 16 <= i < 32 { SecondOrder(i - 16); }
    else if 32 <= i < 48 { ThirdOrder(i - 32); }
    else if 48 <= i { FourthOrder(i - 48); }
  }

  /** The worker's flat table of shifts is the standard's list at every step. */
  lemma {:induction false} ShiftsAgree(i: nat)
    requires i < 64
    ensures JsShift(i) == Shift(i)
  {
    if i < 16 { FirstLine(i); } else if i < 32 { SecondLine(i - 16); } else if i < 48 { ThirdLine(i - 32); } else { FourthLine(i - 48); }
  }

  lemma {:induction false} FirstLine(j: nat)
    requires j < 16
    ensures JsLine1(j) == Shift(j)
  {
  }

  lemma {:induction false} SecondLine(j: nat)
    requires j < 16
    ensures JsLine2(j) == Shift(16 + j)
  {
  }

  lemma {:induction false} ThirdLine(j: nat)
    requires j < 16
    ensures JsLine3(j) == Shift(32 + j)
  {
  }

  lemma {:induction false} FourthLine(j: nat)
    requires j < 16
    ensures JsLine4(j) == Shift(48 + j)
  {
  }

  // ---- The operations, bit by bit ----

  lemma {:induction false} NotIsBitwise(x: Word, k: nat)
    requires k < 32
    ensures Bits.Bit(Not(x), k) == 1 - Bits.Bit(x, k)
  {
    TwoTo32();
    Bits.BitOfComplement(x, k, 32);
  }

  /** Bit `k` of a word is bit `k + s` of the word shifted round by `s`, counting on from the lowest after the highest. */
  lemma {:induction false} RotateMovesBits(x: Word, s: nat, k: nat)
    requires 0 < s < 32 && k < 32
    ensures Bits.Bit(RotateLeft(x, s), (k + s) % 32) == Bits.Bit(x, k)
  {
    CutWord(x, s);
    Bits.BitOfRotated(x, 32 - s, s, k);
    Around(k, s);
  }

  lemma {:induction false} Around(k: nat, s: nat)
    requires 0 < s < 32 && k < 32
    ensures (k + s) % 32 == if k < 32 - s then k + s else k - (32 - s)
  {
  }

  /** A word cut in two above its low `k` bits. */
  lemma {:induction false} CutWord(x: Word, s: nat)
    requires 0 < s < 32
    ensures var top, low := Bits.Shr(x, 32 - s), Bits.Low(x, 32 - s);
            && top < Bits.Pow2(s) && Bits.Shl(low, s) + top < TWO32
            && Bits.Shl(x, s) == top * TWO32 + Bits.Shl(low, s)
  {
    var top, low, k := Bits.Shr(x, 32 - s), Bits.Low(x, 32 - s), 32 - s;
    TwoTo32();
    PowersMultiply(k, s);
    Bits.ShrIsDiv(x, k);
    ShiftedParts(x, top, low, Bits.Pow2(k), Bits.Pow2(s));
  }

  lemma {:induction false} ShiftedParts(x: nat, top: nat, low: nat, p: nat, q: nat)
    requires x == top * p + low && low < p && x < p * q
    ensures top < q && low * q + top < p * q && x * q == top * (p * q) + low * q
  {
    AtMost(q, top, p);
    AtMost(low + 1, p, q);
    assert (low + 1) * q == low * q + q;
    assert x * q == (top * p) * q + low * q;
    assert (top * p) * q == top * (p * q);
  }

  lemma {:induction false} AtMost(a: nat, b: nat, p: nat)
    ensures a <= b ==> a * p <= b * p
  {
    if a <= b { assert b * p == a * p + (b - a) * p; }
  }

  lemma {:induction false} ShlIsLow(x: Word, s: nat)
    requires 0 < s < 32
    ensures ToUint32(Bits.Shl(x, s)) == Bits.Shl(Bits.Low(x, 32 - s), s)
  {
    CutWord(x, s);
    ModOfSum(Bits.Shr(x, 32 - s), Bits.Shl(Bits.Low(x, 32 - s), s));
  }

  lemma {:induction false} ModOfSum(k: int, r: int)
    requires 0 <= r < TWO32
    ensures (k * TWO32 + r) % TWO32 == r
  {
  }

  /** Shifting both ways and joining, with JavaScript's signed results, is the circular shift of the standard. */
  lemma {:induction false} JsRotateIsRotation(x: Word, s: nat)
    requires 0 < s < 32
    ensures JsRotate(x, s) == RotateLeft(x, s)
  {
    var low, top := Bits.Low(x, 32 - s), Bits.Shr(x, 32 - s);
    ShlIsLow(x, s);
    CutWord(x, s);
    Bits.OrIsSum(low, top, s);
    SignedIsSame(x);
    JsOrOfWords(Bits.Shl(low, s), top);
  }

  lemma {:induction false} JsOrOfWords(x: Word, y: nat)
    requires y < TWO32
    ensures ToUint32(JsOr(Signed(x), y)) == Or(x, y)
  {
    SignedIsSame(x);
    SignedIsSame(y);
    SignedIsSame(Or(x, y));
  }

  lemma {:induction false} JsOperators(x: Word, y: Word, a: int, b: int)
    requires ToUint32(a) == x && ToUint32(b) == y
    ensures ToUint32(JsAnd(a, b)) == And(x, y) && ToUint32(JsOr(a, b)) == Or(x, y)
    ensures ToUint32(JsXor(a, b)) == Xor(x, y) && ToUint32(JsNot(a)) == Not(x)
  {
    SignedIsSame(And(x, y));
    SignedIsSame(Or(x, y));
    SignedIsSame(Xor(x, y));
    SignedIsSame(Not(x));
  }

  lemma {:induction false} SelectAgrees(x: Word, y: Word, z: Word)
    ensures ToUint32(JsOr(JsAnd(x, y), JsAnd(JsNot(x), z))) == Or(And(x, y), And(Not(x), z))
  {
    SignedIsSame(x);
    SignedIsSame(y);
    SignedIsSame(z);
    JsOperators(x, y, x, y);
    JsOperators(Not(x), z, JsNot(x), z);
    JsOperators(And(x, y), And(Not(x), z), JsAnd(x, y), JsAnd(JsNot(x), z));
  }

  lemma {:induction false} LastMixAgrees(x: Word, y: Word, z: Word)
    ensures ToUint32(JsXor(y, JsOr(x, JsNot(z)))) == Xor(y, Or(x, Not(z)))
  {
    SignedIsSame(x);
    SignedIsSame(y);
    SignedIsSame(z);
    JsOperators(z, z, z, z);
    JsOperators(x, Not(z), x, JsNot(z));
    JsOperators(y, Or(x, Not(z)), y, JsOr(x, JsNot(z)));
  }

  lemma {:induction false} XorAgrees(x: Word, y: Word, z: Word)
    ensures ToUint32(JsXor(JsXor(x, y), z)) == Xor(Xor(x, y), z)
  {
    SignedIsSame(x);
    SignedIsSame(y);
    SignedIsSame(z);
    JsOperators(x, y, x, y);
    JsOperators(Xor(x, y), z, JsXor(x, y), z);
  }

  /** The signed result of each round's operators is the word that F, G, H or I gives. */
  lemma {:induction false} MixAgrees(i: nat, x: Word, y: Word, z: Word)
    ensures ToUint32(JsMix(i, x, y, z)) == Mix(i, x, y, z)
  {
    SelectAgrees(x, y, z);
    SelectAgrees(z, x, y);
    Bits.AndOrCommute(z, x);
    Bits.AndOrCommute(Not(z), y);
    XorAgrees(x, y, z);
    LastMixAgrees(x, y, z);
  }

  lemma {:induction false} MixIsSigned(i: nat, x: Word, y: Word, z: Word)
    ensures -TWO31 <= JsMix(i, x, y, z) < TWO31
  {
  }

  /** The largest integer up to which a double holds every integer. */
  const EXACT: int := 0x20_0000_0000_0000

  lemma {:induction false} SumIsModular(f: int, a: Word, k: Word, m: Word)
    requires -TWO31 <= f < TWO31
    ensures -EXACT < f + a + k + m < EXACT
    ensures ToUint32(f + a + k + m) == Plus(Plus(Plus(a, ToUint32(f)), m), k)
  {
    ModPlus(f, a);
    ModPlus(f + a, m);
    ModPlus(f + a + m, k);
  }

  lemma {:induction false} ModPlus(x: int, y: int)
    ensures (x % TWO32 + y) % TWO32 == (x + y) % TWO32
  {
    var q := x / TWO32;
    assert x + y == q * TWO32 + (x % TWO32 + y);
    ModShift(q, x % TWO32 + y);
  }

  lemma {:induction false} ModShift(k: int, n: int)
    ensures (k * TWO32 + n) % TWO32 == n % TWO32
  {
  }

  /** The loop's variables, read from the registers of the standard: they have moved round by one a step. */
  function View(i: nat, r: Registers): State {
    var p := First(i);
    State(r[p], r[(p + 1) % 4], r[(p + 2) % 4], r[(p + 3) % 4])
  }

  lemma {:induction false} ValuesAgree(i: nat, s: State, word: Word, constant: Word)
    requires i < 64
    ensures JsValue(i, s, word, constant) == StandardValue(i, s.A, s.B, s.C, s.D, word, constant)
  {
    var f := JsMix(i, s.B, s.C, s.D);
    MixAgrees(i, s.B, s.C, s.D);
    MixIsSigned(i, s.B, s.C, s.D);
    ShiftsAgree(i);
    RoundAgrees(f, s.A, s.B, word, constant, Shift(i));
  }

  lemma {:induction false} RoundAgrees(f: int, a: Word, b: Word, word: Word, constant: Word, s: nat)
    requires -TWO31 <= f < TWO31 && 0 < s < 32
    ensures JsTurn(f, a, b, word, constant, s) == StandardTurn(ToUint32(f), a, b, word, constant, s)
  {
    SumIsModular(f, a, constant, word);
    JsRotateIsRotation(ToUint32(f + a + constant + word), s);
  }

  lemma {:induction false} StepAgrees(table: seq<Word>, x: seq<Word>, i: nat, r: Registers)
    requires |table| == 64 && |x| == 16 && i < 64
    ensures JsStep(table, x, i, View(i, r)) == View(i + 1, StandardStep(table, x, i, r))
  {
    var p := First(i);
    IndexIsOrder(i);
    ValuesAgree(i, View(i, r), x[Order(i)], table[i]);
    ViewMoves(i, p, r, StandardStep(table, x, i, r)[p]);
  }

  lemma {:induction false} ViewMoves(i: nat, p: nat, r: Registers, value: Word)
    requires p == First(i)
    ensures View(i + 1, r[p := value]) == State(r[(p + 3) % 4], value, r[(p + 1) % 4], r[(p + 2) % 4])
  {
    assert First(i + 1) == (p + 3) % 4;
  }

  /** After any number of steps, the loop that moves its variables holds what the standard's registers hold. */
  lemma {:induction false} StepsAgree(table: seq<Word>, x: seq<Word>, n: nat, r: Registers)
    requires |table| == 64 && |x| == 16 && n <= 64
    ensures JsSteps(table, x, n, View(0, r)) == View(n, StandardSteps(table, x, n, r))
  {
    if n > 0 {
      StepsAgree(table, x, n - 1, r);
      StepAgrees(table, x, n - 1, StandardSteps(table, x, n - 1, r));
    }
  }
}
