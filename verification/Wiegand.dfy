/** The Pi's Wiegand reader: pulses into frames, frames into cards and keys. */
module Wiegand {
  import opened Base
  import opened Bits
  import opened Text
  import opened CardNumber

  datatype Frame = KeyFrame(key: nat) | CardFrame(card: string) | ErrorFrame(error: string)

  // ---- Decoding ----

  function HalfOf(count: nat): nat
    requires count >= 2
  {
    (count - 2) / 2
  }

  /** Even parity over the leading half with its bit, odd parity over the trailing half with its bit. */
  predicate ParityHolds(bits: nat, count: nat)
    requires count >= 26
  {
    var half := HalfOf(count);
    var firstMask := Shl(Shl(1, half + 1) - 1, count - half - 1);
    var secondMask := Shl(1, half + 1) - 1;
    Popcount(And(bits, firstMask)) % 2 == 0 && Popcount(And(bits, secondMask)) % 2 == 1
  }

  function CheckedKey(low: nat, high: nat): Frame {
    if 15 - high != low then ErrorFrame("8-bit key failed its complement check") else KeyFrame(low)
  }

  function DecodeWiegand(bits: nat, count: nat): Frame {
    if count == 4 then KeyFrame(And(bits, 15))
    else if count == 8 then CheckedKey(And(bits, 15), And(Shr(bits, 4), 15))
    else DecodeCard(bits, count)
  }

  function DecodeCard(bits: nat, count: nat): Frame {
    if count < 26 || count > 64 then ErrorFrame("unsupported " + Decimal(count) + "-bit frame")
    else if (count == 26 || count == 34) && !ParityHolds(bits, count) then
      ErrorFrame(Decimal(count) + "-bit card failed its parity check")
    else CardFrame(Decimal(And(Shr(bits, 1), Shl(1, count - 2) - 1)))
  }

  // ---- The frames a reader sends for a card ----

  /** The value between a leading even-parity bit and a trailing odd-parity bit. */
  function Encode(value: nat, count: nat): nat
    requires count >= 2
  {
    var half := HalfOf(count);
    var lead := Popcount(Shr(value, half)) % 2;
    var trail := 1 - Popcount(Low(value, half)) % 2;
    lead * Pow2(count - 1) + 2 * value + trail
  }

  lemma MaskIsOnes(bits: nat, k: nat, s: nat)
    ensures And(bits, Shl(Shl(1, k) - 1, s)) == Shl(Low(Shr(bits, s), k), s)
  {
    AndMask(bits, k, s);
  }

  lemma LowMaskIsOnes(bits: nat, k: nat)
    ensures And(bits, Shl(1, k) - 1) == Low(bits, k)
  {
    MaskIsOnes(bits, k, 0);
    assert Shl(Shl(1, k) - 1, 0) == Shl(1, k) - 1;
    assert Shl(Low(bits, k), 0) == Low(bits, k);
  }

  lemma {:induction false} LowWithinLow(n: nat, a: nat, b: nat)
    requires a <= b && n < Pow2(b)
    ensures Low(Shr(n, a), b - a) == Shr(n, a)
    decreases a
  {
    if a == 0 { LowOfSmall(n, b); } else { LowWithinLow(n / 2, a - 1, b - 1); }
  }

  lemma {:induction false} ShrMore(n: nat, a: nat, b: nat)
    ensures Shr(n, a + b) == Shr(Shr(n, a), b)
    decreases a
  {
    if a > 0 { ShrMore(n / 2, a - 1, b); }
  }

  lemma {:induction false} LowMore(n: nat, a: nat, b: nat)
    ensures Shr(Low(n, a + b), a) == Low(Shr(n, a), b)
    ensures Low(Low(n, a + b), a) == Low(n, a)
    decreases a
  {
    if a > 0 {
      LowMore(n / 2, a - 1, b);
      var l := Low(n / 2, a + b - 1);
      assert (n % 2 + 2 * l) / 2 == l && (n % 2 + 2 * l) % 2 == n % 2;
    } else {
      assert Low(n, b) == Shr(Low(n, b), 0);
    }
  }

  /** The check looks at the two halves of a frame of `2 * half + 2` bits. */
  lemma ParityByHalves(bits: nat, half: nat)
    requires 2 * half + 2 >= 26 && bits < Pow2(2 * half + 2)
    ensures ParityHolds(bits, 2 * half + 2)
        <==> Popcount(Shr(bits, half + 1)) % 2 == 0 && Popcount(Low(bits, half + 1)) % 2 == 1
  {
    var h, count := half + 1, 2 * half + 2;
    assert HalfOf(count) == half && count - half - 1 == h && count - h == h;
    MaskIsOnes(bits, h, h);
    PopcountShl(Low(Shr(bits, h), h), h);
    LowWithinLow(bits, h, count);
    LowMaskIsOnes(bits, h);
  }

  /** The leading bit of a frame, and the data between its two parity bits. */
  function Lead(bits: nat, half: nat): nat {
    Shr(bits / 2, half + half)
  }

  function Data(bits: nat, half: nat): nat {
    Low(bits / 2, half + half)
  }

  lemma FrameParts(bits: nat, half: nat)
    requires bits < Pow2(2 * half + 2)
    ensures bits == Lead(bits, half) * Pow2(2 * half + 1) + 2 * Data(bits, half) + bits % 2
    ensures Lead(bits, half) <= 1 && Data(bits, half) < Pow2(2 * half)
  {
    ShrIsDiv(bits / 2, half + half);
    PartsOf(bits, Lead(bits, half), Data(bits, half), Pow2(half + half));
  }

  lemma PartsOf(bits: nat, lead: nat, data: nat, p: nat)
    requires bits / 2 == lead * p + data && bits < 4 * p
    ensures bits == lead * (2 * p) + 2 * data + bits % 2 && lead <= 1
  {
    assert lead * (2 * p) == 2 * (lead * p);
    QuotientBelow(lead, data, p, 2);
  }

  lemma QuotientBelow(q: nat, l: nat, p: nat, bound: nat)
    requires q * p + l < bound * p
    ensures q < bound
  {
    if q >= bound { MulMono(bound, q, p); }
  }

  lemma QuotientIsUnique(q: nat, l: nat, q': nat, l': nat, p: nat)
    requires l < p && l' < p && q * p + l == q' * p + l'
    ensures q == q' && l == l'
  {
    if q < q' { assert (q + 1) * p == q * p + p; MulMono(q + 1, q', p); }
    if q > q' { assert (q' + 1) * p == q' * p + p; MulMono(q' + 1, q, p); }
  }

  lemma DataIsMasked(bits: nat, half: nat)
    ensures And(Shr(bits, 1), Shl(1, 2 * half) - 1) == Data(bits, half)
  {
    LowMaskIsOnes(bits / 2, 2 * half);
    assert Shr(bits, 1) == Shr(bits / 2, 0);
  }

  /** The halves of a frame are its parity bits with the halves of its data. */
  lemma HalvesOfFrame(bits: nat, half: nat)
    requires bits < Pow2(2 * half + 2)
    ensures Popcount(Shr(bits, half + 1)) == Lead(bits, half) + Popcount(Shr(Data(bits, half), half))
    ensures Popcount(Low(bits, half + 1)) == bits % 2 + Popcount(Low(Data(bits, half), half))
  {
    UpperHalf(bits, half);
    LowMore(bits / 2, half, half);
    PopcountStep(bits % 2, Low(bits / 2, half));
  }

  lemma UpperHalf(bits: nat, half: nat)
    requires bits < Pow2(2 * half + 2)
    ensures Popcount(Shr(bits, half + 1)) == Lead(bits, half) + Popcount(Shr(Data(bits, half), half))
  {
    FrameParts(bits, half);
    ShrMore(bits / 2, half, half);
    LowMore(bits / 2, half, half);
    PopcountSplit(Shr(bits, half + 1), half);
    BitCounts(Lead(bits, half));
  }

  lemma BitCounts(bit: nat)
    requires bit <= 1
    ensures Popcount(bit) == bit
  {
    assert bit == 0 || bit == 1;
  }

  lemma PartsAreUnique(a: nat, b: nat, c: nat, d: nat, data: nat, p: nat)
    requires a <= 1 && b <= 1 && c <= 1 && d <= 1 && p > 1
    ensures a * p + 2 * data + b == c * p + 2 * data + d <==> a == c && b == d
  {
  }

  lemma ParityOfSum(a: nat, x: nat, b: nat, y: nat)
    requires a <= 1 && b <= 1
    ensures (a + x) % 2 == 0 && (b + y) % 2 == 1 <==> a == x % 2 && b == 1 - y % 2
  {
  }

  /** The check holds exactly for the frames that the encoding of their own data gives. */
  lemma ParityHoldsIffEncoded(bits: nat, half: nat)
    requires 2 * half + 2 >= 26 && bits < Pow2(2 * half + 2)
    ensures ParityHolds(bits, 2 * half + 2) <==> bits == Encode(Data(bits, half), 2 * half + 2)
  {
    ParityByHalves(bits, half);
    HalvesOfFrame(bits, half);
    FrameParts(bits, half);
    var data := Data(bits, half);
    var x, y := Popcount(Shr(data, half)), Popcount(Low(data, half));
    ParityOfSum(Lead(bits, half), x, bits % 2, y);
    PartsAreUnique(Lead(bits, half), bits % 2, x % 2, 1 - y % 2, data, Pow2(2 * half + 1));
    assert HalfOf(2 * half + 2) == half;
  }

  lemma EncodeParts(value: nat, half: nat, count: nat)
    requires count == 2 * half + 2 && value < Pow2(count - 2)
    ensures Encode(value, count) < Pow2(count)
    ensures Data(Encode(value, count), half) == value
  {
    var p := Pow2(2 * half);
    assert HalfOf(2 * half + 2) == half;
    var lead, trail := Popcount(Shr(value, half)) % 2, 1 - Popcount(Low(value, half)) % 2;
    var bits := Encode(value, 2 * half + 2);
    assert Pow2(2 * half + 1) == 2 * p && Pow2(2 * half + 2) == 4 * p;
    BuiltParts(bits, lead, value, trail, p);
    ShrIsDiv(bits / 2, 2 * half);
    QuotientIsUnique(Shr(bits / 2, 2 * half), Low(bits / 2, 2 * half), lead, value, p);
  }

  lemma BuiltParts(bits: nat, lead: nat, value: nat, trail: nat, p: nat)
    requires lead <= 1 && trail <= 1 && value < p && bits == lead * (2 * p) + 2 * value + trail
    ensures bits / 2 == lead * p + value && bits < 4 * p
  {
    assert lead == 0 || lead == 1;
  }

  // ---- Main results about frames ----

  predicate CardLength(count: nat) {
    count == 26 || count == 34
  }

  /** A frame with parity is read as a card exactly when it is the encoding of that card's number. */
  lemma ReadsExactlyEncodings(bits: nat, count: nat, value: nat)
    requires CardLength(count) && bits < Pow2(count) && value < Pow2(count - 2)
    ensures DecodeWiegand(bits, count) == CardFrame(Decimal(value)) <==> bits == Encode(value, count)
  {
    var half := HalfOf(count);
    assert count == 2 * half + 2;
    ParityHoldsIffEncoded(bits, half);
    DecodedCard(bits, half);
    EncodeParts(value, half, count);
    DecimalIsShortest(Data(bits, half));
    DecimalIsShortest(value);
  }

  lemma DecodedCard(bits: nat, half: nat)
    requires CardLength(2 * half + 2)
    ensures DecodeWiegand(bits, 2 * half + 2).CardFrame? <==> ParityHolds(bits, 2 * half + 2)
    ensures ParityHolds(bits, 2 * half + 2) ==> DecodeWiegand(bits, 2 * half + 2) == CardFrame(Decimal(Data(bits, half)))
  {
    DataIsMasked(bits, half);
  }

  lemma EncodedFrameDecodes(value: nat, count: nat)
    requires CardLength(count) && value < Pow2(count - 2)
    ensures DecodeWiegand(Encode(value, count), count) == CardFrame(Decimal(value))
  {
    assert count == 2 * HalfOf(count) + 2;
    EncodeParts(value, HalfOf(count), count);
    ReadsExactlyEncodings(Encode(value, count), count, value);
  }

  lemma FlipBreaksParity(bits: nat, half: nat, i: nat)
    requires 2 * half + 2 >= 26 && bits < Pow2(2 * half + 2) && i < 2 * half + 2 && ParityHolds(bits, 2 * half + 2)
    ensures !ParityHolds(Flip(bits, i), 2 * half + 2)
  {
    FlipStaysInFrame(bits, 2 * half + 2, i);
    ParityByHalves(bits, half);
    ParityByHalves(Flip(bits, i), half);
    if i < half + 1 {
      FlipBelow(bits, half + 1, i);
      FlipChangesParity(Low(bits, half + 1), i);
    } else {
      FlipAbove(bits, half + 1, i);
      FlipChangesParity(Shr(bits, half + 1), i - (half + 1));
    }
  }

  /** Any one wrong bit in such a frame is noticed. */
  lemma SingleBitErrorIsRejected(value: nat, count: nat, i: nat)
    requires CardLength(count) && value < Pow2(count - 2) && i < count
    ensures DecodeWiegand(Flip(Encode(value, count), i), count).ErrorFrame?
  {
    var half := HalfOf(count);
    assert count == 2 * half + 2;
    EncodeParts(value, half, count);
    ParityHoldsIffEncoded(Encode(value, count), half);
    FlipBreaksParity(Encode(value, count), half, i);
    DecodedCard(Flip(Encode(value, count), i), half);
    NeverAKey(Flip(Encode(value, count), i), count);
  }

  lemma NeverAKey(bits: nat, count: nat)
    requires CardLength(count)
    ensures !DecodeWiegand(bits, count).KeyFrame?
  {
  }

  lemma FlipStaysInFrame(bits: nat, count: nat, i: nat)
    requires bits < Pow2(count) && i < count
    ensures Flip(bits, i) < Pow2(count)
  {
    FlipBelow(bits, count, i);
    LowOfSmall(bits, count);
    ShrIsDiv(Flip(bits, i), count);
  }

  /** From the card to the cache: the frame of a number finds exactly the stored texts of the same value. */
  lemma FrameFindsStoredNumber(value: nat, count: nat, stored: string)
    requires CardLength(count) && value < Pow2(count - 2)
    ensures DecodeWiegand(Encode(value, count), count).CardFrame?
    ensures CardNumberKey(DecodeWiegand(Encode(value, count), count).card) == CardNumberKey(stored)
        <==> Digits(Head(SkipSpaces(stored))) && Value(Head(SkipSpaces(stored))) == value
  {
    EncodedFrameDecodes(value, count);
    ReaderNumberIsItsKey(value);
    ReaderFindsByValue(stored, value);
  }

  // ---- Pulses into frames ----

  datatype Edge = Edge(one: bool, at: int)

  /** The first 64 pulses of a run as a number, first pulse highest. */
  function BitsOf(run: seq<Edge>): nat {
    if run == [] then 0
    else if |run| > 64 then BitsOf(run[..|run| - 1])
    else BitsOf(run[..|run| - 1]) * 2 + (if run[|run| - 1].one then 1 else 0)
  }

  function CountOf(run: seq<Edge>): nat {
    if |run| <= 255 then |run| else 255
  }

  function FrameOf(run: seq<Edge>): Frame {
    DecodeWiegand(BitsOf(run), CountOf(run))
  }

  /** The pulses cut wherever the line was quiet for more than the gap. */
  function Runs(edges: seq<Edge>, gap: int): seq<seq<Edge>> {
    if edges == [] then []
    else
      var front, e := edges[..|edges| - 1], edges[|edges| - 1];
      var runs := Runs(front, gap);
      if runs == [] || e.at - front[|front| - 1].at > gap then runs + [[e]]
      else runs[..|runs| - 1] + [runs[|runs| - 1] + [e]]
  }

  function Frames(runs: seq<seq<Edge>>): seq<Frame> {
    seq(|runs|, i requires 0 <= i < |runs| => FrameOf(runs[i]))
  }

  /** What reaches a reader: a pulse on one of its lines, or a look at the clock. */
  datatype Signal = Pulse(edge: Edge) | Tick(at: int)

  function TimeOf(s: Signal): int {
    match s
    case Pulse(e) => e.at
    case Tick(at) => at
  }

  function Pulses(signals: seq<Signal>): seq<Edge> {
    if signals == [] then []
    else
      var front, last := Pulses(signals[..|signals| - 1]), signals[|signals| - 1];
      if last.Pulse? then front + [last.edge] else front
  }

  datatype Reader = Reader(bits: nat, count: nat, lastAt: Option<int>, frames: seq<Frame>)

  const IDLE := Reader(0, 0, None, [])

  function Polled(r: Reader, gap: int, at: int): Reader {
    if r.count == 0 || r.lastAt.None? || at - r.lastAt.value <= gap then r
    else Reader(0, 0, None, r.frames + [DecodeWiegand(r.bits, r.count)])
  }

  function Pushed(r: Reader, gap: int, e: Edge): Reader {
    var q := if r.count > 0 && r.lastAt.Some? && e.at - r.lastAt.value > gap then Polled(r, gap, e.at) else r;
    Reader(if q.count < 64 then q.bits * 2 + (if e.one then 1 else 0) else q.bits,
           if q.count < 255 then q.count + 1 else q.count, Some(e.at), q.frames)
  }

  function After(signals: seq<Signal>, gap: int): Reader {
    if signals == [] then IDLE
    else
      var r := After(signals[..|signals| - 1], gap);
      match signals[|signals| - 1]
      case Pulse(e) => Pushed(r, gap, e)
      case Tick(at) => Polled(r, gap, at)
  }

  class WiegandReader {
    const gapMs: int
    var bits: nat
    var count: nat
    var lastAt: Option<int>
    /** What the callback has been given, in order. */
    var frames: seq<Frame>

    ghost function State(): Reader
      reads this
    {
      Reader(bits, count, lastAt, frames)
    }

    constructor (gapMs: int)
      ensures this.gapMs == gapMs && State() == IDLE
    {
      this.gapMs := gapMs;
      bits, count, lastAt, frames := 0, 0, None, [];
    }

    method Push(e: Edge)
      modifies this
      ensures State() == Pushed(old(State()), gapMs, e)
    {
      if count > 0 && lastAt.Some? && e.at - lastAt.value > gapMs {
        var closed := Poll(e.at);
      }
      if count < 64 {
        bits := bits * 2 + (if e.one then 1 else 0);
      }
      if count < 255 {
        count := count + 1;
      }
      lastAt := Some(e.at);
    }

    method Poll(at: int) returns (frame: Option<Frame>)
      modifies this
      ensures State() == Polled(old(State()), gapMs, at)
      ensures frames == old(frames) + (if frame.Some? then [frame.value] else [])
    {
      if count == 0 || lastAt.None? || at - lastAt.value <= gapMs {
        return None;
      }
      var decoded := DecodeWiegand(bits, count);
      bits, count, lastAt := 0, 0, None;
      frames := frames + [decoded];
      return Some(decoded);
    }
  }

  predicate InOrder(signals: seq<Signal>) {
    forall i, j :: 0 <= i < j < |signals| ==> TimeOf(signals[i]) <= TimeOf(signals[j])
  }

  /** Every pulse so far is in an emitted frame, or in the one run still open. */
  ghost predicate Assembled(r: Reader, edges: seq<Edge>, gap: int, now: int) {
    var runs := Runs(edges, gap);
    if r.count == 0 then
      r.bits == 0 && r.lastAt == None && r.frames == Frames(runs) && (edges != [] ==> now - edges[|edges| - 1].at > gap)
    else
      && edges != [] && runs != [] && r.lastAt == Some(edges[|edges| - 1].at)
      && r.frames == Frames(runs[..|runs| - 1])
      && r.bits == BitsOf(runs[|runs| - 1]) && r.count == CountOf(runs[|runs| - 1])
  }

  lemma FramesMore(runs: seq<seq<Edge>>, run: seq<Edge>)
    ensures Frames(runs + [run]) == Frames(runs) + [FrameOf(run)]
  {
  }

  lemma PollAssembles(r: Reader, edges: seq<Edge>, gap: int, now: int, at: int)
    requires Assembled(r, edges, gap, now) && now <= at
    ensures Assembled(Polled(r, gap, at), edges, gap, at)
  {
    if r.count > 0 && at - r.lastAt.value > gap {
      var runs := Runs(edges, gap);
      FramesMore(runs[..|runs| - 1], runs[|runs| - 1]);
      assert runs == runs[..|runs| - 1] + [runs[|runs| - 1]];
    }
  }

  lemma RunsMore(edges: seq<Edge>, e: Edge, gap: int)
    ensures var runs := Runs(edges, gap);
      Runs(edges + [e], gap) == if runs == [] || e.at - edges[|edges| - 1].at > gap then runs + [[e]]
                                else runs[..|runs| - 1] + [runs[|runs| - 1] + [e]]
  {
    assert (edges + [e])[..|edges|] == edges;
  }

  lemma BitsMore(run: seq<Edge>, e: Edge)
    ensures BitsOf(run + [e]) == if |run| < 64 then BitsOf(run) * 2 + (if e.one then 1 else 0) else BitsOf(run)
    ensures CountOf(run + [e]) == if CountOf(run) < 255 then CountOf(run) + 1 else CountOf(run)
  {
    assert (run + [e])[..|run|] == run;
  }

  lemma PulseOpens(r: Reader, edges: seq<Edge>, gap: int, now: int, e: Edge)
    requires Assembled(r, edges, gap, now) && now <= e.at && gap >= 0 && r.count == 0
    ensures Assembled(Pushed(r, gap, e), edges + [e], gap, e.at)
  {
    var runs := Runs(edges, gap);
    RunsMore(edges, e, gap);
    if edges == [] { assert runs == []; }
    var next := runs + [[e]];
    assert Runs(edges + [e], gap) == next;
    assert next[..|next| - 1] == runs && next[|next| - 1] == [e];
    OneBit(e);
    assert Pushed(r, gap, e) == Reader(BitsOf([e]), CountOf([e]), Some(e.at), Frames(runs));
  }

  lemma OneBit(e: Edge)
    ensures BitsOf([e]) == (if e.one then 1 else 0) && CountOf([e]) == 1
  {
    assert [e][..0] == [];
  }

  lemma PulseJoins(r: Reader, edges: seq<Edge>, gap: int, now: int, e: Edge)
    requires Assembled(r, edges, gap, now) && r.count > 0 && e.at - r.lastAt.value <= gap
    ensures Assembled(Pushed(r, gap, e), edges + [e], gap, e.at)
  {
    var runs := Runs(edges, gap);
    var front, run := runs[..|runs| - 1], runs[|runs| - 1];
    RunsMore(edges, e, gap);
    BitsMore(run, e);
    assert (front + [run + [e]])[..|front|] == front;
  }

  /** A pulse opens a run after a frame was closed, and otherwise joins the open run. */
  lemma PulseAssembles(r: Reader, edges: seq<Edge>, gap: int, now: int, e: Edge)
    requires Assembled(r, edges, gap, now) && now <= e.at && gap >= 0
    requires r.count > 0 ==> e.at - r.lastAt.value <= gap
    ensures Assembled(Pushed(r, gap, e), edges + [e], gap, e.at)
  {
    if r.count == 0 { PulseOpens(r, edges, gap, now, e); } else { PulseJoins(r, edges, gap, now, e); }
  }

  lemma PushAssembles(r: Reader, edges: seq<Edge>, gap: int, now: int, e: Edge)
    requires Assembled(r, edges, gap, now) && now <= e.at && gap >= 0
    ensures Assembled(Pushed(r, gap, e), edges + [e], gap, e.at)
  {
    if r.count > 0 && e.at - r.lastAt.value > gap {
      PollAssembles(r, edges, gap, now, e.at);
      PulseAssembles(Polled(r, gap, e.at), edges, gap, e.at, e);
    } else {
      PulseAssembles(r, edges, gap, now, e);
    }
  }

  // ---- Main results about assembly ----

  /**
   * However polls interleave with pulses in time order, the frames are those of the runs of pulses
   * with gaps of at most `gap`; only the last run can still be open.
   */
  lemma {:induction false} FramesAreRuns(signals: seq<Signal>, gap: int)
    requires InOrder(signals) && gap >= 0 && signals != []
    ensures Assembled(After(signals, gap), Pulses(signals), gap, TimeOf(signals[|signals| - 1]))
  {
    var front, last := signals[..|signals| - 1], signals[|signals| - 1];
    if front != [] {
      FramesAreRuns(front, gap);
      var now := TimeOf(front[|front| - 1]);
      match last {
        case Pulse(e) => PushAssembles(After(front, gap), Pulses(front), gap, now, e);
        case Tick(at) => PollAssembles(After(front, gap), Pulses(front), gap, now, at);
      }
    } else if last.Pulse? {
      PushAssembles(IDLE, [], gap, last.edge.at, last.edge);
    }
  }

  function Flatten(runs: seq<seq<Edge>>): seq<Edge> {
    if runs == [] then [] else Flatten(runs[..|runs| - 1]) + runs[|runs| - 1]
  }

  ghost predicate Close(run: seq<Edge>, gap: int) {
    run != [] && forall i :: 0 < i < |run| ==> run[i].at - run[i - 1].at <= gap
  }

  /** Close runs that are apart from each other and together are the pulses. */
  ghost predicate Maximal(runs: seq<seq<Edge>>, edges: seq<Edge>, gap: int) {
    && Flatten(runs) == edges
    && (forall i :: 0 <= i < |runs| ==> Close(runs[i], gap))
    && (forall i :: 0 < i < |runs| ==> runs[i][0].at - runs[i - 1][|runs[i - 1]| - 1].at > gap)
  }

  lemma LastOfRuns(runs: seq<seq<Edge>>, edges: seq<Edge>, gap: int)
    requires Maximal(runs, edges, gap)
    ensures runs == [] <==> edges == []
    ensures runs != [] ==> runs[|runs| - 1] != [] && runs[|runs| - 1][|runs[|runs| - 1]| - 1] == edges[|edges| - 1]
  {
  }

  lemma OpenRun(runs: seq<seq<Edge>>, edges: seq<Edge>, gap: int, e: Edge)
    requires Maximal(runs, edges, gap) && (edges != [] ==> e.at - edges[|edges| - 1].at > gap)
    ensures Maximal(runs + [[e]], edges + [e], gap)
  {
    LastOfRuns(runs, edges, gap);
    assert (runs + [[e]])[..|runs|] == runs;
  }

  lemma JoinRun(runs: seq<seq<Edge>>, edges: seq<Edge>, gap: int, e: Edge)
    requires Maximal(runs, edges, gap) && edges != [] && e.at - edges[|edges| - 1].at <= gap && runs != []
    ensures Maximal(runs[..|runs| - 1] + [runs[|runs| - 1] + [e]], edges + [e], gap)
  {
    LastOfRuns(runs, edges, gap);
    var front, last := runs[..|runs| - 1], runs[|runs| - 1];
    var joined := front + [last + [e]];
    assert joined[..|front|] == front;
    assert Flatten(runs) == Flatten(front) + last;
    assert Flatten(joined) == Flatten(front) + (last + [e]);
    assert Close(last + [e], gap);
    assert (last + [e])[0] == last[0];
  }

  /** The runs are all of the pulses, cut exactly at the gaps: each run is close, and neighbours are apart. */
  lemma {:induction false} RunsAreMaximal(edges: seq<Edge>, gap: int)
    ensures Maximal(Runs(edges, gap), edges, gap)
  {
    if edges != [] {
      var front, e := edges[..|edges| - 1], edges[|edges| - 1];
      RunsAreMaximal(front, gap);
      LastOfRuns(Runs(front, gap), front, gap);
      assert edges == front + [e];
      if front == [] || e.at - front[|front| - 1].at > gap {
        OpenRun(Runs(front, gap), front, gap, e);
      } else {
        JoinRun(Runs(front, gap), front, gap, e);
      }
    }
  }
}
