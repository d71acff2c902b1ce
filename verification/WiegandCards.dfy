/** Cards and keys from the lines: every length of frame, and the pulses of a card as one frame. */
module WiegandCards {
  import opened Base
  import opened Bits
  import opened Text
  import opened Wiegand

  // ---- Every length of frame ----

  /** With its parity bit, an encoding has evenly many ones in its leading half and oddly many in its trailing half. */
  lemma EncodedHalves(value: nat, half: nat, count: nat)
    requires half >= 12 && count == 2 * half + 2 && value < Pow2(count - 2)
    ensures Popcount(Shr(Encode(value, count), half + 1)) % 2 == 0 && Popcount(Low(Encode(value, count), half + 1)) % 2 == 1
  {
    EncodeParts(value, half, count);
    EncodedParity(Encode(value, count), value, half, count);
  }

  lemma EncodedParity(bits: nat, value: nat, half: nat, count: nat)
    requires half >= 12 && count == 2 * half + 2 && bits == Encode(value, count) && bits < Pow2(count) && Data(bits, half) == value
    ensures Popcount(Shr(bits, half + 1)) % 2 == 0 && Popcount(Low(bits, half + 1)) % 2 == 1
  {
    ParityHoldsIffEncoded(bits, half);
    ParityByHalves(bits, half);
  }

  lemma LowFour(bits: nat)
    ensures And(bits, 15) == bits % 16
  {
    assert Pow2(4) == 16;
    LowMask(bits, 4);
  }

  lemma ShrFour(bits: nat)
    ensures Shr(bits, 4) == bits / 16
  {
    assert Shr(bits, 4) == Shr(bits / 2 / 2, 2);
  }

  /** Four bits are the key; eight are the key behind its complement, and nothing else of that length is a key. */
  lemma KeysRead(bits: nat, count: nat, key: nat)
    ensures count == 4 && bits < 16 ==> (DecodeWiegand(bits, count) == KeyFrame(key) <==> bits == key)
    ensures count == 8 && bits < 256 ==>
      (DecodeWiegand(bits, count) == KeyFrame(key) <==> key <= 15 && bits == 16 * (15 - key) + key)
  {
    LowFour(bits);
    if count == 8 { KeyOfEight(bits, count, key); }
  }

  lemma KeyOfEight(bits: nat, count: nat, key: nat)
    requires count == 8
    ensures bits < 256 ==> (DecodeWiegand(bits, count) == KeyFrame(key) <==> key <= 15 && bits == 16 * (15 - key) + key)
  {
    var low, high := And(bits, 15), And(Shr(bits, 4), 15);
    EightHalves(bits, low, high);
    if bits < 256 {
      EightBits(bits, key, high, low);
      assert DecodeWiegand(bits, count) == CheckedKey(low, high);
    }
  }

  lemma EightHalves(bits: nat, low: nat, high: nat)
    requires low == And(bits, 15) && high == And(Shr(bits, 4), 15)
    ensures low == bits % 16 && high == bits / 16 % 16
  {
    LowFour(bits);
    LowFour(Shr(bits, 4));
    ShrFour(bits);
  }

  lemma EightBits(bits: nat, key: nat, high: nat, low: nat)
    requires bits < 256 && low == bits % 16 && high == bits / 16 % 16
    ensures CheckedKey(low, high) == KeyFrame(key) <==> key <= 15 && bits == 16 * (15 - key) + key
  {
  }

  /** Frames of the other lengths up to 64 are read as the number between their first and last bits, unchecked. */
  lemma UncheckedFrames(lead: nat, value: nat, trail: nat, count: nat)
    requires 26 <= count <= 64 && !CardLength(count) && lead <= 1 && trail <= 1 && value < Pow2(count - 2)
    ensures DecodeWiegand(lead * Pow2(count - 1) + 2 * value + trail, count) == CardFrame(Decimal(value))
  {
    var p, bits := Pow2(count - 2), lead * Pow2(count - 1) + 2 * value + trail;
    assert Pow2(count - 1) == 2 * p;
    BuiltParts(bits, lead, value, trail, p);
    ShrIsDiv(bits / 2, count - 2);
    QuotientIsUnique(Shr(bits / 2, count - 2), Low(bits / 2, count - 2), lead, value, p);
    LowMaskIsOnes(bits / 2, count - 2);
    assert Shr(bits, 1) == Shr(bits / 2, 0);
  }

  /** Every other number of bits is an error. */
  lemma OtherLengths(bits: nat, count: nat)
    requires count !in {4, 8} && (count < 26 || count > 64)
    ensures DecodeWiegand(bits, count).ErrorFrame?
  {
  }

  // ---- From a card held at the reader to its number ----

  /** Once the line has been quiet for longer than the gap, every run of pulses has been handed out, in order. */
  lemma QuietHandsOutAll(signals: seq<Signal>, gap: int)
    requires InOrder(signals) && gap >= 0 && signals != [] && signals[|signals| - 1].Tick?
    requires var edges := Pulses(signals); edges != [] ==> TimeOf(signals[|signals| - 1]) - edges[|edges| - 1].at > gap
    ensures After(signals, gap).frames == Frames(Runs(Pulses(signals), gap))
  {
    FramesAreRuns(signals, gap);
    var edges, at, r := Pulses(signals), TimeOf(signals[|signals| - 1]), After(signals, gap);
    PolledTwice(After(signals[..|signals| - 1], gap), gap, at);
    if r.count > 0 { assert false; }
  }

  lemma PolledTwice(r: Reader, gap: int, at: int)
    ensures var q := Polled(r, gap, at); q.count > 0 && q.lastAt.Some? ==> at - q.lastAt.value <= gap
  {
  }

  lemma {:induction false} CloseIsOneRun(edges: seq<Edge>, gap: int)
    requires Close(edges, gap)
    ensures Runs(edges, gap) == [edges]
  {
    var n := |edges| - 1;
    if n > 0 {
      CloseIsOneRun(edges[..n], gap);
      assert edges == edges[..n] + [edges[n]];
    } else {
      assert edges == [edges[0]] && edges[..0] == [];
    }
  }

  /** The lines carry a number's bits, highest first: a pulse on the second line for a one. */
  ghost predicate Carries(run: seq<Edge>, n: nat) {
    forall i :: 0 <= i < |run| ==> (run[i].one <==> Bit(n, |run| - 1 - i) == 1)
  }

  lemma {:induction false} CarriedIsRead(run: seq<Edge>, n: nat)
    requires |run| <= 64 && n < Pow2(|run|) && Carries(run, n)
    ensures BitsOf(run) == n
    decreases |run|
  {
    if run != [] {
      var k := |run| - 1;
      forall i | 0 <= i < k ensures run[..k][i].one <==> Bit(n / 2, k - 1 - i) == 1 {
        assert Bit(n, k - i) == Bit(n / 2, k - 1 - i);
      }
      CarriedIsRead(run[..k], n / 2);
      assert Bit(n, 0) == n % 2;
    }
  }

  /**
   * From the lines to the number: pulses that carry a card's encoding, none further apart than the gap, and
   * then a look at the clock after a longer pause, give exactly that card.
   */
  lemma CardIsRead(run: seq<Edge>, value: nat, gap: int, at: int, signals: seq<Signal>)
    requires CardLength(|run|) && value < Pow2(|run| - 2) && Carries(run, Encode(value, |run|))
    requires gap >= 0 && Close(run, gap) && at - run[|run| - 1].at > gap
    requires InOrder(signals) && signals != [] && signals[|signals| - 1] == Tick(at) && Pulses(signals) == run
    ensures After(signals, gap).frames == [CardFrame(Decimal(value))]
  {
    QuietHandsOutAll(signals, gap);
    CloseIsOneRun(run, gap);
    RunIsCard(run, value, |run|);
    FramesMore([], run);
    assert [] + [run] == [run] && Frames([]) == [];
  }

  lemma RunIsCard(run: seq<Edge>, value: nat, count: nat)
    requires CardLength(count) && |run| == count && value < Pow2(count - 2) && Carries(run, Encode(value, count))
    ensures FrameOf(run) == CardFrame(Decimal(value))
  {
    EncodeParts(value, HalfOf(count), count);
    CarriedIsRead(run, Encode(value, count));
    EncodedFrameDecodes(value, count);
  }
}
