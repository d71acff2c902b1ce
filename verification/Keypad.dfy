/** What the Pi's gate takes for the typed PIN, told from the keys pressed. */
module Keypad {
  import opened Base
  import opened Text
  import opened GateModel

  /** `*` and `#` both leave nothing typed. */
  predicate Ends(input: Input) {
    input.Key? && (input.key == 10 || input.key == 11)
  }

  /** When a key was last pressed. */
  function LastKey(inputs: seq<Input>): Option<int> {
    if inputs == [] then None
    else
      var last := inputs[|inputs| - 1];
      if last.Key? then Some(last.at) else LastKey(inputs[..|inputs| - 1])
  }

  /** The time out has passed between the last key and a time. */
  predicate TimedOut(t: Timings, inputs: seq<Input>, at: int) {
    LastKey(inputs).Some? && at - LastKey(inputs).value > t.pinTimeoutMs
  }

  predicate Pauses(t: Timings, inputs: seq<Input>, i: nat)
    requires i < |inputs|
  {
    inputs[i].Key? && TimedOut(t, inputs[..i], inputs[i].at)
  }

  /** From input `k` on, and from no input before, no key clears or submits and no pause is too long. */
  ghost predicate IsStart(t: Timings, inputs: seq<Input>, k: nat) {
    && k <= |inputs|
    && (forall i :: k <= i < |inputs| ==> !Ends(inputs[i]))
    && (forall i :: k < i < |inputs| ==> !Pauses(t, inputs, i))
    && (k == 0 || Ends(inputs[k - 1]) || (k < |inputs| && Pauses(t, inputs, k)))
  }

  /** The digits pressed. */
  function DigitsOf(inputs: seq<Input>): string {
    if inputs == [] then ""
    else
      var last := inputs[|inputs| - 1];
      DigitsOf(inputs[..|inputs| - 1]) + (if last.Key? && last.key <= 9 then Decimal(last.key) else "")
  }

  function First(s: string): string {
    if |s| <= 12 then s else s[..12]
  }

  lemma {:induction false} LastKeyIsKept(t: Timings, inputs: seq<Input>)
    ensures After(CLOSED, t, inputs).lastKeyAt == LastKey(inputs)
  {
    if inputs != [] { LastKeyIsKept(t, inputs[..|inputs| - 1]); }
  }

  lemma DigitIsOne(key: nat)
    requires key <= 9
    ensures |Decimal(key)| == 1
  {
  }

  lemma FirstOfMore(s: string, digit: string)
    requires |digit| == 1
    ensures First(s + digit) == if |First(s)| < MAX_PIN then First(s) + digit else First(s)
  {
  }

  lemma EndLeavesNothing(g: Gate, t: Timings, input: Input)
    requires Ends(input)
    ensures Next(g, t, input).typed == ""
  {
  }

  lemma OthersLeaveTyped(g: Gate, t: Timings, input: Input)
    requires !input.Key?
    ensures Next(g, t, input).typed == g.typed
  {
  }

  lemma KeyAdds(g: Gate, t: Timings, input: Input, s: string)
    requires input.Key? && !Ends(input) && TypedBefore(g, t, input.at) == First(s)
    ensures Next(g, t, input).typed == First(s + (if input.key <= 9 then Decimal(input.key) else ""))
  {
    if input.key <= 9 {
      DigitIsOne(input.key);
      FirstOfMore(s, Decimal(input.key));
    } else {
      assert s + "" == s;
    }
  }

  lemma {:induction false} StartOfFront(t: Timings, inputs: seq<Input>, k: nat)
    requires IsStart(t, inputs, k) && k < |inputs| && (k == |inputs| - 1 ==> !Pauses(t, inputs, k))
    ensures IsStart(t, inputs[..|inputs| - 1], k)
  {
    var front := inputs[..|inputs| - 1];
    forall i | k <= i < |front| ensures !Ends(front[i]) && (i > k ==> !Pauses(t, front, i)) {
      assert front[i] == inputs[i] && front[..i] == inputs[..i];
      assert Pauses(t, front, i) == Pauses(t, inputs, i);
    }
    if k < |front| { assert front[..k] == inputs[..k]; }
  }

  /** In every run what is typed is the first twelve digits pressed since the last `*`, `#` or pause. */
  lemma {:induction false} TypedIsFirstDigits(t: Timings, inputs: seq<Input>, k: nat)
    requires IsStart(t, inputs, k)
    ensures After(CLOSED, t, inputs).typed == First(DigitsOf(inputs[k..]))
  {
    if inputs != [] {
      var n: nat := |inputs| - 1;
      var front, last := inputs[..n], inputs[n];
      var g := After(CLOSED, t, front);
      LastKeyIsKept(t, front);
      if k == |inputs| {
        EndLeavesNothing(g, t, last);
      } else {
        assert inputs[k..][..n - k] == front[k..];
        if k == n && Pauses(t, inputs, k) {
          assert front[k..] == [];
          KeyAdds(g, t, last, "");
        } else {
          assert !Pauses(t, inputs, n);
          StartOfFront(t, inputs, k);
          TypedIsFirstDigits(t, front, k);
          if last.Key? { KeyAdds(g, t, last, DigitsOf(front[k..])); } else { OthersLeaveTyped(g, t, last); }
        }
      }
    }
  }

  lemma {:induction false} SomeStart(t: Timings, inputs: seq<Input>) returns (k: nat)
    ensures IsStart(t, inputs, k)
  {
    if inputs == [] {
      k := 0;
    } else {
      var n: nat := |inputs| - 1;
      if Ends(inputs[n]) {
        k := |inputs|;
      } else if Pauses(t, inputs, n) {
        k := n;
      } else {
        k := SomeStart(t, inputs[..n]);
        forall i | k <= i < n ensures !Ends(inputs[i]) && (i > k ==> !Pauses(t, inputs, i)) {
          assert inputs[..n][i] == inputs[i] && inputs[..n][..i] == inputs[..i];
          assert Pauses(t, inputs[..n], i) == Pauses(t, inputs, i);
        }
        if k < n { assert inputs[..n][..k] == inputs[..k]; }
        if k > 0 { assert inputs[..n][k - 1] == inputs[k - 1]; }
      }
    }
  }

  /**
   * The PIN that `#` submits in any run is the first twelve digits pressed since the last `*`, `#` or
   * pause, and nothing when the pause before `#` is itself too long.
   */
  lemma SubmittedIsFirstDigits(t: Timings, inputs: seq<Input>, at: int) returns (k: nat)
    ensures IsStart(t, inputs, k)
    ensures TypedBefore(After(CLOSED, t, inputs), t, at) == if TimedOut(t, inputs, at) then "" else First(DigitsOf(inputs[k..]))
  {
    k := SomeStart(t, inputs);
    LastKeyIsKept(t, inputs);
    TypedIsFirstDigits(t, inputs, k);
  }
}
