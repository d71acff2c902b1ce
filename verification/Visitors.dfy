/** Visitor passes at a gate: who may enter with which PIN, and when. */
module Visitors {
  import opened Base
  import opened Text

  const DAY_SECONDS: int := 86400

  datatype Pass = Pass(employeeNo: string, pin: string, validFrom: int, validUntil: int)

  /** Passes in the order they were first stored; no two of one employee number. */
  ghost predicate Distinct(passes: seq<Pass>) {
    forall i, j :: 0 <= i < j < |passes| ==> passes[i].employeeNo != passes[j].employeeNo
  }

  predicate IsAlphanumeric(c: char) {
    'A' <= c <= 'Z' || 'a' <= c <= 'z' || '0' <= c <= '9'
  }

  predicate ValidEmployeeNo(text: string) {
    1 <= |text| <= 32 && forall i :: 0 <= i < |text| ==> IsAlphanumeric(text[i])
  }

  predicate Ended(p: Pass, now: int) {
    p.validUntil != 0 && p.validUntil < now - DAY_SECONDS
  }

  function Kept(passes: seq<Pass>, now: int): seq<Pass> {
    if passes == [] then []
    else (if Ended(passes[0], now) then [] else [passes[0]]) + Kept(passes[1..], now)
  }

  function Without(passes: seq<Pass>, employeeNo: string): seq<Pass> {
    if passes == [] then []
    else (if passes[0].employeeNo == employeeNo then [] else [passes[0]]) + Without(passes[1..], employeeNo)
  }

  function Find(passes: seq<Pass>, employeeNo: string): (i: nat)
    ensures i <= |passes|
    ensures i < |passes| ==> passes[i].employeeNo == employeeNo
    ensures forall j :: 0 <= j < i ==> passes[j].employeeNo != employeeNo
  {
    if passes == [] || passes[0].employeeNo == employeeNo then 0 else 1 + Find(passes[1..], employeeNo)
  }

  datatype Match = Match(employeeNo: Option<string>, reason: string)

  /** Why a pass with the right PIN is refused now, or that it is not. */
  function Verdict(p: Pass, now: int): string {
    if p.validFrom != 0 && now < p.validFrom then "credential_not_yet_valid"
    else if now >= p.validUntil then "credential_expired"
    else "authorised"
  }

  predicate Admits(p: Pass, pin: string, now: int) {
    p.pin == pin && (p.validFrom == 0 || p.validFrom <= now) && now < p.validUntil
  }

  ghost predicate FirstAdmitting(passes: seq<Pass>, pin: string, now: int, i: int) {
    0 <= i < |passes| && Admits(passes[i], pin, now) && forall j :: 0 <= j < i ==> !Admits(passes[j], pin, now)
  }

  /** The first pass that admits the PIN, or the last refusal. */
  function MatchFrom(passes: seq<Pass>, pin: string, now: int, refused: Match): Match {
    if passes == [] then refused
    else if passes[0].pin != pin then MatchFrom(passes[1..], pin, now, refused)
    else if Verdict(passes[0], now) == "authorised" then Match(Some(passes[0].employeeNo), "authorised")
    else MatchFrom(passes[1..], pin, now, Match(Some(passes[0].employeeNo), Verdict(passes[0], now)))
  }

  const UNKNOWN := Match(None, "unknown_credential")

  function MatchPin(passes: seq<Pass>, pin: string, now: int): Match {
    MatchFrom(passes, pin, now, UNKNOWN)
  }

  lemma SomeAdmits(passes: seq<Pass>, pin: string, now: int)
    requires passes != []
    ensures (exists i :: 0 <= i < |passes| && Admits(passes[i], pin, now))
        <==> Admits(passes[0], pin, now) || exists i :: 0 <= i < |passes[1..]| && Admits(passes[1..][i], pin, now)
  {
    if i :| 0 <= i < |passes[1..]| && Admits(passes[1..][i], pin, now) {
      assert Admits(passes[i + 1], pin, now);
    }
    assert forall i :: 0 < i < |passes| ==> passes[i] == passes[1..][i - 1];
  }

  lemma FirstInRest(passes: seq<Pass>, pin: string, now: int, i: int)
    requires i > 0 && FirstAdmitting(passes, pin, now, i)
    ensures FirstAdmitting(passes[1..], pin, now, i - 1) && passes[i] == passes[1..][i - 1] && !Admits(passes[0], pin, now)
  {
    forall j | 0 <= j < i - 1 ensures !Admits(passes[1..][j], pin, now) {
      assert passes[1..][j] == passes[j + 1];
    }
  }

  /** A PIN is admitted exactly while some pass with it is inside its window, and for the first such pass. */
  lemma {:induction false} AdmittedInsideWindow(passes: seq<Pass>, pin: string, now: int, refused: Match)
    requires refused.reason != "authorised"
    ensures MatchFrom(passes, pin, now, refused).reason == "authorised"
        <==> exists i :: 0 <= i < |passes| && Admits(passes[i], pin, now)
    ensures forall i :: FirstAdmitting(passes, pin, now, i) ==>
      MatchFrom(passes, pin, now, refused).employeeNo == Some(passes[i].employeeNo)
  {
    if passes != [] {
      SomeAdmits(passes, pin, now);
      forall i | i > 0 && FirstAdmitting(passes, pin, now, i)
        ensures FirstAdmitting(passes[1..], pin, now, i - 1) && passes[i] == passes[1..][i - 1] && !Admits(passes[0], pin, now)
      {
        FirstInRest(passes, pin, now, i);
      }
      if passes[0].pin != pin {
        AdmittedInsideWindow(passes[1..], pin, now, refused);
      } else if !Admits(passes[0], pin, now) {
        AdmittedInsideWindow(passes[1..], pin, now, Match(Some(passes[0].employeeNo), Verdict(passes[0], now)));
      }
    }
  }

  /** The last pass with the PIN. */
  ghost predicate LastWith(passes: seq<Pass>, pin: string, i: int) {
    0 <= i < |passes| && passes[i].pin == pin && forall j :: i < j < |passes| ==> passes[j].pin != pin
  }

  /** What a PIN is answered: the first pass that admits it, else why the last pass with it does not, else unknown. */
  ghost predicate Answers(passes: seq<Pass>, pin: string, now: int, m: Match) {
    && (m.reason == "authorised" <==> exists i :: 0 <= i < |passes| && Admits(passes[i], pin, now))
    && (forall i :: FirstAdmitting(passes, pin, now, i) ==> m.employeeNo == Some(passes[i].employeeNo))
    && (m.reason != "authorised" ==>
          && (forall i :: LastWith(passes, pin, i) ==>
                && m.employeeNo == Some(passes[i].employeeNo)
                && m.reason == if passes[i].validFrom <= now || passes[i].validFrom == 0 then "credential_expired" else "credential_not_yet_valid")
          && ((forall i :: 0 <= i < |passes| ==> passes[i].pin != pin) ==> m == Match(None, "unknown_credential")))
  }

  lemma {:induction false} RefusedByLast(passes: seq<Pass>, pin: string, now: int, refused: Match, i: int)
    requires refused.reason != "authorised" && MatchFrom(passes, pin, now, refused).reason != "authorised"
    requires LastWith(passes, pin, i)
    ensures MatchFrom(passes, pin, now, refused) == Match(Some(passes[i].employeeNo), Verdict(passes[i], now))
    decreases |passes|
  {
    var next := if passes[0].pin == pin then Match(Some(passes[0].employeeNo), Verdict(passes[0], now)) else refused;
    if i > 0 {
      RefusedByLast(passes[1..], pin, now, next, i - 1);
    } else {
      RefusedByNone(passes[1..], pin, now, next);
    }
  }

  lemma {:induction false} RefusedByNone(passes: seq<Pass>, pin: string, now: int, refused: Match)
    requires forall i :: 0 <= i < |passes| ==> passes[i].pin != pin
    ensures MatchFrom(passes, pin, now, refused) == refused
  {
    if passes != [] { RefusedByNone(passes[1..], pin, now, refused); }
  }

  lemma MatchAnswers(passes: seq<Pass>, pin: string, now: int, refused: Match)
    requires refused == UNKNOWN
    ensures Answers(passes, pin, now, MatchFrom(passes, pin, now, refused))
    ensures MatchFrom(passes, pin, now, refused).reason in
      {"authorised", "credential_expired", "credential_not_yet_valid", "unknown_credential"}
  {
    AdmittedInsideWindow(passes, pin, now, refused);
    var m := MatchFrom(passes, pin, now, refused);
    if m.reason != "authorised" {
      forall i | LastWith(passes, pin, i)
        ensures m == Match(Some(passes[i].employeeNo), Verdict(passes[i], now)) && Verdict(passes[i], now) != "authorised"
      {
        RefusedByLast(passes, pin, now, refused, i);
      }
      if forall i :: 0 <= i < |passes| ==> passes[i].pin != pin {
        RefusedByNone(passes, pin, now, refused);
      } else {
        var i := SomeLast(passes, pin);
      }
    }
  }

  lemma {:induction false} SomeLast(passes: seq<Pass>, pin: string) returns (i: int)
    requires exists j :: 0 <= j < |passes| && passes[j].pin == pin
    ensures LastWith(passes, pin, i)
  {
    var n := |passes| - 1;
    if passes[n].pin == pin {
      i := n;
    } else {
      i := SomeLast(passes[..n], pin);
    }
  }

  lemma {:induction false} WithoutHas(passes: seq<Pass>, employeeNo: string)
    ensures forall p :: p in Without(passes, employeeNo) <==> p in passes && p.employeeNo != employeeNo
    ensures |Without(passes, employeeNo)| <= |passes|
  {
    if passes != [] {
      WithoutHas(passes[1..], employeeNo);
      assert passes == [passes[0]] + passes[1..];
    }
  }

  lemma {:induction false} KeptHas(passes: seq<Pass>, now: int)
    ensures forall p :: p in Kept(passes, now) <==> p in passes && (p.validUntil == 0 || now <= p.validUntil + 86400)
    ensures |Kept(passes, now)| <= |passes|
  {
    if passes != [] {
      KeptHas(passes[1..], now);
      assert passes == [passes[0]] + passes[1..];
    }
  }

  /** Some passes from behind a pass are of other numbers than it. */
  lemma StaysDistinct(passes: seq<Pass>, some: seq<Pass>)
    requires Distinct(passes) && passes != [] && Distinct(some) && forall p :: p in some ==> p in passes[1..]
    ensures Distinct([passes[0]] + some)
  {
    forall i | 0 <= i < |some| ensures some[i].employeeNo != passes[0].employeeNo {
      assert some[i] in passes[1..];
    }
  }

  lemma {:induction false} WithoutIsGone(passes: seq<Pass>, employeeNo: string)
    requires Distinct(passes)
    ensures Distinct(Without(passes, employeeNo))
  {
    if passes != [] {
      WithoutIsGone(passes[1..], employeeNo);
      WithoutHas(passes[1..], employeeNo);
      StaysDistinct(passes, Without(passes[1..], employeeNo));
    }
  }

  lemma {:induction false} KeptAreCurrent(passes: seq<Pass>, now: int)
    requires Distinct(passes)
    ensures Distinct(Kept(passes, now)) && |Kept(passes, now)| <= |passes|
  {
    KeptHas(passes, now);
    if passes != [] {
      KeptAreCurrent(passes[1..], now);
      KeptHas(passes[1..], now);
      StaysDistinct(passes, Kept(passes[1..], now));
    }
  }

  lemma KeptStep(passes: seq<Pass>, i: nat, now: int)
    requires i < |passes|
    ensures Kept(passes[i..], now) == (if Ended(passes[i], now) then [] else [passes[i]]) + Kept(passes[i + 1..], now)
  {
    assert passes[i..][0] == passes[i] && passes[i..][1..] == passes[i + 1..];
  }

  lemma EndedIsRefused(p: Pass, now: int, later: int)
    requires Ended(p, now) && now <= later
    ensures Verdict(p, later) != "authorised"
  {
  }

  /**
   * Forgetting long-ended passes changes, then and ever after, neither who is admitted nor which pass
   * admits; only the reason for a refusal may change.
   */
  lemma {:induction false} PruningAdmitsTheSame(passes: seq<Pass>, now: int, pin: string, later: int, a: Match, b: Match)
    requires now <= later && a.reason != "authorised" && b.reason != "authorised"
    ensures var kept, all := MatchFrom(Kept(passes, now), pin, later, a), MatchFrom(passes, pin, later, b);
      kept == all || (kept.reason != "authorised" && all.reason != "authorised")
    decreases |passes|
  {
    if passes != [] {
      var p, rest := passes[0], passes[1..];
      var refused := Match(Some(p.employeeNo), Verdict(p, later));
      if Ended(p, now) {
        EndedIsRefused(p, now, later);
        assert Kept(passes, now) == Kept(rest, now);
        PruningAdmitsTheSame(rest, now, pin, later, a, if p.pin == pin then refused else b);
      } else {
        assert Kept(passes, now)[0] == p && Kept(passes, now)[1..] == Kept(rest, now);
        if p.pin != pin {
          PruningAdmitsTheSame(rest, now, pin, later, a, b);
        } else if Verdict(p, later) != "authorised" {
          PruningAdmitsTheSame(rest, now, pin, later, refused, refused);
        }
      }
    }
  }

  /** What pruning leaves: everything when the clock is not set. */
  function Current(passes: seq<Pass>, now: int): seq<Pass> {
    if now == 0 then passes else Kept(passes, now)
  }

  const NO_NUMBER := "operation has no valid visitor employee number"
  const PIN_LENGTH := "visitor PIN must be 4 to 8 digits"
  const PIN_DIGITS := "visitor PIN must be digits only"
  const NO_END := "visitor pass has no readable validUntil"
  const STORE_FULL := "this controller's visitor store is full"

  predicate Storable(employeeNo: string, pin: string, validUntil: int) {
    ValidEmployeeNo(employeeNo) && 4 <= |pin| <= 8 && AllDigits(pin) && validUntil != 0
  }

  predicate HasRoom(passes: seq<Pass>, maxVisitors: nat, employeeNo: string) {
    Find(passes, employeeNo) < |passes| || |passes| < maxVisitors
  }

  method KeepCurrent(passes: seq<Pass>, now: int) returns (kept: seq<Pass>)
    ensures kept == Kept(passes, now)
  {
    kept := [];
    for i := 0 to |passes|
      invariant kept + Kept(passes[i..], now) == Kept(passes, now)
    {
      KeptStep(passes, i, now);
      if !Ended(passes[i], now) {
        kept := kept + [passes[i]];
      }
    }
  }

  class VisitorStore {
    const maxVisitors: nat
    var passes: seq<Pass>

    ghost predicate Valid()
      reads this
    {
      Distinct(passes)
    }

    constructor (maxVisitors: nat)
      ensures this.maxVisitors == maxVisitors && passes == [] && Valid()
    {
      this.maxVisitors := maxVisitors;
      passes := [];
    }

    method Prune(now: int)
      requires Valid()
      modifies this`passes
      ensures Valid() && passes == Current(old(passes), now)
    {
      if now == 0 {
        return;
      }
      KeptAreCurrent(passes, now);
      passes := KeepCurrent(passes, now);
    }

    /** Stores a pass, or says why not; a pass already held is replaced where it stands. */
    method Upsert(employeeNo: string, pin: string, validFrom: int, validUntil: int, now: int) returns (error: Option<string>)
      requires Valid()
      modifies this`passes
      ensures Valid()
      ensures error.None? <==> Storable(employeeNo, pin, validUntil) && HasRoom(Current(old(passes), now), maxVisitors, employeeNo)
      ensures error.None? ==> passes == Placed(Current(old(passes), now), Pass(employeeNo, pin, validFrom, validUntil))
      ensures error.Some? ==> passes == if Storable(employeeNo, pin, validUntil) then Current(old(passes), now) else old(passes)
      ensures error == Some(NO_NUMBER) <==> !ValidEmployeeNo(employeeNo)
      ensures error == Some(PIN_LENGTH) <==> ValidEmployeeNo(employeeNo) && !(4 <= |pin| <= 8)
      ensures error == Some(PIN_DIGITS) <==> ValidEmployeeNo(employeeNo) && 4 <= |pin| <= 8 && !AllDigits(pin)
      ensures error == Some(NO_END) <==> ValidEmployeeNo(employeeNo) && 4 <= |pin| <= 8 && AllDigits(pin) && validUntil == 0
      ensures error.None? || error.value in {NO_NUMBER, PIN_LENGTH, PIN_DIGITS, NO_END, STORE_FULL}
      ensures old(|passes|) <= maxVisitors ==> |passes| <= maxVisitors
    {
      if !ValidEmployeeNo(employeeNo) { return Some(NO_NUMBER); }
      if |pin| < 4 || |pin| > 8 { return Some(PIN_LENGTH); }
      if !AllDigits(pin) { return Some(PIN_DIGITS); }
      if validUntil == 0 { return Some(NO_END); }
      Prune(now);
      KeptAreCurrent(old(passes), now);
      ghost var before := passes;
      var at := Find(passes, employeeNo);
      var pass := Pass(employeeNo, pin, validFrom, validUntil);
      PlacedIs(before, pass);
      if at < |passes| {
        passes := passes[at := pass];
        return None;
      }
      if |passes| >= maxVisitors { return Some(STORE_FULL); }
      passes := passes + [pass];
      return None;
    }

    method Revoke(employeeNo: string)
      requires Valid()
      modifies this`passes
      ensures Valid() && passes == Without(old(passes), employeeNo)
    {
      passes := Without(passes, employeeNo);
      WithoutIsGone(old(passes), employeeNo);
    }

    method Matching(pin: string, now: int) returns (m: Match)
      ensures m == MatchPin(passes, pin, now)
    {
      m := UNKNOWN;
      for i := 0 to |passes|
        invariant MatchFrom(passes[i..], pin, now, m) == MatchPin(passes, pin, now)
      {
        assert passes[i..][0] == passes[i] && passes[i..][1..] == passes[i + 1..];
        if passes[i].pin != pin { continue; }
        if passes[i].validFrom != 0 && now < passes[i].validFrom {
          m := Match(Some(passes[i].employeeNo), "credential_not_yet_valid");
          continue;
        }
        if now >= passes[i].validUntil {
          m := Match(Some(passes[i].employeeNo), "credential_expired");
          continue;
        }
        return Match(Some(passes[i].employeeNo), "authorised");
      }
    }
  }

  /** A pass put where its employee number stands, or at the end. */
  function Placed(passes: seq<Pass>, pass: Pass): seq<Pass> {
    var at := Find(passes, pass.employeeNo);
    if at < |passes| then passes[at := pass] else passes + [pass]
  }

  /** Every other pass keeps its place; a number already there keeps its place too, and a new one comes last. */
  lemma PlacedIs(passes: seq<Pass>, pass: Pass)
    requires Distinct(passes)
    ensures var after := Placed(passes, pass);
      && Distinct(after)
      && (forall i :: 0 <= i < |passes| ==> after[i] == if passes[i].employeeNo == pass.employeeNo then pass else passes[i])
      && ((exists i :: 0 <= i < |passes| && passes[i].employeeNo == pass.employeeNo) ==> |after| == |passes|)
      && ((forall i :: 0 <= i < |passes| ==> passes[i].employeeNo != pass.employeeNo) ==> after == passes + [pass])
  {
    var at := Find(passes, pass.employeeNo);
    if at < |passes| {
      assert forall i :: 0 <= i < |passes| && i != at ==> passes[i].employeeNo != passes[at].employeeNo;
    }
  }
}
