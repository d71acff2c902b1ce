/** Validity times of cards: 0 never ends, otherwise the later time wins. */
module Validity {

  function Join(a: nat, b: nat): nat {
    if a == 0 || b == 0 then 0 else if a < b then b else a
  }

  /** The validity that a set of rows for one card adds up to, whatever their order. */
  ghost predicate IsJoin(untils: set<nat>, v: nat) {
    v in untils && (0 !in untils ==> forall u :: u in untils ==> u <= v) && (0 in untils ==> v == 0)
  }

  lemma JoinOne(u: nat)
    ensures IsJoin({u}, u)
  {
  }

  lemma JoinMore(untils: set<nat>, v: nat, u: nat)
    requires IsJoin(untils, v)
    ensures IsJoin(untils + {u}, Join(v, u))
  {
  }

  lemma JoinIsUnique(untils: set<nat>, v: nat, w: nat)
    requires IsJoin(untils, v) && IsJoin(untils, w)
    ensures v == w
  {
  }
}
