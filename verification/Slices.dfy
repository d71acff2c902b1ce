/** Places in a sequence where another sequence stands. */
module Slices {

  predicate At<T(==)>(text: seq<T>, i: nat, s: seq<T>) {
    i + |s| <= |text| && text[i..i + |s|] == s
  }

  lemma Regroup<T>(a: seq<T>, b: seq<T>, c: seq<T>)
    ensures (a + b) + c == a + (b + c)
  {
  }

  lemma {:induction false} AtSplit<T>(text: seq<T>, i: nat, a: seq<T>, b: seq<T>)
    requires At(text, i, a + b)
    ensures At(text, i, a) && At(text, i + |a|, b)
  {
    assert text[i..i + |a|] == text[i..i + |a + b|][..|a|];
    assert text[i + |a|..i + |a| + |b|] == text[i..i + |a + b|][|a|..];
  }

  lemma {:induction false} AtJoin<T>(text: seq<T>, i: nat, a: seq<T>, mid: nat, b: seq<T>)
    requires At(text, i, a) && mid == i + |a| && At(text, mid, b)
    ensures At(text, i, a + b)
  {
  }

  lemma {:induction false} AtUnit<T>(text: seq<T>, i: nat, s: seq<T>, k: nat)
    requires At(text, i, s) && k < |s|
    ensures text[i + k] == s[k]
  {
    assert text[i..i + |s|][k] == text[i + k];
  }

  lemma {:induction false} AtEnd<T>(a: seq<T>, b: seq<T>)
    ensures At(a + b, |a|, b)
  {
  }

  lemma {:induction false} AtLonger<T>(a: seq<T>, b: seq<T>, i: nat, s: seq<T>)
    requires At(a, i, s)
    ensures At(a + b, i, s)
  {
    assert (a + b)[i..i + |s|] == a[i..i + |s|];
  }

  lemma {:induction false} AtWithin<T>(text: seq<T>, start: nat, s: seq<T>, i: nat, t: seq<T>)
    requires At(text, start, s) && At(s, i, t)
    ensures At(text, start + i, t)
  {
    forall k | 0 <= k < |t| ensures text[start + i + k] == t[k] {
      AtUnit(s, i, t, k);
      AtUnit(text, start, s, i + k);
    }
  }

  // ---- Parts one after another ----

  function Concat<T>(parts: seq<seq<T>>): seq<T> {
    if parts == [] then [] else parts[0] + Concat(parts[1..])
  }

  lemma {:induction false} ConcatMore<T>(parts: seq<seq<T>>, part: seq<T>)
    ensures Concat(parts + [part]) == Concat(parts) + part
    decreases |parts|
  {
    if parts == [] {
      assert (parts + [part])[1..] == [];
      assert Concat([part]) == part + [] == part;
    } else {
      assert (parts + [part])[1..] == parts[1..] + [part];
      ConcatMore(parts[1..], part);
    }
  }

  /** Each part stands after those before it. */
  lemma {:induction false} ConcatAt<T>(parts: seq<seq<T>>, k: nat)
    requires k < |parts|
    ensures At(Concat(parts), |Concat(parts[..k])|, parts[k])
    decreases |parts|
  {
    var head, tail := parts[0], parts[1..];
    if k == 0 {
      assert parts[..0] == [];
      AtEnd([], head);
      AtLonger([] + head, Concat(tail), 0, head);
      assert [] + head == head;
    } else {
      ConcatAt(tail, k - 1);
      assert parts[..k][1..] == tail[..k - 1] && parts[..k][0] == head;
      AtEnd(head, Concat(tail));
      AtWithin(Concat(parts), |head|, Concat(tail), |Concat(tail[..k - 1])|, parts[k]);
    }
  }
}
