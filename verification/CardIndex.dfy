/** The sketch's card cache: an array sorted by hashed card number, searched by halving. */
module CardIndex {
  import opened Validity

  /** UINT64_MAX: the key that marks a removed slot, which no card hashes to. */
  const TOMBSTONE: nat := 0xFFFF_FFFF_FFFF_FFFF

  datatype CardEntry = CardEntry(key: nat, validUntil: nat)

  ghost predicate Sorted(s: seq<CardEntry>) {
    forall i, j :: 0 <= i < j < |s| ==> s[i].key <= s[j].key
  }

  ghost predicate Strict(s: seq<CardEntry>) {
    && (forall i, j :: 0 <= i < j < |s| ==> s[i].key < s[j].key)
    && (forall i :: 0 <= i < |s| ==> s[i].key < TOMBSTONE)
  }

  ghost predicate HasKey(s: seq<CardEntry>, key: nat) {
    exists i :: 0 <= i < |s| && s[i].key == key
  }

  function UntilsOf(s: seq<CardEntry>, key: nat): set<nat> {
    set e | e in s && e.key == key :: e.validUntil
  }

  /** The index of some rows: every live key once, in order, with the validity its rows add up to. */
  ghost predicate IsIndex(rows: seq<CardEntry>, index: seq<CardEntry>) {
    && Strict(index)
    && (forall key: nat :: HasKey(index, key) <==> key < TOMBSTONE && HasKey(rows, key))
    && (forall i :: 0 <= i < |index| ==> IsJoin(UntilsOf(rows, index[i].key), index[i].validUntil))
  }

  ghost predicate LiveRows(rows: seq<CardEntry>) {
    forall i :: 0 <= i < |rows| ==> rows[i].key <= TOMBSTONE
  }

  // ---- Sorting ----

  function Insert(e: CardEntry, s: seq<CardEntry>): seq<CardEntry> {
    if s == [] || e.key <= s[0].key then [e] + s else [s[0]] + Insert(e, s[1..])
  }

  function SortedRows(s: seq<CardEntry>): seq<CardEntry> {
    if s == [] then [] else Insert(s[0], SortedRows(s[1..]))
  }

  ghost predicate AllFrom(s: seq<CardEntry>, low: nat) {
    forall i :: 0 <= i < |s| ==> low <= s[i].key
  }

  lemma {:induction false} InsertSorts(e: CardEntry, s: seq<CardEntry>)
    requires Sorted(s)
    ensures Sorted(Insert(e, s))
    ensures forall low: nat :: low <= e.key && AllFrom(s, low) ==> AllFrom(Insert(e, s), low)
  {
    if s != [] && e.key > s[0].key {
      InsertSorts(e, s[1..]);
      assert AllFrom(s[1..], s[0].key);
      forall low: nat | low <= e.key && AllFrom(s, low) ensures AllFrom(Insert(e, s), low) {
        assert AllFrom(s[1..], low);
      }
    }
  }

  lemma {:induction false} InsertKeeps(e: CardEntry, s: seq<CardEntry>)
    ensures multiset(Insert(e, s)) == multiset(s) + multiset{e}
  {
    if s != [] && e.key > s[0].key {
      InsertKeeps(e, s[1..]);
      assert s == [s[0]] + s[1..];
    } else {
      assert multiset([e] + s) == multiset{e} + multiset(s);
    }
  }

  lemma {:induction false} SortedRowsSorts(s: seq<CardEntry>)
    ensures Sorted(SortedRows(s)) && multiset(SortedRows(s)) == multiset(s) && |SortedRows(s)| == |s|
  {
    if s != [] {
      SortedRowsSorts(s[1..]);
      InsertSorts(s[0], SortedRows(s[1..]));
      InsertKeeps(s[0], SortedRows(s[1..]));
      assert s == [s[0]] + s[1..];
      assert |multiset(SortedRows(s))| == |multiset(s)|;
    }
  }

  // ---- Removing duplicates from sorted rows ----

  lemma IndexSkips(rows: seq<CardEntry>, index: seq<CardEntry>, e: CardEntry)
    requires IsIndex(rows, index) && e.key == TOMBSTONE
    ensures IsIndex(rows + [e], index)
  {
    MoreRows(rows, e);
  }

  lemma MoreRows(rows: seq<CardEntry>, e: CardEntry)
    ensures forall key: nat :: HasKey(rows + [e], key) <==> HasKey(rows, key) || key == e.key
    ensures forall key: nat :: UntilsOf(rows + [e], key) == UntilsOf(rows, key) + (if key == e.key then {e.validUntil} else {})
  {
    forall key: nat ensures HasKey(rows + [e], key) <==> HasKey(rows, key) || key == e.key {
      if HasKey(rows, key) {
        var i :| 0 <= i < |rows| && rows[i].key == key;
        assert (rows + [e])[i].key == key;
      }
      if key == e.key { assert (rows + [e])[|rows|].key == key; }
    }
  }

  lemma IndexJoins(rows: seq<CardEntry>, index: seq<CardEntry>, e: CardEntry)
    requires IsIndex(rows, index) && index != [] && index[|index| - 1].key == e.key
    ensures var last := |index| - 1;
            IsIndex(rows + [e], index[last := CardEntry(e.key, Join(index[last].validUntil, e.validUntil))])
  {
    var last := |index| - 1;
    var next := index[last := CardEntry(e.key, Join(index[last].validUntil, e.validUntil))];
    MoreRows(rows, e);
    SameKeys(index, next);
    assert HasKey(index, e.key);
    JoinMore(UntilsOf(rows, e.key), index[last].validUntil, e.validUntil);
  }

  lemma SameKeys(a: seq<CardEntry>, b: seq<CardEntry>)
    requires |a| == |b| && forall i :: 0 <= i < |a| ==> a[i].key == b[i].key
    ensures forall key: nat :: HasKey(a, key) <==> HasKey(b, key)
  {
    forall key: nat ensures HasKey(a, key) <==> HasKey(b, key) {
      if HasKey(a, key) {
        var i :| 0 <= i < |a| && a[i].key == key;
        assert b[i].key == key;
      }
      if HasKey(b, key) {
        var i :| 0 <= i < |b| && b[i].key == key;
        assert a[i].key == key;
      }
    }
  }

  lemma NoUntils(rows: seq<CardEntry>, key: nat)
    requires !HasKey(rows, key)
    ensures UntilsOf(rows, key) == {}
  {
    forall r | r in rows ensures r.key != key {
      var i :| 0 <= i < |rows| && rows[i] == r;
      assert rows[i].key == key ==> HasKey(rows, key);
    }
  }

  lemma OlderIsJoined(rows: seq<CardEntry>, x: CardEntry, e: CardEntry)
    requires IsJoin(UntilsOf(rows, x.key), x.validUntil) && x.key != e.key
    ensures IsJoin(UntilsOf(rows + [e], x.key), x.validUntil)
  {
    assert UntilsOf(rows + [e], x.key) == UntilsOf(rows, x.key);
  }

  lemma IndexGrows(rows: seq<CardEntry>, index: seq<CardEntry>, e: CardEntry)
    requires IsIndex(rows, index) && e.key < TOMBSTONE
    requires index != [] ==> index[|index| - 1].key < e.key
    ensures IsIndex(rows + [e], index + [e])
  {
    MoreRows(rows, e);
    MoreRows(index, e);
    assert !HasKey(index, e.key);
    NoUntils(rows, e.key);
    var next := index + [e];
    forall i | 0 <= i < |next| ensures IsJoin(UntilsOf(rows + [e], next[i].key), next[i].validUntil) {
      if i < |index| {
        OlderIsJoined(rows, index[i], e);
      } else {
        assert UntilsOf(rows + [e], e.key) == {e.validUntil};
      }
    }
  }

  lemma PermutedRows(a: seq<CardEntry>, b: seq<CardEntry>, index: seq<CardEntry>)
    requires multiset(a) == multiset(b) && IsIndex(a, index)
    ensures IsIndex(b, index)
  {
    assert forall e :: e in a <==> e in b by {
      forall e ensures e in a <==> e in b {
        assert e in a <==> e in multiset(a);
        assert e in b <==> e in multiset(b);
      }
    }
    forall key: nat ensures HasKey(a, key) <==> HasKey(b, key) {
      if HasKey(a, key) { var i :| 0 <= i < |a| && a[i].key == key; assert a[i] in b; }
      if HasKey(b, key) { var i :| 0 <= i < |b| && b[i].key == key; assert b[i] in a; }
    }
    forall i | 0 <= i < |index| ensures UntilsOf(a, index[i].key) == UntilsOf(b, index[i].key) {
    }
  }

  /** Rows have one index, whatever order a sort leaves duplicates in. */
  lemma IndexIsUnique(rows: seq<CardEntry>, x: seq<CardEntry>, y: seq<CardEntry>)
    requires IsIndex(rows, x) && IsIndex(rows, y)
    ensures x == y
  {
    SameKeySet(x, y);
    forall i | 0 <= i < |x| ensures x[i] == y[i] {
      JoinIsUnique(UntilsOf(rows, x[i].key), x[i].validUntil, y[i].validUntil);
    }
  }

  lemma {:induction false} SameKeySet(x: seq<CardEntry>, y: seq<CardEntry>)
    requires Strict(x) && Strict(y) && forall key: nat :: HasKey(x, key) <==> HasKey(y, key)
    ensures |x| == |y| && forall i :: 0 <= i < |x| ==> x[i].key == y[i].key
  {
    if x != [] {
      assert HasKey(x, x[0].key);
    }
    if y != [] {
      assert HasKey(y, y[0].key);
    }
    if x != [] && y != [] {
      assert x[0].key == y[0].key;
      forall key: nat ensures HasKey(x[1..], key) <==> HasKey(y[1..], key) {
        TailKeys(x, key);
        TailKeys(y, key);
      }
      SameKeySet(x[1..], y[1..]);
    }
  }

  lemma TailKeys(x: seq<CardEntry>, key: nat)
    requires Strict(x) && x != []
    ensures HasKey(x[1..], key) <==> HasKey(x, key) && key != x[0].key
  {
    if HasKey(x, key) && key != x[0].key {
      var i :| 0 <= i < |x| && x[i].key == key;
      assert x[1..][i - 1].key == key;
    }
    if HasKey(x[1..], key) {
      var i :| 0 <= i < |x| - 1 && x[1..][i].key == key;
      assert x[i + 1].key == key;
    }
  }

  // ---- Searching by halving, in an array that may hold tombstones ----

  /** Where the halving of `s[lo..hi]` ends. */
  function Halve(s: seq<CardEntry>, key: nat, lo: nat, hi: nat): (at: nat)
    requires lo <= hi <= |s|
    ensures lo <= at <= hi
    decreases hi - lo
  {
    if lo == hi then lo
    else
      var mid := lo + (hi - lo) / 2;
      if s[mid].key < key then Halve(s, key, mid + 1, hi) else Halve(s, key, lo, mid)
  }

  function Search(s: seq<CardEntry>, key: nat): int {
    var at := Halve(s, key, 0, |s|);
    if at < |s| && s[at].key == key then at else -1
  }

  /** An index in which some slots have been overwritten with tombstones. */
  function Marked(index: seq<CardEntry>, tombs: set<nat>): seq<CardEntry> {
    seq(|index|, i requires 0 <= i < |index| => if i in tombs then index[i].(key := TOMBSTONE) else index[i])
  }

  /** The slots left of `j` that the halving looks at on its way to `j`. */
  function LeftPath(lo: nat, hi: nat, j: nat): set<nat>
    decreases hi - lo
  {
    if lo >= hi then {}
    else
      var mid := lo + (hi - lo) / 2;
      if mid < j then {mid} + LeftPath(mid + 1, hi, j) else LeftPath(lo, mid, j)
  }

  lemma {:induction false} LeftPathIsLeft(lo: nat, hi: nat, j: nat)
    ensures forall i :: i in LeftPath(lo, hi, j) ==> lo <= i < j && i < hi
    decreases hi - lo
  {
    if lo < hi {
      var mid := lo + (hi - lo) / 2;
      if mid < j { LeftPathIsLeft(mid + 1, hi, j); } else { LeftPathIsLeft(lo, mid, j); }
    }
  }

  lemma {:induction false} HalfWay(lo: nat, hi: nat) returns (mid: nat)
    requires lo < hi
    ensures mid == lo + (hi - lo) / 2 && lo <= mid < hi
  {
    mid := lo + (hi - lo) / 2;
  }

  /** The halving turns as the key at the middle says, and past a slot of the path when it turns right of one. */
  lemma {:induction false} HalveTurns(s: seq<CardEntry>, key: nat, lo: nat, hi: nat, mid: nat)
    requires lo < hi <= |s| && mid == lo + (hi - lo) / 2 && mid < hi
    ensures Halve(s, key, lo, hi) == if s[mid].key < key then Halve(s, key, mid + 1, hi) else Halve(s, key, lo, mid)
  {
  }

  lemma {:induction false} PathTurns(lo: nat, hi: nat, j: nat, mid: nat)
    requires lo < hi && mid == lo + (hi - lo) / 2
    ensures LeftPath(lo, hi, j) == if mid < j then {mid} + LeftPath(mid + 1, hi, j) else LeftPath(lo, mid, j)
  {
  }

  /** Slot `k` leads to the right of it exactly when it is left of `j` and live. */
  predicate Leads(s: seq<CardEntry>, key: nat, tombs: set<nat>, j: nat, k: nat) {
    k < |s| && (s[k].key < key <==> k < j && k !in tombs)
  }

  lemma {:induction false} HalveGoes(s: seq<CardEntry>, key: nat, tombs: set<nat>, j: nat, lo: nat, hi: nat)
    requires forall k: nat :: k < |s| ==> Leads(s, key, tombs, j, k)
    requires lo <= j <= hi <= |s| && j < |s|
    ensures if LeftPath(lo, hi, j) !! tombs then Halve(s, key, lo, hi) == j else Halve(s, key, lo, hi) < j
    decreases hi - lo
  {
    if lo < hi {
      var mid := HalfWay(lo, hi);
      assert Leads(s, key, tombs, j, mid);
      HalveTurns(s, key, lo, hi, mid);
      PathTurns(lo, hi, j, mid);
      if mid < j {
        if mid !in tombs { HalveGoes(s, key, tombs, j, mid + 1, hi); }
      } else {
        HalveGoes(s, key, tombs, j, lo, mid);
      }
    }
  }

  lemma {:induction false} HalveFinds(index: seq<CardEntry>, tombs: set<nat>, j: nat, lo: nat, hi: nat)
    requires Strict(index) && lo <= j <= hi <= |index| && j < |index|
    ensures var at := Halve(Marked(index, tombs), index[j].key, lo, hi);
            if LeftPath(lo, hi, j) !! tombs then at == j else at < j
  {
    var s := Marked(index, tombs);
    forall k: nat | k < |s| ensures Leads(s, index[j].key, tombs, j, k) {
      assert index[k].key < index[j].key <==> k < j;
    }
    HalveGoes(s, index[j].key, tombs, j, lo, hi);
  }

  /** A stored key is found exactly when its slot is live and no tombstone lies on the way to it. */
  lemma SearchHits(index: seq<CardEntry>, tombs: set<nat>, j: nat)
    requires Strict(index) && j < |index|
    ensures Search(Marked(index, tombs), index[j].key)
         == if j !in tombs && LeftPath(0, |index|, j) !! tombs then j else -1
  {
    var s := Marked(index, tombs);
    var at := Halve(s, index[j].key, 0, |s|);
    HalveFinds(index, tombs, j, 0, |s|);
    OnlySlot(index, tombs, j, at);
  }

  /** No other live slot has its key. */
  lemma OnlySlot(index: seq<CardEntry>, tombs: set<nat>, j: nat, at: nat)
    requires Strict(index) && j < |index| && at < |index|
    ensures Marked(index, tombs)[at].key == index[j].key <==> at == j && j !in tombs
  {
  }

  lemma SearchMisses(index: seq<CardEntry>, tombs: set<nat>, key: nat)
    requires !HasKey(index, key) && key < TOMBSTONE
    ensures Search(Marked(index, tombs), key) == -1
  {
  }

  lemma NextTomb(index: seq<CardEntry>, removes: seq<nat>, i: nat)
    requires i < |removes|
    ensures var tombs := Tombs(index, removes[..i]); var at := Search(Marked(index, tombs), removes[i]);
      Tombs(index, removes[..i + 1]) == if at >= 0 then tombs + {at} else tombs
  {
    assert removes[..i + 1][..i] == removes[..i];
  }

  lemma MarkedMore(index: seq<CardEntry>, tombs: set<nat>, at: nat)
    requires at < |index|
    ensures Marked(index, tombs + {at}) == Marked(index, tombs)[at := Marked(index, tombs)[at].(key := TOMBSTONE)]
  {
  }

  lemma NoTombstones(index: seq<CardEntry>)
    ensures Marked(index, {}) == index
  {
  }

  // ---- Which removals of a delta reach their card ----

  ghost predicate LiveKeys(removes: seq<nat>) {
    forall b :: 0 <= b < |removes| ==> removes[b] < TOMBSTONE
  }

  /** The slots that hold a tombstone after the removals. */
  function Tombs(index: seq<CardEntry>, removes: seq<nat>): set<nat> {
    if removes == [] then {}
    else
      var tombs := Tombs(index, removes[..|removes| - 1]);
      var at := Search(Marked(index, tombs), removes[|removes| - 1]);
      if at >= 0 then tombs + {at} else tombs
  }

  function First(removes: seq<nat>, key: nat): (f: nat)
    ensures f <= |removes|
  {
    if removes == [] || removes[0] == key then 0 else 1 + First(removes[1..], key)
  }

  lemma {:induction false} FirstIsFirst(removes: seq<nat>, key: nat)
    requires key in removes
    ensures First(removes, key) < |removes| && removes[First(removes, key)] == key
    ensures forall b :: 0 <= b < |removes| && removes[b] == key ==> First(removes, key) <= b
  {
    if removes[0] != key {
      FirstIsFirst(removes[1..], key);
    }
  }

  lemma {:induction false} TombsAreListed(index: seq<CardEntry>, removes: seq<nat>)
    requires Strict(index) && LiveKeys(removes)
    ensures forall i :: i in Tombs(index, removes) ==> i < |index| && index[i].key in removes
  {
    if removes != [] {
      var front := removes[..|removes| - 1];
      TombsAreListed(index, front);
      var key := removes[|removes| - 1];
      if HasKey(index, key) {
        var j :| 0 <= j < |index| && index[j].key == key;
        SearchHits(index, Tombs(index, front), j);
      } else {
        SearchMisses(index, Tombs(index, front), key);
      }
    }
  }

  lemma {:induction false} TombsGrow(index: seq<CardEntry>, removes: seq<nat>, b: nat)
    requires b <= |removes|
    ensures Tombs(index, removes[..b]) <= Tombs(index, removes)
  {
    if b < |removes| {
      var front := removes[..|removes| - 1];
      TombsGrow(index, front, b);
      assert front[..b] == removes[..b];
    } else {
      assert removes[..b] == removes;
    }
  }

  /** The step at which a listed card is looked for. */
  lemma TombStep(index: seq<CardEntry>, removes: seq<nat>, b: nat, j: nat)
    requires Strict(index) && b < |removes| && j < |index| && removes[b] == index[j].key
    ensures j in Tombs(index, removes[..b + 1])
        <==> j in Tombs(index, removes[..b]) || LeftPath(0, |index|, j) !! Tombs(index, removes[..b])
  {
    assert removes[..b + 1][..b] == removes[..b];
    SearchHits(index, Tombs(index, removes[..b]), j);
  }

  lemma LastStep(index: seq<CardEntry>, removes: seq<nat>, j: nat)
    requires Strict(index) && j < |index| && LiveKeys(removes) && removes != []
    requires j in Tombs(index, removes) && j !in Tombs(index, removes[..|removes| - 1])
    ensures removes[|removes| - 1] == index[j].key
    ensures LeftPath(0, |index|, j) !! Tombs(index, removes[..|removes| - 1])
  {
    var tombs, key := Tombs(index, removes[..|removes| - 1]), removes[|removes| - 1];
    if HasKey(index, key) {
      var i :| 0 <= i < |index| && index[i].key == key;
      SearchHits(index, tombs, i);
    } else {
      SearchMisses(index, tombs, key);
    }
  }

  /** The step that removed a card. */
  lemma {:induction false} RemovingStep(index: seq<CardEntry>, removes: seq<nat>, j: nat) returns (b: nat)
    requires Strict(index) && j < |index| && LiveKeys(removes) && j in Tombs(index, removes)
    ensures b < |removes| && ReachedAt(index, removes, j, b)
  {
    var front := removes[..|removes| - 1];
    if j in Tombs(index, front) {
      b := RemovingStep(index, front, j);
      ReachedInFront(index, removes, front, j, b);
    } else {
      LastStep(index, removes, j);
      b := |removes| - 1;
    }
  }

  /** Removal `b` is of slot `j`, with no tombstone on the way to it. */
  ghost predicate ReachedAt(index: seq<CardEntry>, removes: seq<nat>, j: nat, b: nat)
    requires j < |index| && b < |removes|
  {
    removes[b] == index[j].key && LeftPath(0, |index|, j) !! Tombs(index, removes[..b])
  }

  lemma ReachedInFront(index: seq<CardEntry>, removes: seq<nat>, front: seq<nat>, j: nat, b: nat)
    requires j < |index| && b < |front| < |removes| && front == removes[..|front|] && ReachedAt(index, front, j, b)
    ensures ReachedAt(index, removes, j, b)
  {
    assert front[b] == removes[b] && front[..b] == removes[..b];
  }

  lemma RemovedWhenClear(index: seq<CardEntry>, removes: seq<nat>, j: nat, f: nat)
    requires Strict(index) && j < |index| && f < |removes| && removes[f] == index[j].key
    requires LeftPath(0, |index|, j) !! Tombs(index, removes[..f])
    ensures j in Tombs(index, removes)
  {
    TombStep(index, removes, f, j);
    TombsGrow(index, removes, f + 1);
  }

  lemma ClearWhenRemoved(index: seq<CardEntry>, removes: seq<nat>, j: nat, f: nat)
    requires Strict(index) && j < |index| && LiveKeys(removes) && j in Tombs(index, removes)
    requires forall b :: 0 <= b < |removes| && removes[b] == index[j].key ==> f <= b
    ensures f <= |removes| && LeftPath(0, |index|, j) !! Tombs(index, removes[..f])
  {
    var b := RemovingStep(index, removes, j);
    TombsGrow(index, removes[..b], f);
    assert removes[..b][..f] == removes[..f];
  }

  /** A card is removed exactly when no tombstone is on its path the first time it is listed. */
  lemma RemovedAtFirstTry(index: seq<CardEntry>, removes: seq<nat>, j: nat)
    requires Strict(index) && j < |index| && LiveKeys(removes) && index[j].key in removes
    ensures j in Tombs(index, removes)
        <==> LeftPath(0, |index|, j) !! Tombs(index, removes[..First(removes, index[j].key)])
  {
    var f := First(removes, index[j].key);
    FirstIsFirst(removes, index[j].key);
    if j in Tombs(index, removes) {
      ClearWhenRemoved(index, removes, j, f);
    } else if LeftPath(0, |index|, j) !! Tombs(index, removes[..f]) {
      RemovedWhenClear(index, removes, j, f);
    }
  }

  /** No listed card comes after a listed card that the search passes on the way to it. */
  ghost predicate NothingInTheWay(index: seq<CardEntry>, removes: seq<nat>) {
    forall i, j :: 0 <= j < |index| && i in LeftPath(0, |index|, j) && 0 <= i < |index|
                   && index[i].key in removes && index[j].key in removes
                   ==> First(removes, index[j].key) < First(removes, index[i].key)
  }

  ghost predicate AllRemoved(index: seq<CardEntry>, removes: seq<nat>) {
    forall j :: 0 <= j < |index| && index[j].key in removes ==> j in Tombs(index, removes)
  }

  lemma RemovedIfNothingInTheWay(index: seq<CardEntry>, removes: seq<nat>, j: nat)
    requires Strict(index) && LiveKeys(removes)
    requires NothingInTheWay(index, removes) && j < |index| && index[j].key in removes
    ensures j in Tombs(index, removes)
  {
    var f := First(removes, index[j].key);
    FirstIsFirst(removes, index[j].key);
    RemovedAtFirstTry(index, removes, j);
    forall i | i in Tombs(index, removes[..f]) ensures i !in LeftPath(0, |index|, j) {
      ListedBefore(index, removes, f, i);
    }
  }

  lemma ListedBefore(index: seq<CardEntry>, removes: seq<nat>, f: nat, i: nat)
    requires Strict(index) && LiveKeys(removes) && f <= |removes| && i in Tombs(index, removes[..f])
    ensures i < |index| && index[i].key in removes && First(removes, index[i].key) < f
  {
    TombsAreListed(index, removes[..f]);
    var b :| 0 <= b < f && removes[..f][b] == index[i].key;
    assert removes[b] == index[i].key;
    FirstIsFirst(removes, index[i].key);
  }

  lemma InTheWayIsMissed(index: seq<CardEntry>, removes: seq<nat>, i: nat, j: nat)
    requires Strict(index) && LiveKeys(removes)
    requires i < |index| && j < |index| && i in LeftPath(0, |index|, j)
    requires index[i].key in removes && index[j].key in removes
    requires First(removes, index[i].key) <= First(removes, index[j].key)
    ensures i !in Tombs(index, removes) || j !in Tombs(index, removes)
  {
    var g := First(removes, index[j].key);
    EarlierIsStrictlyEarlier(index, removes, i, j);
    if i in Tombs(index, removes) {
      RemovedBy(index, removes, i, g);
      RemovedAtFirstTry(index, removes, j);
      assert i in LeftPath(0, |index|, j) * Tombs(index, removes[..g]);
    }
  }

  lemma EarlierIsStrictlyEarlier(index: seq<CardEntry>, removes: seq<nat>, i: nat, j: nat)
    requires Strict(index) && i < |index| && j < |index| && i in LeftPath(0, |index|, j)
    requires index[i].key in removes && index[j].key in removes
    ensures First(removes, index[i].key) != First(removes, index[j].key)
  {
    LeftPathIsLeft(0, |index|, j);
    FirstIsFirst(removes, index[i].key);
    FirstIsFirst(removes, index[j].key);
  }

  lemma RemovedBy(index: seq<CardEntry>, removes: seq<nat>, i: nat, g: nat)
    requires Strict(index) && LiveKeys(removes) && i < |index| && i in Tombs(index, removes) && index[i].key in removes
    requires First(removes, index[i].key) < g <= |removes|
    ensures i in Tombs(index, removes[..g])
  {
    var f := First(removes, index[i].key);
    FirstIsFirst(removes, index[i].key);
    RemovedAtFirstTry(index, removes, i);
    TombStep(index, removes, f, i);
    TombsGrow(index, removes[..g], f + 1);
    assert removes[..g][..f + 1] == removes[..f + 1];
  }

  /** The removals of a delta all take effect exactly when none of them is in another's way. */
  lemma RemovalsCompleteIff(index: seq<CardEntry>, removes: seq<nat>)
    requires Strict(index) && LiveKeys(removes)
    ensures AllRemoved(index, removes) <==> NothingInTheWay(index, removes)
  {
    if NothingInTheWay(index, removes) {
      forall j | 0 <= j < |index| && index[j].key in removes ensures j in Tombs(index, removes) {
        RemovedIfNothingInTheWay(index, removes, j);
      }
    }
    if AllRemoved(index, removes) {
      forall i, j | 0 <= j < |index| && i in LeftPath(0, |index|, j) && 0 <= i < |index|
                    && index[i].key in removes && index[j].key in removes
        ensures First(removes, index[j].key) < First(removes, index[i].key)
      {
        if First(removes, index[i].key) <= First(removes, index[j].key) {
          InTheWayIsMissed(index, removes, i, j);
        }
      }
    }
  }

  /** Removing from the highest key down misses nothing. */
  lemma DescendingIsComplete(index: seq<CardEntry>, removes: seq<nat>)
    requires Strict(index) && LiveKeys(removes)
    requires forall a, b :: 0 <= a < b < |removes| ==> removes[a] >= removes[b]
    ensures AllRemoved(index, removes)
  {
    forall i, j | 0 <= j < |index| && i in LeftPath(0, |index|, j) && 0 <= i < |index|
                  && index[i].key in removes && index[j].key in removes
      ensures First(removes, index[j].key) < First(removes, index[i].key)
    {
      LeftPathIsLeft(0, |index|, j);
      LargerComesFirst(removes, index[i].key, index[j].key);
    }
    RemovalsCompleteIff(index, removes);
  }

  lemma LargerComesFirst(removes: seq<nat>, a: nat, b: nat)
    requires forall i, j :: 0 <= i < j < |removes| ==> removes[i] >= removes[j]
    requires a in removes && b in removes && a < b
    ensures First(removes, b) < First(removes, a)
  {
    FirstIsFirst(removes, a);
    FirstIsFirst(removes, b);
  }

  /** From the cards 1, 2, 3, removing 2 and then 3 leaves 3 behind. */
  lemma AscendingCanMiss()
    ensures var index := [CardEntry(1, 0), CardEntry(2, 0), CardEntry(3, 0)];
            Strict(index) && !AllRemoved(index, [2, 3]) && Tombs(index, [2, 3]) == {1}
  {
    var index, removes := [CardEntry(1, 0), CardEntry(2, 0), CardEntry(3, 0)], [2, 3];
    PathsOfThree(0);
    assert removes[..1] == [2] && removes[..1][..0] == [];
    SearchHits(index, {}, 1);
    SearchHits(index, {1}, 2);
    assert Tombs(index, removes[..1]) == {1};
  }

  /** Of three slots the middle one is looked at first, then the last or the first. */
  lemma PathsOfThree(lo: nat)
    ensures LeftPath(lo, lo + 3, lo + 2) == {lo + 1} && LeftPath(lo, lo + 3, lo + 1) == {lo}
  {
    PathTurns(lo, lo + 3, lo + 2, lo + 1);
    PathTurns(lo + 2, lo + 3, lo + 2, lo + 2);
    PathTurns(lo, lo + 3, lo + 1, lo + 1);
    PathTurns(lo, lo + 1, lo + 1, lo);
  }

  // ---- What a delta leaves in the index ----

  /** The value of the last row for a key, or the given one when there is none. */
  function LastUntil(adds: seq<CardEntry>, key: nat, otherwise: nat): nat {
    if adds == [] then otherwise
    else if adds[|adds| - 1].key == key then adds[|adds| - 1].validUntil
    else LastUntil(adds[..|adds| - 1], key, otherwise)
  }

  /** The rows whose card the index does not hold, in order. */
  function NewRows(index: seq<CardEntry>, adds: seq<CardEntry>): seq<CardEntry> {
    if adds == [] then []
    else
      var front, e := NewRows(index, adds[..|adds| - 1]), adds[|adds| - 1];
      if Search(index, e.key) < 0 then front + [e] else front
  }

  /** The index with the validity of every held card overwritten by the last row for it. */
  function Overwritten(index: seq<CardEntry>, adds: seq<CardEntry>): seq<CardEntry> {
    seq(|index|, i requires 0 <= i < |index| =>
          CardEntry(index[i].key, LastUntil(adds, index[i].key, index[i].validUntil)))
  }

  /** Held cards take the last row's validity; new cards join their rows. */
  ghost predicate IsUpdate(index: seq<CardEntry>, adds: seq<CardEntry>, after: seq<CardEntry>) {
    && Strict(after)
    && (forall key: nat :: HasKey(after, key) <==> HasKey(index, key) || HasKey(adds, key))
    && (forall i, j :: 0 <= i < |index| && 0 <= j < |after| && index[i].key == after[j].key
          ==> after[j].validUntil == LastUntil(adds, after[j].key, index[i].validUntil))
    && (forall j :: 0 <= j < |after| && !HasKey(index, after[j].key)
          ==> IsJoin(UntilsOf(adds, after[j].key), after[j].validUntil))
  }

  lemma SearchFinds(index: seq<CardEntry>, key: nat)
    requires Strict(index) && key < TOMBSTONE
    ensures var at := Search(index, key);
            (at >= 0 <==> HasKey(index, key)) && (at >= 0 ==> at < |index| && index[at].key == key)
  {
    NoTombstones(index);
    if HasKey(index, key) {
      var j :| 0 <= j < |index| && index[j].key == key;
      SearchHits(index, {}, j);
    } else {
      SearchMisses(index, {}, key);
    }
  }

  lemma {:induction false} NewRowsAreNew(index: seq<CardEntry>, adds: seq<CardEntry>)
    requires Strict(index) && LiveEntries(adds)
    ensures forall e :: e in NewRows(index, adds) <==> e in adds && !HasKey(index, e.key)
  {
    if adds != [] {
      NewRowsAreNew(index, adds[..|adds| - 1]);
      SearchFinds(index, adds[|adds| - 1].key);
      assert adds == adds[..|adds| - 1] + [adds[|adds| - 1]];
    }
  }

  lemma SplitRows(a: seq<CardEntry>, b: seq<CardEntry>, key: nat)
    ensures HasKey(a + b, key) <==> HasKey(a, key) || HasKey(b, key)
    ensures UntilsOf(a + b, key) == UntilsOf(a, key) + UntilsOf(b, key)
  {
    if HasKey(a, key) { var i :| 0 <= i < |a| && a[i].key == key; assert (a + b)[i].key == key; }
    if HasKey(b, key) { var i :| 0 <= i < |b| && b[i].key == key; assert (a + b)[|a| + i].key == key; }
    if HasKey(a + b, key) {
      var i :| 0 <= i < |a + b| && (a + b)[i].key == key;
      if i < |a| { assert a[i].key == key; } else { assert b[i - |a|].key == key; }
    }
  }

  lemma OnlyUntil(index: seq<CardEntry>, i: nat)
    requires Strict(index) && i < |index|
    ensures UntilsOf(index, index[i].key) == {index[i].validUntil}
  {
    assert index[i] in index;
    forall e | e in index && e.key == index[i].key ensures e == index[i] {
      var k :| 0 <= k < |index| && index[k] == e;
    }
  }

  lemma NewRowsHaveNewKeys(index: seq<CardEntry>, adds: seq<CardEntry>, key: nat)
    requires Strict(index) && LiveEntries(adds)
    ensures HasKey(NewRows(index, adds), key) <==> HasKey(adds, key) && !HasKey(index, key)
    ensures !HasKey(index, key) ==> UntilsOf(NewRows(index, adds), key) == UntilsOf(adds, key)
  {
    var rows := NewRows(index, adds);
    NewRowsAreNew(index, adds);
    if HasKey(rows, key) {
      var i :| 0 <= i < |rows| && rows[i].key == key;
      assert rows[i] in adds;
      var k :| 0 <= k < |adds| && adds[k] == rows[i];
      assert adds[k].key == key;
    }
    if HasKey(adds, key) && !HasKey(index, key) {
      var i :| 0 <= i < |adds| && adds[i].key == key;
      assert adds[i] in rows;
      var k :| 0 <= k < |rows| && rows[k] == adds[i];
      assert rows[k].key == key;
    }
  }

  ghost predicate NoneHeld(index: seq<CardEntry>, rows: seq<CardEntry>) {
    forall k :: 0 <= k < |rows| ==> !HasKey(index, rows[k].key)
  }

  /** Held cards take the last row's validity, and of the new rows these are taken in and joined. */
  ghost predicate IsUpdateBy(index: seq<CardEntry>, adds: seq<CardEntry>, taken: seq<CardEntry>, after: seq<CardEntry>) {
    && Strict(after)
    && (forall key: nat :: HasKey(after, key) <==> HasKey(index, key) || HasKey(taken, key))
    && (forall i, j :: 0 <= i < |index| && 0 <= j < |after| && index[i].key == after[j].key
          ==> after[j].validUntil == LastUntil(adds, after[j].key, index[i].validUntil))
    && (forall j :: 0 <= j < |after| && !HasKey(index, after[j].key)
          ==> IsJoin(UntilsOf(taken, after[j].key), after[j].validUntil))
  }

  lemma MergedIsUpdateBy(index: seq<CardEntry>, adds: seq<CardEntry>, taken: seq<CardEntry>, after: seq<CardEntry>)
    requires Strict(index) && LiveEntries(taken) && NoneHeld(index, taken) && IsIndex(Overwritten(index, adds) + taken, after)
    ensures IsUpdateBy(index, adds, taken, after)
  {
    var old' := Overwritten(index, adds);
    SameKeys(index, old');
    forall key: nat ensures HasKey(after, key) <==> HasKey(index, key) || HasKey(taken, key) {
      SplitRows(old', taken, key);
    }
    forall i, j | 0 <= i < |index| && 0 <= j < |after| && index[i].key == after[j].key
      ensures after[j].validUntil == LastUntil(adds, after[j].key, index[i].validUntil)
    {
      MergedOld(index, adds, taken, after, i, j);
    }
    forall j | 0 <= j < |after| && !HasKey(index, after[j].key)
      ensures IsJoin(UntilsOf(taken, after[j].key), after[j].validUntil)
    {
      SplitRows(old', taken, after[j].key);
      NoUntils(old', after[j].key);
    }
  }

  /** Sorting the overwritten index and the new rows together gives the update. */
  lemma MergedIsUpdate(index: seq<CardEntry>, adds: seq<CardEntry>, after: seq<CardEntry>)
    requires Strict(index) && LiveEntries(adds)
    requires IsIndex(Overwritten(index, adds) + NewRows(index, adds), after)
    ensures IsUpdate(index, adds, after)
  {
    NewRowsAreNotHeld(index, adds);
    MergedIsUpdateBy(index, adds, NewRows(index, adds), after);
    AllTaken(index, adds, after);
  }

  lemma NewRowsAreNotHeld(index: seq<CardEntry>, adds: seq<CardEntry>)
    requires Strict(index) && LiveEntries(adds)
    ensures NoneHeld(index, NewRows(index, adds)) && LiveEntries(NewRows(index, adds))
  {
    var rows := NewRows(index, adds);
    NewRowsAreNew(index, adds);
    forall k | 0 <= k < |rows| ensures !HasKey(index, rows[k].key) && rows[k].key < TOMBSTONE {
      assert rows[k] in rows;
    }
  }

  /** With every new row taken, the update is by all the rows. */
  lemma AllTaken(index: seq<CardEntry>, adds: seq<CardEntry>, after: seq<CardEntry>)
    requires Strict(index) && LiveEntries(adds) && IsUpdateBy(index, adds, NewRows(index, adds), after)
    ensures IsUpdate(index, adds, after)
  {
    forall key: nat ensures HasKey(after, key) <==> HasKey(index, key) || HasKey(adds, key) {
      NewRowsHaveNewKeys(index, adds, key);
    }
    forall j | 0 <= j < |after| && !HasKey(index, after[j].key)
      ensures IsJoin(UntilsOf(adds, after[j].key), after[j].validUntil)
    {
      NewRowsHaveNewKeys(index, adds, after[j].key);
    }
  }

  lemma MergedOld(index: seq<CardEntry>, adds: seq<CardEntry>, taken: seq<CardEntry>, after: seq<CardEntry>, i: nat, j: nat)
    requires Strict(index) && LiveEntries(taken) && NoneHeld(index, taken) && IsIndex(Overwritten(index, adds) + taken, after)
    requires i < |index| && j < |after| && index[i].key == after[j].key
    ensures after[j].validUntil == LastUntil(adds, after[j].key, index[i].validUntil)
  {
    var old', key := Overwritten(index, adds), index[i].key;
    assert Strict(old');
    OnlyUntil(old', i);
    SplitRows(old', taken, key);
    assert HasKey(index, key);
    NoUntils(taken, key);
    JoinOne(old'[i].validUntil);
  }

  lemma SelfIndex(index: seq<CardEntry>)
    requires Strict(index)
    ensures IsIndex(index, index)
  {
    forall i | 0 <= i < |index| ensures IsJoin(UntilsOf(index, index[i].key), index[i].validUntil) {
      OnlyUntil(index, i);
      JoinOne(index[i].validUntil);
    }
  }

  /** The index after one more row of the sorted rows. */
  function Deduped(index: seq<CardEntry>, e: CardEntry): seq<CardEntry> {
    var last := |index| - 1;
    if e.key == TOMBSTONE then index
    else if index != [] && index[last].key == e.key
    then index[last := CardEntry(e.key, Join(index[last].validUntil, e.validUntil))]
    else index + [e]
  }

  lemma DedupeStep(sorted: seq<CardEntry>, i: nat, index: seq<CardEntry>)
    requires Sorted(sorted) && LiveRows(sorted) && i < |sorted| && IsIndex(sorted[..i], index)
    ensures IsIndex(sorted[..i + 1], Deduped(index, sorted[i]))
  {
    var e := sorted[i];
    assert sorted[..i + 1] == sorted[..i] + [e];
    if e.key == TOMBSTONE {
      IndexSkips(sorted[..i], index, e);
    } else if index != [] && index[|index| - 1].key == e.key {
      IndexJoins(sorted[..i], index, e);
    } else {
      if index != [] { LastIsBelow(sorted, i, index); }
      IndexGrows(sorted[..i], index, e);
    }
  }

  lemma LastIsBelow(sorted: seq<CardEntry>, i: nat, index: seq<CardEntry>)
    requires Sorted(sorted) && i < |sorted| && IsIndex(sorted[..i], index)
    requires index != [] && index[|index| - 1].key != sorted[i].key
    ensures index[|index| - 1].key < sorted[i].key
  {
    assert HasKey(index, index[|index| - 1].key);
    var k :| 0 <= k < i && sorted[..i][k].key == index[|index| - 1].key;
    assert sorted[k].key <= sorted[i].key;
  }

  function DedupedAll(sorted: seq<CardEntry>): seq<CardEntry> {
    if sorted == [] then [] else Deduped(DedupedAll(sorted[..|sorted| - 1]), sorted[|sorted| - 1])
  }

  lemma {:induction false} DedupedAllIsIndex(sorted: seq<CardEntry>, i: nat)
    requires Sorted(sorted) && LiveRows(sorted) && i <= |sorted|
    ensures IsIndex(sorted[..i], DedupedAll(sorted[..i]))
  {
    if i > 0 {
      DedupedAllIsIndex(sorted, i - 1);
      assert sorted[..i][..i - 1] == sorted[..i - 1];
      DedupeStep(sorted, i - 1, DedupedAll(sorted[..i - 1]));
    }
  }

  /** Sorting in any order and merging neighbours gives the index of the rows. */
  lemma SortedAndDeduped(rows: seq<CardEntry>, sorted: seq<CardEntry>)
    requires LiveRows(rows) && Sorted(sorted) && multiset(rows) == multiset(sorted)
    ensures IsIndex(rows, DedupedAll(sorted))
  {
    RowsStayLive(rows, sorted);
    DedupedAllIsIndex(sorted, |sorted|);
    assert sorted[..|sorted|] == sorted;
    PermutedRows(sorted, rows, DedupedAll(sorted));
  }

  lemma RowsStayLive(a: seq<CardEntry>, b: seq<CardEntry>)
    requires LiveRows(a) && multiset(a) == multiset(b)
    ensures LiveRows(b)
  {
    forall i | 0 <= i < |b| ensures b[i].key <= TOMBSTONE {
      assert b[i] in multiset(a);
    }
  }

  /** What the removals leave: the slots without a tombstone, as they were. */
  ghost predicate IsKept(index: seq<CardEntry>, tombs: set<nat>, kept: seq<CardEntry>) {
    && Strict(kept)
    && (forall e :: e in kept <==> exists i :: 0 <= i < |index| && i !in tombs && index[i] == e)
  }

  lemma MarkedIsKept(index: seq<CardEntry>, tombs: set<nat>, kept: seq<CardEntry>)
    requires Strict(index) && IsIndex(Marked(index, tombs), kept)
    ensures IsKept(index, tombs, kept)
  {
    forall j | 0 <= j < |kept| ensures exists i :: 0 <= i < |index| && i !in tombs && index[i] == kept[j] {
      var i := KeptWasUnmarked(index, tombs, kept, j);
    }
    forall i | 0 <= i < |index| && i !in tombs ensures index[i] in kept {
      UnmarkedIsKept(index, tombs, kept, i);
    }
  }

  lemma KeptWasUnmarked(index: seq<CardEntry>, tombs: set<nat>, kept: seq<CardEntry>, j: nat) returns (i: nat)
    requires Strict(index) && IsIndex(Marked(index, tombs), kept) && j < |kept|
    ensures i < |index| && i !in tombs && index[i] == kept[j]
  {
    var marked := Marked(index, tombs);
    assert HasKey(kept, kept[j].key);
    i :| 0 <= i < |marked| && marked[i].key == kept[j].key;
    MarkedUntil(index, tombs, i);
  }

  lemma UnmarkedIsKept(index: seq<CardEntry>, tombs: set<nat>, kept: seq<CardEntry>, i: nat)
    requires Strict(index) && IsIndex(Marked(index, tombs), kept) && i < |index| && i !in tombs
    ensures index[i] in kept
  {
    var marked := Marked(index, tombs);
    assert marked[i].key == index[i].key;
    assert HasKey(marked, index[i].key);
    var j :| 0 <= j < |kept| && kept[j].key == index[i].key;
    MarkedUntil(index, tombs, i);
    assert kept[j] == index[i];
  }

  lemma MarkedUntil(index: seq<CardEntry>, tombs: set<nat>, i: nat)
    requires Strict(index) && i < |index| && i !in tombs
    ensures UntilsOf(Marked(index, tombs), index[i].key) == {index[i].validUntil}
  {
    var marked := Marked(index, tombs);
    assert marked[i] == index[i] && marked[i] in marked;
    forall e | e in marked && e.key == index[i].key ensures e == index[i] {
      var k :| 0 <= k < |marked| && marked[k] == e;
      assert k !in tombs && index[k].key == index[i].key;
      assert k == i;
    }
  }

  lemma NothingTombed(index: seq<CardEntry>, kept: seq<CardEntry>)
    requires Strict(index) && kept == index
    ensures IsKept(index, {}, kept)
  {
    forall e ensures e in kept <==> exists i :: 0 <= i < |index| && index[i] == e {
    }
  }

  ghost predicate LiveEntries(s: seq<CardEntry>) {
    forall i :: 0 <= i < |s| ==> s[i].key < TOMBSTONE
  }

  lemma {:induction false} HalveSeesKeys(a: seq<CardEntry>, b: seq<CardEntry>, key: nat, lo: nat, hi: nat)
    requires |a| == |b| && lo <= hi <= |a| && forall i :: 0 <= i < |a| ==> a[i].key == b[i].key
    ensures Halve(a, key, lo, hi) == Halve(b, key, lo, hi)
    decreases hi - lo
  {
    if lo < hi {
      var mid := lo + (hi - lo) / 2;
      HalveSeesKeys(a, b, key, mid + 1, hi);
      HalveSeesKeys(a, b, key, lo, mid);
    }
  }

  lemma SearchSeesKeys(a: seq<CardEntry>, b: seq<CardEntry>, key: nat)
    requires |a| == |b| && forall i :: 0 <= i < |a| ==> a[i].key == b[i].key
    ensures Search(a, key) == Search(b, key)
  {
    HalveSeesKeys(a, b, key, 0, |a|);
  }

  /** One more row overwrites the one slot that holds its card, or is a new row. */
  lemma OverwriteHeld(index: seq<CardEntry>, adds: seq<CardEntry>, e: CardEntry, at: nat)
    requires Strict(index) && at < |index| && index[at].key == e.key
    ensures Overwritten(index, adds + [e]) == Overwritten(index, adds)[at := CardEntry(e.key, e.validUntil)]
  {
    assert (adds + [e])[..|adds|] == adds;
  }

  lemma OverwriteNone(index: seq<CardEntry>, adds: seq<CardEntry>, e: CardEntry)
    requires !HasKey(index, e.key)
    ensures Overwritten(index, adds + [e]) == Overwritten(index, adds)
  {
    assert (adds + [e])[..|adds|] == adds;
    assert forall k :: 0 <= k < |index| ==> index[k].key != e.key;
  }

  lemma HeldIsOverwritten(index: seq<CardEntry>, adds: seq<CardEntry>, e: CardEntry)
    requires Strict(index) && e.key < TOMBSTONE && Search(index, e.key) >= 0
    ensures var at := Search(index, e.key); var before := Overwritten(index, adds);
      at < |index| && Overwritten(index, adds + [e]) == before[at := before[at].(validUntil := e.validUntil)]
    ensures NewRows(index, adds + [e]) == NewRows(index, adds)
  {
    SearchFinds(index, e.key);
    assert (adds + [e])[..|adds|] == adds;
    OverwriteHeld(index, adds, e, Search(index, e.key));
  }

  lemma OtherIsNew(index: seq<CardEntry>, adds: seq<CardEntry>, e: CardEntry)
    requires Strict(index) && e.key < TOMBSTONE && Search(index, e.key) < 0
    ensures Overwritten(index, adds + [e]) == Overwritten(index, adds)
    ensures NewRows(index, adds + [e]) == NewRows(index, adds) + [e]
  {
    SearchFinds(index, e.key);
    assert (adds + [e])[..|adds|] == adds;
    OverwriteNone(index, adds, e);
  }

  /** Writing rows one at a time: a held card is overwritten, another is appended while there is room. */
  function WriteOne(index: seq<CardEntry>, rows: seq<CardEntry>, capacity: nat, e: CardEntry): seq<CardEntry> {
    var at := Search(index, e.key);
    if 0 <= at < |rows| then rows[at := rows[at].(validUntil := e.validUntil)]
    else if |rows| < capacity then rows + [e]
    else rows
  }

  function WriteAll(index: seq<CardEntry>, capacity: nat, adds: seq<CardEntry>): seq<CardEntry> {
    if adds == [] then index
    else WriteOne(index, WriteAll(index, capacity, adds[..|adds| - 1]), capacity, adds[|adds| - 1])
  }

  lemma {:induction false} WriteAllKeepsSearch(index: seq<CardEntry>, capacity: nat, adds: seq<CardEntry>, key: nat)
    ensures |index| <= |WriteAll(index, capacity, adds)|
    ensures Search(WriteAll(index, capacity, adds)[..|index|], key) == Search(index, key)
  {
    WriteAllKeepsKeys(index, capacity, adds);
    SearchSeesKeys(index, WriteAll(index, capacity, adds)[..|index|], key);
  }

  lemma {:induction false} WriteAllKeepsKeys(index: seq<CardEntry>, capacity: nat, adds: seq<CardEntry>)
    ensures |index| <= |WriteAll(index, capacity, adds)|
    ensures forall i :: 0 <= i < |index| ==> WriteAll(index, capacity, adds)[i].key == index[i].key
  {
    if adds != [] {
      WriteAllKeepsKeys(index, capacity, adds[..|adds| - 1]);
    }
  }

  function Prefix(rows: seq<CardEntry>, room: nat): seq<CardEntry> {
    if |rows| <= room then rows else rows[..room]
  }

  lemma UpdateInFront<T>(a: seq<T>, b: seq<T>, at: nat, x: T)
    requires at < |a|
    ensures (a + b)[at := x] == a[at := x] + b
  {
  }

  lemma PrefixGrows(a: seq<CardEntry>, rows: seq<CardEntry>, e: CardEntry, room: nat)
    ensures a + Prefix(rows + [e], room)
         == if |a + Prefix(rows, room)| < |a| + room then a + Prefix(rows, room) + [e] else a + Prefix(rows, room)
  {
    if |rows| < room {
      assert a + rows + [e] == a + (rows + [e]);
    } else {
      assert (rows + [e])[..room] == rows[..room];
    }
  }

  /** In one go: the index overwritten, then as many new rows as there is room for. */
  lemma {:induction false} WriteAllIs(index: seq<CardEntry>, capacity: nat, adds: seq<CardEntry>)
    requires Strict(index) && LiveEntries(adds) && |index| <= capacity
    ensures WriteAll(index, capacity, adds)
         == Overwritten(index, adds) + Prefix(NewRows(index, adds), capacity - |index|)
  {
    if adds != [] {
      var front, e := adds[..|adds| - 1], adds[|adds| - 1];
      WriteAllIs(index, capacity, front);
      assert adds == front + [e];
      WriteLast(index, capacity, front, e);
    } else {
      assert Overwritten(index, adds) == index;
    }
  }

  lemma WriteHeldIs(index: seq<CardEntry>, over: seq<CardEntry>, more: seq<CardEntry>, capacity: nat, e: CardEntry, at: nat)
    requires at == Search(index, e.key) && at < |over|
    ensures WriteOne(index, over + more, capacity, e) == over[at := over[at].(validUntil := e.validUntil)] + more
  {
    UpdateInFront(over, more, at, over[at].(validUntil := e.validUntil));
  }

  lemma WriteNewIs(index: seq<CardEntry>, over: seq<CardEntry>, more: seq<CardEntry>, capacity: nat, e: CardEntry)
    requires Search(index, e.key) < 0 && |over| <= capacity
    ensures WriteOne(index, over + Prefix(more, capacity - |over|), capacity, e) == over + Prefix(more + [e], capacity - |over|)
  {
    PrefixGrows(over, more, e, capacity - |over|);
  }

  lemma WriteLast(index: seq<CardEntry>, capacity: nat, front: seq<CardEntry>, e: CardEntry)
    requires Strict(index) && e.key < TOMBSTONE && |index| <= capacity
    ensures WriteOne(index, Overwritten(index, front) + Prefix(NewRows(index, front), capacity - |index|), capacity, e)
         == Overwritten(index, front + [e]) + Prefix(NewRows(index, front + [e]), capacity - |index|)
  {
    if Search(index, e.key) >= 0 {
      HeldIsOverwritten(index, front, e);
      WriteHeldIs(index, Overwritten(index, front), Prefix(NewRows(index, front), capacity - |index|), capacity, e, Search(index, e.key));
    } else {
      OtherIsNew(index, front, e);
      WriteNewIs(index, Overwritten(index, front), NewRows(index, front), capacity, e);
    }
  }

  lemma MarkedIsLive(index: seq<CardEntry>, tombs: set<nat>)
    requires Strict(index)
    ensures LiveRows(Marked(index, tombs))
  {
  }

  lemma {:induction false} WriteAllIsLive(index: seq<CardEntry>, capacity: nat, adds: seq<CardEntry>)
    requires Strict(index) && LiveEntries(adds)
    ensures LiveRows(WriteAll(index, capacity, adds))
  {
    if adds != [] {
      WriteAllIsLive(index, capacity, adds[..|adds| - 1]);
    }
  }

  /** What writing the additions leaves, before it is sorted again. */
  lemma WrittenRows(index: seq<CardEntry>, capacity: nat, adds: seq<CardEntry>, written: seq<CardEntry>)
    requires Strict(index) && LiveEntries(adds) && |index| <= capacity && written == WriteAll(index, capacity, adds)
    ensures LiveRows(written)
    ensures |written| == |index| ==> IsIndex(written, written)
    ensures written == Overwritten(index, adds) + Prefix(NewRows(index, adds), capacity - |index|)
  {
    WriteAllIsLive(index, capacity, adds);
    WriteAllIs(index, capacity, adds);
    if |written| == |index| {
      WriteAllKeepsKeys(index, capacity, adds);
      SelfIndex(written);
    }
  }

  /** The rows of new cards that there is room for: the first ones. */
  function Taken(index: seq<CardEntry>, adds: seq<CardEntry>, capacity: nat): seq<CardEntry>
    requires |index| <= capacity
  {
    Prefix(NewRows(index, adds), capacity - |index|)
  }

  lemma UpdateFrom(index: seq<CardEntry>, capacity: nat, adds: seq<CardEntry>, written: seq<CardEntry>, after: seq<CardEntry>)
    requires Strict(index) && LiveEntries(adds) && |index| <= capacity && written == WriteAll(index, capacity, adds)
    requires IsIndex(written, after)
    ensures IsUpdateBy(index, adds, Taken(index, adds, capacity), after)
    ensures |written| == |index| + |Taken(index, adds, capacity)|
    ensures |written| == |index| + |NewRows(index, adds)| ==> IsUpdate(index, adds, after)
  {
    WrittenRows(index, capacity, adds, written);
    NewRowsAreNotHeld(index, adds);
    MergedIsUpdateBy(index, adds, Taken(index, adds, capacity), after);
    if |written| == |index| + |NewRows(index, adds)| {
      AllTaken(index, adds, after);
    }
  }

  /** None of the additions changes a row or adds one. */
  ghost predicate Idle(index: seq<CardEntry>, capacity: nat, adds: seq<CardEntry>, n: nat)
    requires n <= |adds|
  {
    forall i :: 0 <= i < n ==> WriteAll(index, capacity, adds[..i + 1]) == WriteAll(index, capacity, adds[..i])
  }

  /** One row more; the slots searched are those of the index, whose keys have not changed. */
  lemma WriteAllMore(index: seq<CardEntry>, capacity: nat, adds: seq<CardEntry>, i: nat)
    requires i < |adds|
    ensures var rows, e := WriteAll(index, capacity, adds[..i]), adds[i];
      && |index| <= |rows| && Search(rows[..|index|], e.key) == Search(index, e.key)
      && WriteAll(index, capacity, adds[..i + 1]) == WriteOne(rows[..|index|], rows, capacity, e)
      && NewRows(index, adds[..i + 1]) == NewRows(index, adds[..i]) + (if Search(index, e.key) < 0 then [e] else [])
      && (Idle(index, capacity, adds, i + 1) <==> Idle(index, capacity, adds, i) && WriteAll(index, capacity, adds[..i + 1]) == rows)
  {
    assert adds[..i + 1][..i] == adds[..i];
    WriteAllKeepsSearch(index, capacity, adds[..i], adds[i].key);
  }

  /** The rows after the first `n` additions, and the counts so far. */
  ghost predicate Progress(index: seq<CardEntry>, capacity: nat, adds: seq<CardEntry>, n: nat, rows: seq<CardEntry>, changed: nat, dropped: int) {
    && n <= |adds| && |index| <= |rows| <= capacity && rows == WriteAll(index, capacity, adds[..n])
    && dropped == |index| + |NewRows(index, adds[..n])| - |rows|
    && (changed == 0 <==> Idle(index, capacity, adds, n)) && (changed == 0 ==> rows == index)
  }

  lemma ProgressMore(index: seq<CardEntry>, capacity: nat, adds: seq<CardEntry>, i: nat, rows: seq<CardEntry>, after: seq<CardEntry>,
                     changed: nat, dropped: int, wrote: bool, full: bool)
    requires i < |adds| && Progress(index, capacity, adds, i, rows, changed, dropped)
    requires after == WriteOne(rows[..|index|], rows, capacity, adds[i]) && (!wrote <==> after == rows)
    requires full <==> Search(rows[..|index|], adds[i].key) < 0 && |rows| == capacity
    ensures Progress(index, capacity, adds, i + 1, after, if wrote then changed + 1 else changed, if full then dropped + 1 else dropped)
  {
    WriteAllMore(index, capacity, adds, i);
  }

  /** What reading a downloaded snapshot from flash may give. */
  datatype FileRead = CannotOpen | Short(rows: seq<CardEntry>) | Complete(rows: seq<CardEntry>)

  class CardCache {
    const entries: array<CardEntry>
    var count: nat
    var ready: bool

    ghost predicate Valid()
      reads this, entries
    {
      count <= entries.Length && Strict(entries[..count])
    }

    ghost function Contents(): seq<CardEntry>
      reads this, entries
      requires count <= entries.Length
    {
      entries[..count]
    }

    constructor (capacity: nat)
      ensures Valid() && fresh(entries) && entries.Length == capacity && Contents() == [] && !ready
    {
      entries := new CardEntry[capacity](_ => CardEntry(0, 0));
      count, ready := 0, false;
    }

    method Find(key: nat, limit: nat) returns (index: int)
      requires limit <= entries.Length
      ensures index == Search(entries[..limit], key)
    {
      var lo, hi := 0, limit;
      while lo < hi
        invariant 0 <= lo <= hi <= limit
        invariant Halve(entries[..limit], key, 0, limit) == Halve(entries[..limit], key, lo, hi)
      {
        var mid := lo + (hi - lo) / 2;
        if entries[mid].key < key { lo := mid + 1; } else { hi := mid; }
      }
      return if lo < limit && entries[lo].key == key then lo else -1;
    }

    method Put(i: nat, e: CardEntry)
      requires i < count <= entries.Length
      modifies entries
      ensures Contents() == old(Contents())[i := e]
    {
      entries[i] := e;
    }

    method Append(e: CardEntry)
      requires count < entries.Length
      modifies this`count, entries
      ensures count == old(count) + 1 && Contents() == old(Contents()) + [e]
    {
      entries[count] := e;
      count := count + 1;
    }

    /** The library's sort: orders the first `n` slots by key, in no promised order among equal keys. */
    method StdSort(n: nat)
      requires n <= entries.Length
      modifies entries
      ensures Sorted(entries[..n]) && multiset(entries[..n]) == multiset(old(entries[..n]))
    {
      var sorted := SortedRows(entries[..n]);
      SortedRowsSorts(entries[..n]);
      for i := 0 to n
        invariant entries[..i] == sorted[..i]
      {
        entries[i] := sorted[i];
      }
      assert entries[..n] == sorted;
    }

    /** Drops tombstones and merges equal neighbours, in place. */
    method Dedupe()
      requires count <= entries.Length
      modifies this`count, entries
      ensures count <= entries.Length && Contents() == DedupedAll(old(Contents()))
    {
      ghost var sorted := entries[..count];
      var out := 0;
      for i := 0 to count
        invariant out <= i && count == old(count) && entries[i..count] == sorted[i..]
        invariant entries[..out] == DedupedAll(sorted[..i])
      {
        ghost var index := entries[..out];
        assert sorted[..i + 1][..i] == sorted[..i];
        assert entries[i] == entries[i..count][0] == sorted[i];
        assert entries[i + 1..count] == entries[i..count][1..] == sorted[i + 1..];
        if entries[i].key == TOMBSTONE {
        } else if out > 0 && entries[out - 1].key == entries[i].key {
          var a, b := entries[out - 1].validUntil, entries[i].validUntil;
          entries[out - 1] := CardEntry(entries[out - 1].key, if a == 0 || b == 0 then 0 else if a < b then b else a);
        } else {
          entries[out] := entries[i];
          out := out + 1;
        }
        assert entries[i + 1..count] == sorted[i + 1..];
        assert entries[..out] == Deduped(index, sorted[i]);
      }
      assert sorted[..count] == sorted;
      count := out;
    }

    method SortAndDedupe()
      requires count <= entries.Length && LiveRows(Contents())
      modifies this`count, entries
      ensures Valid() && IsIndex(old(Contents()), Contents())
    {
      ghost var rows := Contents();
      StdSort(count);
      ghost var sorted := Contents();
      Dedupe();
      SortedAndDeduped(rows, sorted);
    }

    method Lookup(key: nat) returns (found: bool, validUntil: nat)
      requires Valid() && key < TOMBSTONE
      ensures found <==> key != 0 && HasKey(Contents(), key)
      ensures found ==> CardEntry(key, validUntil) in Contents()
    {
      if key == 0 {
        return false, 0;
      }
      var index := Find(key, count);
      SearchFinds(Contents(), key);
      if index < 0 {
        return false, 0;
      }
      assert Contents()[index] == entries[index];
      return true, entries[index].validUntil;
    }

    /** Marks the removed cards, searching between the tombstones already made. */
    /** Puts a tombstone in the slot that the halving reaches, if the key is there. */
    method Bury(key: nat) returns (at: int)
      requires count <= entries.Length
      modifies entries
      ensures at == Search(old(Contents()), key) && at < count
      ensures Contents() == if at < 0 then old(Contents()) else old(Contents())[at := old(Contents())[at].(key := TOMBSTONE)]
    {
      at := Find(key, count);
      if at >= 0 {
        Put(at, entries[at].(key := TOMBSTONE));
      }
    }

    method MarkRemoved(removes: seq<nat>) returns (changed: nat)
      requires count <= entries.Length
      modifies entries
      ensures Contents() == Marked(old(Contents()), Tombs(old(Contents()), removes))
      ensures changed == 0 <==> Tombs(old(Contents()), removes) == {}
    {
      ghost var index := Contents();
      ghost var tombs: set<nat> := {};
      changed := 0;
      NoTombstones(index);
      for i := 0 to |removes|
        invariant tombs == Tombs(index, removes[..i]) && Contents() == Marked(index, tombs)
        invariant changed == 0 <==> tombs == {}
      {
        NextTomb(index, removes, i);
        var at := Bury(removes[i]);
        if at >= 0 {
          MarkedMore(index, tombs, at);
          tombs := tombs + {at};
          changed := changed + 1;
        }
      }
      assert removes[..|removes|] == removes;
    }

    /** Overwrites a card that is held, among the first `sorted`, or appends it while there is room. */
    method WriteAdd(e: CardEntry, sorted: nat) returns (changed: bool, dropped: bool)
      requires sorted <= count <= entries.Length
      modifies this`count, entries
      ensures count <= entries.Length && Contents() == WriteOne(old(Contents())[..sorted], old(Contents()), entries.Length, e)
      ensures !changed <==> Contents() == old(Contents())
      ensures dropped <==> Search(old(Contents())[..sorted], e.key) < 0 && old(count) == entries.Length
    {
      changed, dropped := false, false;
      assert entries[..sorted] == Contents()[..sorted];
      var index := Find(e.key, sorted);
      if index >= 0 {
        if entries[index].validUntil != e.validUntil {
          Put(index, entries[index].(validUntil := e.validUntil));
          changed := true;
          assert Contents()[index] != old(Contents())[index];
        }
      } else if count >= entries.Length {
        dropped := true;
      } else {
        Append(e);
        changed := true;
      }
    }

    /** Overwrites the cards that are held and appends the others while there is room. */
    method WriteAdds(adds: seq<CardEntry>) returns (changed: nat, dropped: nat)
      requires Valid() && LiveEntries(adds)
      modifies this`count, entries
      ensures count <= entries.Length && Contents() == WriteAll(old(Contents()), entries.Length, adds)
      ensures dropped == old(count) + |NewRows(old(Contents()), adds)| - count
      ensures changed == 0 <==> Idle(old(Contents()), entries.Length, adds, |adds|)
      ensures changed == 0 ==> Contents() == old(Contents())
    {
      ghost var kept := Contents();
      var sorted := count;
      changed, dropped := 0, 0;
      for i := 0 to |adds|
        invariant sorted == |kept| <= count <= entries.Length
        invariant Progress(kept, entries.Length, adds, i, Contents(), changed, dropped)
      {
        ghost var before, was, lost := Contents(), changed, dropped;
        var wrote, full := WriteAdd(adds[i], sorted);
        if wrote { changed := changed + 1; }
        if full { dropped := dropped + 1; }
        ProgressMore(kept, entries.Length, adds, i, before, Contents(), was, lost, wrote, full);
      }
      assert adds[..|adds|] == adds;
    }

    /**
     * Applies one complete delta. `kept` is what the removals leave; held cards are overwritten, and the
     * first of the new rows are taken in as far as there is room. When nothing is dropped the outcome is
     * the update by all the additions.
     */
    method ApplyDelta(removes: seq<nat>, adds: seq<CardEntry>)
      returns (changed: nat, dropped: nat, ghost kept: seq<CardEntry>)
      requires Valid() && LiveKeys(removes) && LiveEntries(adds)
      modifies this`count, entries
      ensures Valid() && count <= entries.Length
      ensures IsKept(old(Contents()), Tombs(old(Contents()), removes), kept)
      ensures |kept| <= entries.Length && IsUpdateBy(kept, adds, Taken(kept, adds, entries.Length), Contents())
      ensures dropped == |NewRows(kept, adds)| - |Taken(kept, adds, entries.Length)|
      ensures dropped == 0 ==> IsUpdate(kept, adds, Contents())
      ensures changed == 0 <==> Tombs(old(Contents()), removes) == {} && Idle(kept, entries.Length, adds, |adds|)
      ensures changed == 0 ==> Contents() == old(Contents())
    {
      ghost var index, tombs := Contents(), Tombs(Contents(), removes);
      changed := MarkRemoved(removes);
      if changed > 0 {
        MarkedIsLive(index, tombs);
        SortAndDedupe();
        MarkedIsKept(index, tombs, Contents());
      } else {
        NoTombstones(index);
        NothingTombed(index, Contents());
      }
      kept := Contents();
      var sorted := count;
      var written;
      written, dropped := WriteAdds(adds);
      changed := changed + written;
      WrittenRows(kept, entries.Length, adds, Contents());
      if count != sorted {
        SortAndDedupe();
      }
      ghost var after := Contents();
      UpdateFrom(kept, entries.Length, adds, WriteAll(kept, entries.Length, adds), after);
    }

    /** Replaces the whole set from a complete snapshot written to flash. */
    method ReplaceFromFile(expected: nat, file: FileRead) returns (ok: bool)
      requires Valid()
      requires file.Complete? ==> |file.rows| == expected && LiveRows(file.rows)
      requires file.Short? ==> |file.rows| < expected
      modifies this, entries
      ensures Valid()
      ensures ok <==> expected <= entries.Length && file.Complete?
      ensures ok ==> ready && IsIndex(file.rows, Contents())
      ensures expected > entries.Length || file.CannotOpen? ==> Contents() == old(Contents()) && ready == old(ready)
      ensures expected <= entries.Length && file.Short? ==> Contents() == [] && !ready
    {
      if expected > entries.Length {
        return false;
      }
      if file.CannotOpen? {
        return false;
      }
      for i := 0 to |file.rows|
        invariant entries[..i] == file.rows[..i]
      {
        entries[i] := file.rows[i];
      }
      if file.Short? {
        count, ready := 0, false;
        return false;
      }
      count := expected;
      assert Contents() == file.rows;
      SortAndDedupe();
      ready := true;
      return true;
    }
  }

  // ---- Main results about deltas ----

  /** No delta deletes a card it does not list. */
  lemma UnlistedStay(index: seq<CardEntry>, removes: seq<nat>, kept: seq<CardEntry>, e: CardEntry)
    requires Strict(index) && LiveKeys(removes) && IsKept(index, Tombs(index, removes), kept)
    requires e in index && e.key !in removes
    ensures e in kept
  {
    TombsAreListed(index, removes);
    var i :| 0 <= i < |index| && index[i] == e;
  }

  /**
   * The keys after a delta that fits are the old ones less the removed plus the added exactly when
   * every card whose removal missed it is among the additions.
   */
  lemma DeltaKeysIff(index: seq<CardEntry>, removes: seq<nat>, adds: seq<CardEntry>, kept: seq<CardEntry>, after: seq<CardEntry>)
    requires Strict(index) && LiveKeys(removes)
    requires IsKept(index, Tombs(index, removes), kept) && IsUpdate(kept, adds, after)
    ensures (forall key: nat :: HasKey(after, key) <==> (HasKey(index, key) && key !in removes) || HasKey(adds, key))
       <==> (forall j :: 0 <= j < |index| && index[j].key in removes && j !in Tombs(index, removes) ==> HasKey(adds, index[j].key))
  {
    TombsAreListed(index, removes);
    forall key: nat ensures HasKey(kept, key) <==> exists j :: 0 <= j < |index| && j !in Tombs(index, removes) && index[j].key == key {
      KeptKeys(index, Tombs(index, removes), kept, key);
    }
  }

  lemma KeptKeys(index: seq<CardEntry>, tombs: set<nat>, kept: seq<CardEntry>, key: nat)
    requires IsKept(index, tombs, kept)
    ensures HasKey(kept, key) <==> exists j :: 0 <= j < |index| && j !in tombs && index[j].key == key
  {
    if HasKey(kept, key) {
      var i :| 0 <= i < |kept| && kept[i].key == key;
      assert kept[i] in kept;
    }
    if exists j :: 0 <= j < |index| && j !in tombs && index[j].key == key {
      var j :| 0 <= j < |index| && j !in tombs && index[j].key == key;
      assert index[j] in kept;
      var i :| 0 <= i < |kept| && kept[i] == index[j];
    }
  }
}
