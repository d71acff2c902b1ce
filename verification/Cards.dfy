/** The Pi's card cache: a map from card number to validity, fed by full and delta snapshots. */
module Cards {
  import opened Base
  import opened CardNumber
  import opened Validity

  /** A row of a snapshot: the card number as the portal stores it, and when it ends (0 or less: never). */
  datatype Item = Item(value: string, validUntil: int)

  type Store = map<string, nat>

  function Key(item: Item): string {
    CardNumberKey(item.value)
  }

  function Until(item: Item): nat {
    if item.validUntil > 0 then item.validUntil else 0
  }

  // ---- What a snapshot means ----

  function KeysOf(items: seq<Item>): set<string> {
    set item | item in items && Key(item) != "" :: Key(item)
  }

  function UntilsOf(items: seq<Item>, key: string): set<nat> {
    set item | item in items && Key(item) == key :: Until(item)
  }

  function RemovedKeys(removes: seq<string>): set<string> {
    set value | value in removes && CardNumberKey(value) != "" :: CardNumberKey(value)
  }

  /** Every card of the snapshot, each with the validity its rows add up to. */
  ghost predicate IsSnapshot(cards: Store, items: seq<Item>) {
    && cards.Keys == KeysOf(items)
    && forall k :: k in cards ==> IsJoin(UntilsOf(items, k), cards[k])
  }

  /** The validities that count for a card after a delta: what it kept and what was added. */
  function Sources(before: Store, removed: set<string>, adds: seq<Item>, k: string): set<nat> {
    (if k in before && k !in removed then {before[k]} else {}) + UntilsOf(adds, k)
  }

  function KeysAfter(before: Store, removed: set<string>, adds: seq<Item>): set<string> {
    (before.Keys - removed) + KeysOf(adds)
  }

  /** The old cards less the removed ones, joined with the added ones. */
  ghost predicate IsDelta(before: Store, removed: set<string>, adds: seq<Item>, after: Store) {
    && after.Keys == KeysAfter(before, removed, adds)
    && forall k :: k in after ==> IsJoin(Sources(before, removed, adds, k), after[k])
  }

  // ---- Adding rows one at a time ----

  datatype Tally = Tally(cards: Store, changed: nat, dropped: nat)

  function AddOne(t: Tally, capacity: nat, item: Item): Tally {
    var key := Key(item);
    if key == "" then t
    else if key in t.cards then
      var merged := Join(t.cards[key], Until(item));
      if merged != t.cards[key] then Tally(t.cards[key := merged], t.changed + 1, t.dropped) else t
    else if |t.cards| >= capacity then t.(dropped := t.dropped + 1)
    else Tally(t.cards[key := Until(item)], t.changed + 1, t.dropped)
  }

  function AddAll(t: Tally, capacity: nat, items: seq<Item>): Tally {
    if items == [] then t else AddOne(AddAll(t, capacity, items[..|items| - 1]), capacity, items[|items| - 1])
  }

  lemma KeysOfMore(items: seq<Item>, item: Item)
    ensures KeysOf(items + [item]) == KeysOf(items) + (if Key(item) == "" then {} else {Key(item)})
  {
  }

  lemma UntilsOfMore(items: seq<Item>, item: Item, k: string)
    ensures UntilsOf(items + [item], k) == UntilsOf(items, k) + (if Key(item) == k then {Until(item)} else {})
  {
  }

  /** Each card held has everything that counts for it. */
  ghost predicate Joined(before: Store, removed: set<string>, adds: seq<Item>, cards: Store) {
    forall k :: k in cards ==> IsJoin(Sources(before, removed, adds, k), cards[k])
  }

  /** All keys of the rows before the first that no longer fits, which is row `m`, and no new ones from there on. */
  ghost predicate Taken(before: Store, adds: seq<Item>, capacity: nat, cards: Store, m: nat) {
    && m <= |adds|
    && cards.Keys == before.Keys + KeysOf(adds[..m])
    && (cards.Keys != before.Keys ==> |cards| <= capacity)
    && (m < |adds| ==> |cards| >= capacity && Key(adds[m]) != "" && Key(adds[m]) !in cards)
  }

  /** A delta as far as there is room: known cards are joined, new ones taken in order until the cache is full. */
  ghost predicate IsCapped(before: Store, removed: set<string>, adds: seq<Item>, capacity: nat, after: Store) {
    Joined(before, removed, adds, after) && exists m :: Taken(before - removed, adds, capacity, after, m)
  }

  lemma SourcesOfMore(before: Store, items: seq<Item>, item: Item, k: string)
    ensures Sources(before, {}, items + [item], k)
         == Sources(before, {}, items, k) + (if Key(item) == k then {Until(item)} else {})
  {
    UntilsOfMore(items, item, k);
  }

  lemma NewKeyHasNoSources(before: Store, items: seq<Item>, k: string)
    requires k !in before && k !in KeysOf(items) && k != ""
    ensures Sources(before, {}, items, k) == {}
  {
    assert forall item :: item in items && Key(item) == k ==> k in KeysOf(items);
  }

  lemma OthersStayJoined(before: Store, items: seq<Item>, item: Item, k: string, until: nat)
    requires IsJoin(Sources(before, {}, items, k), until) && Key(item) != k
    ensures IsJoin(Sources(before, {}, items + [item], k), until)
  {
    SourcesOfMore(before, items, item, k);
    assert Sources(before, {}, items + [item], k) == Sources(before, {}, items, k);
  }

  lemma MergedIsJoined(before: Store, items: seq<Item>, item: Item, until: nat)
    requires IsJoin(Sources(before, {}, items, Key(item)), until)
    ensures IsJoin(Sources(before, {}, items + [item], Key(item)), Join(until, Until(item)))
  {
    SourcesOfMore(before, items, item, Key(item));
    JoinMore(Sources(before, {}, items, Key(item)), until, Until(item));
  }

  lemma InsertedIsJoined(before: Store, items: seq<Item>, item: Item)
    requires Key(item) !in before && Key(item) !in KeysOf(items) && Key(item) != ""
    ensures IsJoin(Sources(before, {}, items + [item], Key(item)), Until(item))
  {
    SourcesOfMore(before, items, item, Key(item));
    NewKeyHasNoSources(before, items, Key(item));
    assert Sources(before, {}, items + [item], Key(item)) == {Until(item)};
  }

  lemma AddOneIsJoined(before: Store, t: Tally, capacity: nat, items: seq<Item>, item: Item)
    requires Joined(before, {}, items, t.cards) && "" !in t.cards
    requires Key(item) in t.cards || Key(item) == "" || |t.cards| >= capacity || (Key(item) !in before && Key(item) !in KeysOf(items))
    ensures Joined(before, {}, items + [item], AddOne(t, capacity, item).cards)
  {
    var next := AddOne(t, capacity, item).cards;
    forall k | k in next ensures IsJoin(Sources(before, {}, items + [item], k), next[k]) {
      if k != Key(item) {
        OthersStayJoined(before, items, item, k, t.cards[k]);
      } else if k in t.cards {
        MergedIsJoined(before, items, item, t.cards[k]);
      } else {
        InsertedIsJoined(before, items, item);
      }
    }
  }

  /** Once a row has not fitted, one row more takes nothing new. */
  lemma FullStays(before: Store, t: Tally, capacity: nat, items: seq<Item>, item: Item, m: nat)
    requires Taken(before, items, capacity, t.cards, m) && (t.dropped == 0 <==> m == |items|)
    requires m < |items| || (Key(item) != "" && Key(item) !in t.cards && |t.cards| >= capacity)
    ensures Taken(before, items + [item], capacity, AddOne(t, capacity, item).cards, m)
    ensures AddOne(t, capacity, item).dropped != 0
  {
    assert (items + [item])[..m] == items[..m];
    assert AddOne(t, capacity, item).cards.Keys == t.cards.Keys;
    SameSize(AddOne(t, capacity, item).cards, t.cards);
  }

  lemma SmallerSet<T>(a: set<T>, b: set<T>)
    requires a <= b
    ensures |a| <= |b| && (a < b ==> |a| < |b|)
  {
    assert b == a + (b - a);
  }

  lemma SameSize(a: Store, b: Store)
    requires a.Keys == b.Keys
    ensures |a| == |b|
  {
    assert |a.Keys| == |a| && |b.Keys| == |b|;
  }

  lemma FewerCards(a: Store, b: Store)
    requires a.Keys < b.Keys
    ensures |a| < |b|
  {
    SmallerSet(a.Keys, b.Keys);
    assert |a.Keys| == |a| && |b.Keys| == |b|;
  }

  lemma AddOneHolds(t: Tally, capacity: nat, item: Item)
    requires Key(item) == "" || Key(item) in t.cards || |t.cards| < capacity
    ensures var next := AddOne(t, capacity, item);
      && next.cards.Keys == t.cards.Keys + (if Key(item) == "" then {} else {Key(item)})
      && next.dropped == t.dropped
      && (if next.cards.Keys == t.cards.Keys then |next.cards| == |t.cards| else |next.cards| <= capacity)
  {
    var next := AddOne(t, capacity, item);
    if Key(item) == "" || Key(item) in t.cards {
      assert next.cards.Keys == t.cards.Keys;
      SameSize(next.cards, t.cards);
    } else {
      assert |next.cards| == |t.cards| + 1;
    }
  }

  lemma Regroup<T>(a: set<T>, b: set<T>, c: set<T>)
    ensures (a + b) + c == a + (b + c)
  {
  }

  /** With every row so far taken, a row that finds room is taken too. */
  lemma RoomIsTaken(before: Store, capacity: nat, items: seq<Item>, item: Item, keys: set<string>, added: set<string>, cards: Store, next: Store)
    requires cards.Keys == before.Keys + keys && KeysOf(items + [item]) == keys + added
    requires cards.Keys != before.Keys ==> |cards| <= capacity
    requires next.Keys == cards.Keys + added && (if next.Keys == cards.Keys then |next| == |cards| else |next| <= capacity)
    ensures Taken(before, items + [item], capacity, next, |items| + 1)
  {
    assert (items + [item])[..|items| + 1] == items + [item];
    Regroup(before.Keys, keys, added);
  }

  lemma RoomIsUsed(before: Store, t: Tally, capacity: nat, items: seq<Item>, item: Item)
    requires Taken(before, items, capacity, t.cards, |items|)
    requires Key(item) == "" || Key(item) in t.cards || |t.cards| < capacity
    ensures Taken(before, items + [item], capacity, AddOne(t, capacity, item).cards, |items| + 1)
    ensures AddOne(t, capacity, item).dropped == t.dropped
  {
    AddOneHolds(t, capacity, item);
    KeysOfMore(items, item);
    assert items[..|items|] == items;
    RoomIsTaken(before, capacity, items, item, KeysOf(items), if Key(item) == "" then {} else {Key(item)}, t.cards, AddOne(t, capacity, item).cards);
  }

  lemma AddLast(before: Store, t: Tally, capacity: nat, items: seq<Item>, item: Item, n: nat) returns (m: nat)
    requires Taken(before, items, capacity, t.cards, n) && (t.dropped == 0 <==> n == |items|)
    requires Joined(before, {}, items, t.cards) && "" !in t.cards
    ensures var next := AddOne(t, capacity, item);
      && Taken(before, items + [item], capacity, next.cards, m) && (next.dropped == 0 <==> m == |items| + 1)
      && Joined(before, {}, items + [item], next.cards)
  {
    assert items[..|items|] == items;
    if n < |items| || (Key(item) != "" && Key(item) !in t.cards && |t.cards| >= capacity) {
      m := n;
      FullStays(before, t, capacity, items, item, n);
    } else {
      m := |items| + 1;
      RoomIsUsed(before, t, capacity, items, item);
    }
    AddOneIsJoined(before, t, capacity, items, item);
  }

  lemma NoNamelessCard(t: Tally, capacity: nat, item: Item)
    requires "" !in t.cards
    ensures "" !in AddOne(t, capacity, item).cards
  {
  }

  lemma {:induction false} AddAllTakes(before: Store, capacity: nat, items: seq<Item>) returns (m: nat)
    requires "" !in before
    ensures var t := AddAll(Tally(before, 0, 0), capacity, items);
      Taken(before, items, capacity, t.cards, m) && (t.dropped == 0 <==> m == |items|) && Joined(before, {}, items, t.cards) && "" !in t.cards
  {
    if items == [] {
      m := 0;
      NothingAdded(before, items);
    } else {
      var front, item := items[..|items| - 1], items[|items| - 1];
      var n := AddAllTakes(before, capacity, front);
      m := AddLast(before, AddAll(Tally(before, 0, 0), capacity, front), capacity, front, item, n);
      NoNamelessCard(AddAll(Tally(before, 0, 0), capacity, front), capacity, item);
      assert front + [item] == items;
    }
  }

  lemma NothingAdded(before: Store, items: seq<Item>)
    requires items == []
    ensures Joined(before, {}, items, before)
  {
    forall k | k in before ensures IsJoin(Sources(before, {}, items, k), before[k]) {
      assert Sources(before, {}, items, k) == {before[k]};
    }
  }

  lemma {:induction false} AddAllUnchanged(before: Store, capacity: nat, items: seq<Item>)
    ensures AddAll(Tally(before, 0, 0), capacity, items).changed == 0 ==> AddAll(Tally(before, 0, 0), capacity, items).cards == before
  {
    if items != [] {
      AddAllUnchanged(before, capacity, items[..|items| - 1]);
    }
  }

  lemma {:induction false} FewKeys(items: seq<Item>)
    ensures |KeysOf(items)| <= |items|
  {
    if items != [] {
      var front, item := items[..|items| - 1], items[|items| - 1];
      FewKeys(front);
      assert items == front + [item];
      KeysOfMore(front, item);
    }
  }

  /** Whether rows fit is a matter of how many cards they leave. */
  lemma TakenFits(before: Store, capacity: nat, adds: seq<Item>, cards: Store, m: nat)
    requires Taken(before, adds, capacity, cards, m)
    ensures m == |adds| <==> cards.Keys == before.Keys + KeysOf(adds)
    ensures |before.Keys + KeysOf(adds)| <= capacity ==> m == |adds|
    ensures m == |adds| && |before| <= capacity ==> |before.Keys + KeysOf(adds)| <= capacity
    ensures |before| <= capacity ==> |cards| <= capacity
  {
    var keys := before.Keys + KeysOf(adds);
    assert adds[..|adds|] == adds;
    assert |cards| == |cards.Keys| && |before| == |before.Keys|;
    assert cards.Keys <= keys;
    if m < |adds| {
      assert Key(adds[m]) in keys;
      SmallerSet(cards.Keys, keys);
    }
  }

  lemma DropsWhenFull(before: Store, capacity: nat, adds: seq<Item>)
    requires |before| <= capacity && "" !in before
    ensures AddAll(Tally(before, 0, 0), capacity, adds).dropped == 0 <==> |before.Keys + KeysOf(adds)| <= capacity
  {
    var m := AddAllTakes(before, capacity, adds);
    TakenFits(before, capacity, adds, AddAll(Tally(before, 0, 0), capacity, adds).cards, m);
  }

  lemma RemovedKeysMore(removes: seq<string>, value: string)
    ensures RemovedKeys(removes + [value])
         == RemovedKeys(removes) + (if CardNumberKey(value) == "" then {} else {CardNumberKey(value)})
  {
  }

  /** Every card is filed under its own number. */
  ghost predicate Stable(cards: Store) {
    forall k :: k in cards ==> k != "" && CardNumberKey(k) == k
  }

  lemma {:induction false} KeysAreStable(before: Store, capacity: nat, items: seq<Item>)
    requires Stable(before)
    ensures Stable(AddAll(Tally(before, 0, 0), capacity, items).cards)
  {
    if items != [] {
      KeysAreStable(before, capacity, items[..|items| - 1]);
      KeyIsStable(items[|items| - 1].value);
    }
  }

  /** A snapshot that is not refused drops nothing. */
  lemma SnapshotIsComplete(items: seq<Item>, capacity: nat)
    requires |items| <= capacity
    ensures var t := AddAll(Tally(map[], 0, 0), capacity, items);
            t.dropped == 0 && IsSnapshot(t.cards, items) && |t.cards| <= capacity && Stable(t.cards)
  {
    var t := AddAll(Tally(map[], 0, 0), capacity, items);
    FewKeys(items);
    KeysAreStable(map[], capacity, items);
    var m := AddAllTakes(map[], capacity, items);
    NoneBefore(KeysOf(items));
    TakenFits(map[], capacity, items, t.cards, m);
    JoinsOfNothing(t.cards, items);
  }

  lemma NoneBefore(keys: set<string>)
    ensures var none: Store := map[]; none.Keys + keys == keys
  {
  }

  lemma JoinsOfNothing(cards: Store, items: seq<Item>)
    requires Joined(map[], {}, items, cards) && cards.Keys == KeysOf(items)
    ensures IsSnapshot(cards, items)
  {
    forall k | k in cards ensures IsJoin(UntilsOf(items, k), cards[k]) {
      assert Sources(map[], {}, items, k) == UntilsOf(items, k);
    }
  }

  lemma RemovedBefore(before: Store, removed: set<string>, adds: seq<Item>, cards: Store)
    requires Joined(before - removed, {}, adds, cards)
    ensures Joined(before, removed, adds, cards)
  {
    forall k | k in cards ensures IsJoin(Sources(before, removed, adds, k), cards[k]) {
      assert Sources(before, removed, adds, k) == Sources(before - removed, {}, adds, k);
    }
  }

  lemma DeltaOutcome(before: Store, capacity: nat, removed: set<string>, adds: seq<Item>, t: Tally)
    requires Stable(before) && t == AddAll(Tally(before - removed, 0, 0), capacity, adds)
    ensures Stable(t.cards) && IsCapped(before, removed, adds, capacity, t.cards)
    ensures |before.Keys * removed| + t.changed == 0 ==> t.cards == before
    ensures t.dropped == 0 <==> t.cards.Keys == KeysAfter(before, removed, adds)
  {
    var kept := before - removed;
    KeysAreStable(kept, capacity, adds);
    AddAllUnchanged(kept, capacity, adds);
    NothingRemoved(before, removed);
    var m := AddAllTakes(kept, capacity, adds);
    RemovedBefore(before, removed, adds, t.cards);
    TakenFits(kept, capacity, adds, t.cards, m);
    assert kept.Keys == before.Keys - removed;
  }

  /** A delta drops nothing exactly when the cards it leaves fit, and then it is the delta. */
  lemma CappedFits(before: Store, removed: set<string>, adds: seq<Item>, capacity: nat, after: Store)
    requires IsCapped(before, removed, adds, capacity, after)
    ensures after.Keys == KeysAfter(before, removed, adds) <==> IsDelta(before, removed, adds, after)
    ensures |KeysAfter(before, removed, adds)| <= capacity ==> after.Keys == KeysAfter(before, removed, adds)
    ensures |before| <= capacity ==> |after| <= capacity
    ensures |before| <= capacity && after.Keys == KeysAfter(before, removed, adds) ==> |KeysAfter(before, removed, adds)| <= capacity
  {
    var kept := before - removed;
    var m :| Taken(kept, adds, capacity, after, m);
    SmallerSet(kept.Keys, before.Keys);
    assert |kept| == |kept.Keys| && |before| == |before.Keys|;
    assert kept.Keys == before.Keys - removed;
    TakenFits(kept, capacity, adds, after, m);
  }

  lemma KeysOfFirst(adds: seq<Item>, a: nat, b: nat)
    requires a < b <= |adds|
    ensures KeysOf(adds[..a]) <= KeysOf(adds[..b]) && (Key(adds[a]) != "" ==> Key(adds[a]) in KeysOf(adds[..b]))
  {
    assert adds[..a] == adds[..b][..a] && adds[..b][a] == adds[a];
  }

  lemma TakenKeysAreUnique(before: Store, adds: seq<Item>, capacity: nat, x: Store, y: Store, a: nat, b: nat)
    requires Taken(before, adds, capacity, x, a) && Taken(before, adds, capacity, y, b) && a <= b
    ensures x.Keys == y.Keys
  {
    if a < b {
      KeysOfFirst(adds, a, b);
      FewerCards(x, y);
    }
  }

  lemma NothingRemoved(before: Store, removed: set<string>)
    ensures |before.Keys * removed| == 0 ==> before - removed == before
  {
    if |before.Keys * removed| == 0 {
      assert before.Keys * removed == {};
      assert forall k :: k in before ==> k !in before.Keys * removed;
    }
  }

  /** Deleting keys one at a time. */
  function DeleteOne(cards: Store, key: string): Store {
    if key != "" && key in cards then cards - {key} else cards
  }

  function DeleteAll(cards: Store, removes: seq<string>): Store {
    if removes == [] then cards
    else DeleteOne(DeleteAll(cards, removes[..|removes| - 1]), CardNumberKey(removes[|removes| - 1]))
  }

  lemma {:induction false} DeleteAllIsRemoval(cards: Store, removes: seq<string>)
    ensures DeleteAll(cards, removes) == cards - RemovedKeys(removes)
  {
    if removes != [] {
      var front, last := removes[..|removes| - 1], removes[|removes| - 1];
      DeleteAllIsRemoval(cards, front);
      assert removes == front + [last];
      RemovedKeysMore(front, last);
      DeleteFromDifference(cards, RemovedKeys(front), CardNumberKey(last));
    }
  }

  lemma DeleteFromDifference(cards: Store, gone: set<string>, key: string)
    ensures DeleteOne(cards - gone, key) == cards - (gone + (if key == "" then {} else {key}))
  {
  }

  lemma DeletedSize(cards: Store, key: string)
    requires key in cards
    ensures |cards - {key}| == |cards| - 1
  {
    assert (cards - {key}).Keys == cards.Keys - {key};
  }

  lemma SizeOfRemoval(before: Store, removed: set<string>)
    ensures |before| - |before - removed| == |before.Keys * removed|
  {
    assert (before - removed).Keys == before.Keys - removed;
    assert before.Keys == (before.Keys - removed) + before.Keys * removed;
  }

  // ---- The cache ----

  // ---- What the count of changes tells ----

  /** A card's time after some rows is its time before them, joined with more. */
  ghost predicate Later(before: Store, after: Store) {
    before.Keys <= after.Keys && forall k :: k in before ==> Join(before[k], after[k]) == after[k]
  }

  lemma JoinOrders(a: nat, b: nat, u: nat)
    requires Join(a, b) == b
    ensures Join(a, Join(b, u)) == Join(b, u) && (Join(b, u) == a ==> b == a)
  {
  }

  lemma OneIsLater(before: Store, t: Tally, capacity: nat, item: Item)
    requires Later(before, t.cards)
    ensures var next := AddOne(t, capacity, item);
      && Later(before, next.cards) && next.changed >= t.changed
      && (next.changed == t.changed <==> next.cards == t.cards)
      && (next.cards == before ==> t.cards == before)
  {
    var key, next := Key(item), AddOne(t, capacity, item);
    if key != "" && key in t.cards {
      if key in before { JoinOrders(before[key], t.cards[key], Until(item)); }
      if next.cards == before { assert forall k :: k in t.cards && k != key ==> t.cards[k] == next.cards[k]; }
    } else if next.cards != t.cards {
      assert key in next.cards && key !in before;
    }
  }

  /** Rows count as changes exactly when they leave other cards than before: no time ever comes back. */
  lemma {:induction false} CountsChanges(t: Tally, capacity: nat, items: seq<Item>)
    ensures var after := AddAll(t, capacity, items);
      && Later(t.cards, after.cards) && after.changed >= t.changed
      && (after.changed == t.changed <==> after.cards == t.cards)
  {
    if items == [] {
      assert forall k :: k in t.cards ==> Join(t.cards[k], t.cards[k]) == t.cards[k];
    } else {
      var front := items[..|items| - 1];
      CountsChanges(t, capacity, front);
      OneIsLater(t.cards, AddAll(t, capacity, front), capacity, items[|items| - 1]);
    }
  }

  lemma ChangesTell(before: Store, removed: set<string>, kept: Store, after: Store, removals: int, additions: nat)
    requires kept == before - removed && removals == |before| - |kept| && (additions == 0 <==> after == kept)
    ensures removals >= 0 && (removals + additions == 0 <==> after == before && before.Keys !! removed)
  {
    SizeOfRemoval(before, removed);
    assert removals == 0 <==> before.Keys * removed == {};
    if before.Keys !! removed { assert kept == before; }
  }

  class CredentialCache {
    const capacity: nat
    var cards: Store
    var ready: bool
    var since: Option<int>
    var removedApplied: nat

    constructor (maxCards: int)
      ensures capacity == (if maxCards < 1 then 1 else maxCards)
      ensures cards == map[] && !ready && since == None && removedApplied == 0
    {
      capacity := if maxCards < 1 then 1 else maxCards;
      cards, ready, since, removedApplied := map[], false, None, 0;
    }

    ghost predicate Valid()
      reads this
    {
      Stable(cards)
    }

    method Lookup(cardNo: string) returns (found: bool, validUntil: nat)
      requires Valid()
      ensures found <==> CardNumberKey(cardNo) in cards
      ensures found ==> validUntil == cards[CardNumberKey(cardNo)]
    {
      var key := CardNumberKey(cardNo);
      if key == "" || key !in cards {
        return false, 0;
      }
      return true, cards[key];
    }

    /** Replaces the whole set from a complete snapshot, or refuses one that is too large. */
    method ReplaceAll(items: seq<Item>) returns (ok: bool, changed: nat, dropped: nat)
      modifies this`cards
      ensures ok <==> |items| <= capacity
      ensures !ok ==> cards == old(cards)
      ensures ok ==> IsSnapshot(cards, items) && |cards| <= capacity && changed == |cards| && dropped == 0 && Valid()
    {
      if |items| > capacity {
        return false, 0, 0;
      }
      var next: Store := map[];
      dropped := 0;
      for i := 0 to |items|
        invariant next == AddAll(Tally(map[], 0, 0), capacity, items[..i]).cards
        invariant dropped == AddAll(Tally(map[], 0, 0), capacity, items[..i]).dropped
      {
        var key, validUntil := Key(items[i]), Until(items[i]);
        assert items[..i + 1][..i] == items[..i];
        if key == "" {
        } else if key in next {
          next := next[key := Join(next[key], validUntil)];
        } else if |next| >= capacity {
          dropped := dropped + 1;
        } else {
          next := next[key := validUntil];
        }
      }
      assert items[..|items|] == items;
      SnapshotIsComplete(items, capacity);
      cards := next;
      return true, |next|, dropped;
    }

    method ApplyRemoves(removes: seq<string>) returns (changed: nat)
      modifies this`cards, this`removedApplied
      ensures cards == DeleteAll(old(cards), removes)
      ensures changed == old(|cards|) - |cards|
      ensures removedApplied == old(removedApplied) + changed
    {
      changed := 0;
      for i := 0 to |removes|
        invariant cards == DeleteAll(old(cards), removes[..i]) && changed == old(|cards|) - |cards|
        invariant removedApplied == old(removedApplied) + changed
      {
        var key := CardNumberKey(removes[i]);
        assert removes[..i + 1][..i] == removes[..i];
        if key != "" && key in cards {
          DeletedSize(cards, key);
          cards := cards - {key};
          changed := changed + 1;
          removedApplied := removedApplied + 1;
        }
      }
      assert removes[..|removes|] == removes;
    }

    method ApplyAdds(adds: seq<Item>) returns (changed: nat, dropped: nat)
      modifies this`cards
      ensures Tally(cards, changed, dropped) == AddAll(Tally(old(cards), 0, 0), capacity, adds)
    {
      changed, dropped := 0, 0;
      for i := 0 to |adds|
        invariant Tally(cards, changed, dropped) == AddAll(Tally(old(cards), 0, 0), capacity, adds[..i])
      {
        var key, validUntil := Key(adds[i]), Until(adds[i]);
        assert adds[..i + 1][..i] == adds[..i];
        if key == "" {
        } else if key in cards {
          var merged := Join(cards[key], validUntil);
          if merged != cards[key] {
            cards := cards[key := merged];
            changed := changed + 1;
          }
        } else if |cards| >= capacity {
          dropped := dropped + 1;
        } else {
          cards := cards[key := validUntil];
          changed := changed + 1;
        }
      }
      assert adds[..|adds|] == adds;
    }

    /** Applies one complete delta: removals first, then additions. */
    method ApplyDelta(removes: seq<string>, adds: seq<Item>) returns (changed: nat, dropped: nat)
      requires Valid()
      modifies this`cards, this`removedApplied
      ensures Valid()
      ensures changed == 0 <==> cards == old(cards) && old(cards).Keys !! RemovedKeys(removes)
      ensures IsCapped(old(cards), RemovedKeys(removes), adds, capacity, cards)
      ensures dropped == 0 <==> cards.Keys == KeysAfter(old(cards), RemovedKeys(removes), adds)
      ensures removedApplied == old(removedApplied) + |old(cards).Keys * RemovedKeys(removes)|
    {
      ghost var before, removed := cards, RemovedKeys(removes);
      var removals := ApplyRemoves(removes);
      DeleteAllIsRemoval(before, removes);
      SizeOfRemoval(before, removed);
      ghost var kept := cards;
      var additions;
      additions, dropped := ApplyAdds(adds);
      changed := removals + additions;
      CountsChanges(Tally(kept, 0, 0), capacity, adds);
      ChangesTell(before, removed, kept, cards, removals, additions);
      DeltaOutcome(before, capacity, removed, adds, Tally(cards, additions, dropped));
    }
  }

  // ---- Why the two minutes of overlap are harmless ----

  lemma JoinsAreUnique(before: Store, removed: set<string>, adds: seq<Item>, x: Store, y: Store)
    requires Joined(before, removed, adds, x) && Joined(before, removed, adds, y) && x.Keys == y.Keys
    ensures x == y
  {
    forall k | k in x ensures x[k] == y[k] {
      JoinIsUnique(Sources(before, removed, adds, k), x[k], y[k]);
    }
  }

  /** A delta has one outcome, also when the cache is too small for it. */
  lemma DeltaIsUnique(before: Store, removed: set<string>, adds: seq<Item>, capacity: nat, x: Store, y: Store)
    requires IsCapped(before, removed, adds, capacity, x) && IsCapped(before, removed, adds, capacity, y)
    ensures x == y
  {
    var a :| Taken(before - removed, adds, capacity, x, a);
    var b :| Taken(before - removed, adds, capacity, y, b);
    if a <= b {
      TakenKeysAreUnique(before - removed, adds, capacity, x, y, a, b);
    } else {
      TakenKeysAreUnique(before - removed, adds, capacity, y, x, b, a);
    }
    JoinsAreUnique(before, removed, adds, x, y);
  }

  /** Applying a delta to its own outcome changes nothing and needs no more room. */
  lemma ReapplyingChangesNothing(before: Store, removed: set<string>, adds: seq<Item>, after: Store)
    requires IsDelta(before, removed, adds, after)
    ensures IsDelta(after, removed, adds, after) && KeysAfter(after, removed, adds) == after.Keys
  {
    assert KeysAfter(after, removed, adds) == after.Keys;
    forall k | k in after ensures IsJoin(Sources(after, removed, adds, k), after[k]) {
      if k in removed {
        assert Sources(after, removed, adds, k) == Sources(before, removed, adds, k);
      } else {
        assert Sources(after, removed, adds, k) == {after[k]} + UntilsOf(adds, k);
        assert UntilsOf(adds, k) <= Sources(before, removed, adds, k);
      }
    }
  }
}
