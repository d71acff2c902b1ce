/** One refresh of the Pi's card cache: pages in, cache and disk out. */
module Refresh {
  import opened Base
  import opened CardNumber
  import opened Cards
  import Journal

  const MAX_PAGES: nat := 1000
  const DELTA_MAX: nat := 20000

  /** One answer of the server: a failed request, or a page with the card rows it carries. */
  datatype Page = Failed | Page(serverTime: int, items: seq<Item>, removed: seq<string>, more: bool)

  /** What reading the pages comes to. */
  datatype Outcome = Broken | Oversized | Whole(serverTime: int, items: seq<Item>, removes: seq<string>)

  function Kept<T>(keep: T -> bool, items: seq<T>): seq<T> {
    if items == [] then [] else (if keep(items[0]) then [items[0]] else []) + Kept(keep, items[1..])
  }

  predicate HasNumber(item: Item) {
    Key(item) != ""
  }

  /** The rows that carry a card number. */
  function Numbered(items: seq<Item>): seq<Item> {
    Kept(HasNumber, items)
  }

  // ---- What pages come to ----

  function RowsOf(page: Page): seq<Item> {
    if page.Failed? then [] else page.items
  }

  function GoneOf(page: Page): seq<string> {
    if page.Failed? then [] else page.removed
  }

  /** The rows of the first `n` pages. */
  function Rows(pages: seq<Page>, n: nat): seq<Item>
    requires n <= |pages|
  {
    if n == 0 then [] else Rows(pages, n - 1) + RowsOf(pages[n - 1])
  }

  /** The removals of the first `n` pages. */
  function Gone(pages: seq<Page>, n: nat): seq<string>
    requires n <= |pages|
  {
    if n == 0 then [] else Gone(pages, n - 1) + GoneOf(pages[n - 1])
  }

  /** The first `n` pages all arrived, and each named a next one. */
  ghost predicate Through(pages: seq<Page>, n: nat)
    requires n <= |pages|
  {
    forall i :: 0 <= i < n ==> pages[i].Page? && pages[i].more
  }

  /** A delta of the first `n` pages is not too large for one. */
  ghost predicate Small(pages: seq<Page>, full: bool, n: nat)
    requires n <= |pages|
  {
    full || |Numbered(Rows(pages, n))| + |Gone(pages, n)| <= 20000
  }

  /** Page `n` is the last one: it names no next page, or it is the thousandth. */
  ghost predicate LastPage(pages: seq<Page>, n: nat)
    requires n < |pages|
  {
    pages[n].Page? && (!pages[n].more || n + 1 == 1000)
  }

  /** Reading ends at page `n`: it failed, it made the delta too large, or it was the last. */
  ghost predicate EndsAt(pages: seq<Page>, full: bool, n: nat, outcome: Outcome)
    requires |pages| >= MAX_PAGES
  {
    && n < 1000 && Through(pages, n) && Small(pages, full, n)
    && match outcome
       case Broken => pages[n].Failed?
       case Oversized => pages[n].Page? && !Small(pages, full, n + 1)
       case Whole(time, items, removes) =>
         && LastPage(pages, n) && Small(pages, full, n + 1)
         && time == pages[0].serverTime && items == Numbered(Rows(pages, n + 1)) && removes == Gone(pages, n + 1)
  }

  ghost predicate Reads(pages: seq<Page>, full: bool, outcome: Outcome)
    requires |pages| >= MAX_PAGES
  {
    exists n: nat :: EndsAt(pages, full, n, outcome)
  }

  lemma {:induction false} KeptOfMore<T>(keep: T -> bool, a: seq<T>, b: seq<T>)
    ensures Kept(keep, a + b) == Kept(keep, a) + Kept(keep, b)
  {
    if a == [] {
      assert a + b == b;
    } else {
      var first, rest := if keep(a[0]) then [a[0]] else [], Kept(keep, a[1..]);
      KeptOfMore(keep, a[1..], b);
      assert (a + b)[0] == a[0] && (a + b)[1..] == a[1..] + b;
      assert first + rest + Kept(keep, b) == first + (rest + Kept(keep, b));
    }
  }

  lemma OnePageLess(pages: seq<Page>, full: bool, n: nat)
    requires n < |pages| && Small(pages, full, n + 1)
    ensures Small(pages, full, n)
  {
    KeptOfMore(HasNumber, Rows(pages, n), RowsOf(pages[n]));
  }

  lemma {:induction false} LargeStaysLarge(pages: seq<Page>, full: bool, a: nat, b: nat)
    requires a <= b <= |pages| && Small(pages, full, b)
    ensures Small(pages, full, a)
    decreases b - a
  {
    if a < b {
      OnePageLess(pages, full, b - 1);
      LargeStaysLarge(pages, full, a, b - 1);
    }
  }

  lemma EndsOnce(pages: seq<Page>, full: bool, a: nat, x: Outcome, b: nat, y: Outcome)
    requires |pages| >= MAX_PAGES && EndsAt(pages, full, a, x) && EndsAt(pages, full, b, y)
    ensures a >= b
  {
    if a < b {
      PassedBy(pages, a, b);
      LargeStaysLarge(pages, full, a + 1, b);
      NotTheLast(pages, a, b);
    }
  }

  lemma NotTheLast(pages: seq<Page>, a: nat, b: nat)
    requires a < b < 1000 <= |pages| && pages[a].Page? && pages[a].more
    ensures !LastPage(pages, a)
  {
  }

  lemma PassedBy(pages: seq<Page>, a: nat, b: nat)
    requires a < b <= |pages| && Through(pages, b)
    ensures pages[a].Page? && pages[a].more
  {
  }

  /** Pages come to one thing only. */
  lemma ReadsOneWay(pages: seq<Page>, full: bool, x: Outcome, y: Outcome)
    requires |pages| >= MAX_PAGES && Reads(pages, full, x) && Reads(pages, full, y)
    ensures x == y
  {
    var a: nat :| EndsAt(pages, full, a, x);
    var b: nat :| EndsAt(pages, full, b, y);
    EndsOnce(pages, full, a, x, b, y);
    EndsOnce(pages, full, b, y, a, x);
  }

  lemma {:induction false} KeptRows<T>(keep: T -> bool, items: seq<T>)
    ensures forall item :: item in Kept(keep, items) <==> item in items && keep(item)
  {
    if items != [] {
      KeptRows(keep, items[1..]);
      assert items == [items[0]] + items[1..];
    }
  }

  lemma NumberedMeansTheSame(items: seq<Item>, k: string)
    requires k != ""
    ensures KeysOf(Numbered(items)) == KeysOf(items) && UntilsOf(Numbered(items), k) == UntilsOf(items, k)
  {
    KeptRows(HasNumber, items);
  }

  lemma KeptFirst<T>(keep: T -> bool, items: seq<T>, i: nat)
    requires i < |items|
    ensures Kept(keep, items[i..]) == (if keep(items[i]) then [items[i]] else []) + Kept(keep, items[i + 1..])
  {
    assert items[i..][0] == items[i] && items[i..][1..] == items[i + 1..];
  }

  method KeepNumbered(rows: seq<Item>) returns (items: seq<Item>)
    ensures items == Numbered(rows)
  {
    items := [];
    for i := 0 to |rows|
      invariant items + Kept(HasNumber, rows[i..]) == Kept(HasNumber, rows)
    {
      KeptFirst(HasNumber, rows, i);
      if Key(rows[i]) != "" {
        items := items + [rows[i]];
      }
    }
  }

  /** The time to ask from next: the overlap before the server's, or before the gate's own when that is unreadable. */
  function NextSince(serverTime: int, now: int): Option<int> {
    var time := if serverTime == 0 then now else serverTime;
    if time == 0 then None else Some(if time - Journal.OVERLAP < 0 then 0 else time - Journal.OVERLAP)
  }

  /** Without an own time that says otherwise the server's counts, and no time before 1970 is ever asked from. */
  lemma NextSinceFallsBack(serverTime: int, now: int, other: int)
    ensures serverTime != 0 ==> NextSince(serverTime, now) == NextSince(serverTime, other)
    ensures NextSince(0, now) == if now == 0 then None else NextSince(now, other)
    ensures NextSince(serverTime, now).Some? ==> NextSince(serverTime, now).value >= 0
    ensures NextSince(serverTime, now).Some? && serverTime >= 120 ==> NextSince(serverTime, now).value == serverTime - 120
  {
  }

  /** The time to ask from; nothing when everything is asked for, because no snapshot is in force or no time is known. */
  function Asking(ready: bool, since: Option<int>): Option<int> {
    if ready then since else None
  }

  datatype Saved = Saved(cards: Store, since: Option<int>)

  class SnapshotSync {
    const cache: CredentialCache
    var disk: Option<Saved>

    ghost predicate Valid()
      reads this, cache
    {
      cache.Valid() && (disk.Some? ==> Stable(disk.value.cards))
    }

    /** The program starts with the snapshot that is on disk, if any. */
    constructor (maxCards: int, saved: Option<Saved>)
      requires saved.Some? ==> Stable(saved.value.cards)
      ensures Valid() && fresh(cache) && disk == saved
      ensures Started(saved, cache.cards, cache.since, cache.ready)
    {
      cache := new CredentialCache(maxCards);
      disk := saved;
      new;
      var _ := Load();
    }

    predicate AsksForAll()
      reads this, cache
      ensures AsksForAll() <==> Asking(cache.ready, cache.since).None?
    {
      !cache.ready || cache.since.None?
    }

    method Save(written: bool)
      requires Valid()
      modifies this`disk
      ensures disk == if written then Some(Saved(cache.cards, cache.since)) else old(disk)
    {
      if written {
        disk := Some(Saved(cache.cards, cache.since));
      }
    }

    method SaveChanges(changed: bool, written: bool)
      requires Valid()
      modifies this`disk
      ensures Valid() && disk == if changed && written then Some(Saved(cache.cards, cache.since)) else old(disk)
    {
      if changed {
        Save(written);
      }
    }

    /** Starting again from the snapshot on disk. */
    method Load() returns (ok: bool)
      requires Valid()
      modifies cache
      ensures Valid() && ok == disk.Some?
      ensures ok ==> cache.cards == disk.value.cards && cache.since == disk.value.since && cache.ready
      ensures !ok ==> cache.cards == old(cache.cards) && cache.since == old(cache.since) && cache.ready == old(cache.ready)
    {
      if disk.None? {
        return false;
      }
      var next := Refile(disk.value.cards);
      cache.cards, cache.since, cache.ready := next, disk.value.since, true;
      return true;
    }

    /** Puts complete pages into the cache. */
    method Apply(full: bool, items: seq<Item>, removes: seq<string>) returns (ok: bool, changed: nat, dropped: nat)
      requires Valid()
      modifies cache`cards, cache`removedApplied
      ensures Valid()
      ensures ok <==> full ==> |items| <= cache.capacity
      ensures !ok ==> cache.cards == old(cache.cards)
      ensures ok ==> CardsAs(full, items, RemovedKeys(removes), cache.capacity, old(cache.cards), dropped, cache.cards)
      ensures !full ==> (changed > 0 <==> Changes(old(cache.cards), RemovedKeys(removes), cache.cards))
    {
      if full {
        ok, changed, dropped := cache.ReplaceAll(items);
      } else {
        ok := true;
        changed, dropped := cache.ApplyDelta(removes, items);
      }
    }

    /** Complete pages go into the cache, the cache to disk, and the new time into force, in that order. */
    method Land(full: bool, came: Outcome, now: int, written: bool) returns (ok: bool, dropped: nat)
      requires Valid() && came.Whole?
      modifies this`disk, cache
      ensures Valid()
      ensures SyncedAs(full, came, cache.capacity, now, written, old(cache.cards), old(cache.since), old(cache.ready), old(disk),
                       ok, dropped, cache.cards, cache.since, cache.ready, disk)
    {
      var changed;
      ok, changed, dropped := Apply(full, came.items, came.removes);
      if !ok {
        return false, 0;
      }
      if full {
        cache.ready := true;
      }
      SaveChanges(full || changed > 0, written);
      cache.since := NextSince(came.serverTime, now);
    }

    /**
     * What becomes of a refresh once its pages are there, `full` saying whether it had asked for all.
     * Other refreshes may have landed since. `now` is the gate's own clock and `written` says whether
     * the disk takes the snapshot.
     */
    method Finish(full: bool, pages: seq<Page>, now: int, written: bool) returns (ok: bool, dropped: nat, ghost outcome: Outcome)
      requires Valid() && |pages| >= MAX_PAGES
      modifies this`disk, cache
      ensures Valid() && Reads(pages, full, outcome)
      ensures SyncedAs(full, outcome, cache.capacity, now, written, old(cache.cards), old(cache.since), old(cache.ready), old(disk),
                       ok, dropped, cache.cards, cache.since, cache.ready, disk)
    {
      var came := CollectPages(pages, full);
      outcome := came;
      if came.Broken? {
        return false, 0, outcome;
      }
      if came.Oversized? {
        cache.since := None;
        return false, 0, outcome;
      }
      ok, dropped := Land(full, came, now, written);
    }

    /** Refreshes the cache from the server's pages, with nothing else landing meanwhile. */
    method SyncSnapshot(pages: seq<Page>, now: int, written: bool) returns (ok: bool, dropped: nat, ghost outcome: Outcome)
      requires Valid() && |pages| >= MAX_PAGES
      modifies this`disk, cache
      ensures Valid() && Reads(pages, old(AsksForAll()), outcome)
      ensures SyncedAs(old(AsksForAll()), outcome, cache.capacity, now, written,
                       old(cache.cards), old(cache.since), old(cache.ready), old(disk),
                       ok, dropped, cache.cards, cache.since, cache.ready, disk)
    {
      ok, dropped, outcome := Finish(AsksForAll(), pages, now, written);
    }
  }

  /** What a program that starts with a snapshot on disk, or without one, begins from. */
  predicate Started(saved: Option<Saved>, cards: Store, since: Option<int>, ready: bool) {
    if saved.None? then cards == map[] && since == None && !ready
    else cards == saved.value.cards && since == saved.value.since && ready
  }

  /** Everything a refresh may do to the cache and the disk. */
  ghost predicate SyncedAs(full: bool, outcome: Outcome, capacity: nat, now: int, written: bool,
                           before: Store, since: Option<int>, ready: bool, saved: Option<Saved>,
                           ok: bool, dropped: nat, after: Store, since': Option<int>, ready': bool, saved': Option<Saved>)
  {
    && (ok <==> outcome.Whole? && (full ==> |outcome.items| <= capacity))
    && (!ok ==> after == before && ready' == ready && saved' == saved && since' == if outcome.Oversized? then None else since)
    && (ok ==>
        && since' == NextSince(outcome.serverTime, now)
        && ready' == (full || ready)
        && CardsAs(full, outcome.items, RemovedKeys(outcome.removes), capacity, before, dropped, after)
        && saved' == if written && (full || Changes(before, RemovedKeys(outcome.removes), after)) then Some(Saved(after, since)) else saved)
  }

  /** What complete pages do to the cards. */
  ghost predicate CardsAs(full: bool, items: seq<Item>, removed: set<string>, capacity: nat, before: Store, dropped: nat, after: Store) {
    if full then dropped == 0 && IsSnapshot(after, items)
    else IsCapped(before, removed, items, capacity, after) && (dropped == 0 <==> after.Keys == KeysAfter(before, removed, items))
  }

  /** A delta that takes out a card, even to put it back, counts as a change. */
  ghost predicate Changes(before: Store, removed: set<string>, after: Store) {
    after != before || !(before.Keys !! removed)
  }

  lemma NextPage(pages: seq<Page>, n: nat)
    requires n < |pages| && pages[n].Page?
    ensures Numbered(Rows(pages, n + 1)) == Numbered(Rows(pages, n)) + Numbered(pages[n].items)
    ensures Gone(pages, n + 1) == Gone(pages, n) + pages[n].removed
  {
    KeptOfMore(HasNumber, Rows(pages, n), RowsOf(pages[n]));
  }

  /** The first `n` pages have been read, and reading goes on. */
  ghost predicate Reading(pages: seq<Page>, full: bool, n: nat, items: seq<Item>, removes: seq<string>, serverTime: int)
    requires n <= |pages|
  {
    && Through(pages, n) && Small(pages, full, n) && items == Numbered(Rows(pages, n)) && removes == Gone(pages, n)
    && (n > 0 ==> serverTime == pages[0].serverTime)
  }

  lemma StopsAtFailure(pages: seq<Page>, full: bool, n: nat, items: seq<Item>, removes: seq<string>, serverTime: int)
    requires |pages| >= MAX_PAGES && n < MAX_PAGES && Reading(pages, full, n, items, removes, serverTime) && pages[n].Failed?
    ensures Reads(pages, full, Broken)
  {
    assert EndsAt(pages, full, n, Broken);
  }

  /** One page more: too large, the last one, or one after which reading goes on. */
  lemma OnePageMore(pages: seq<Page>, full: bool, n: nat, items: seq<Item>, removes: seq<string>, serverTime: int,
                    more: seq<Item>, gone: seq<string>, time: int)
    requires |pages| >= MAX_PAGES && n < MAX_PAGES && Reading(pages, full, n, items, removes, serverTime) && pages[n].Page?
    requires more == items + Numbered(pages[n].items) && gone == removes + pages[n].removed
    requires time == if n == 0 then pages[n].serverTime else serverTime
    ensures !full && |more| + |gone| > DELTA_MAX ==> Reads(pages, full, Oversized)
    ensures (full || |more| + |gone| <= DELTA_MAX) && (!pages[n].more || n + 1 == MAX_PAGES) ==> Reads(pages, full, Whole(time, more, gone))
    ensures (full || |more| + |gone| <= DELTA_MAX) && pages[n].more ==> Reading(pages, full, n + 1, more, gone, time)
  {
    NextPage(pages, n);
    if !full && |more| + |gone| > DELTA_MAX {
      assert EndsAt(pages, full, n, Oversized);
    } else if LastPage(pages, n) {
      assert EndsAt(pages, full, n, Whole(time, more, gone));
    }
  }

  method CollectPages(pages: seq<Page>, full: bool) returns (outcome: Outcome)
    requires |pages| >= MAX_PAGES
    ensures Reads(pages, full, outcome)
  {
    var items: seq<Item>, removes: seq<string>, serverTime := [], [], 0;
    for page := 0 to MAX_PAGES
      invariant Reading(pages, full, page, items, removes, serverTime)
      invariant page == MAX_PAGES ==> Reads(pages, full, Whole(serverTime, items, removes))
    {
      if pages[page].Failed? {
        StopsAtFailure(pages, full, page, items, removes, serverTime);
        return Broken;
      }
      ghost var were, gone, time := items, removes, serverTime;
      if page == 0 {
        serverTime := pages[page].serverTime;
      }
      var numbered := KeepNumbered(pages[page].items);
      items := items + numbered;
      removes := removes + pages[page].removed;
      OnePageMore(pages, full, page, were, gone, time, items, removes, serverTime);
      if !full && |items| + |removes| > DELTA_MAX {
        return Oversized;
      }
      if !pages[page].more {
        return Whole(serverTime, items, removes);
      }
    }
    return Whole(serverTime, items, removes);
  }

  /** Files the cards of a snapshot anew, one by one, in whatever order the file has them. */
  method Refile(saved: Store) returns (next: Store)
    requires Stable(saved)
    ensures next == saved
  {
    next := map[];
    var left := saved.Keys;
    while left != {}
      invariant left <= saved.Keys && next == saved - left
      decreases |left|
    {
      var k :| k in left;
      left := left - {k};
      var key := CardNumberKey(k);
      if key != "" {
        next := next[key := saved[k]];
      }
    }
  }

  // ---- All or nothing ----

  lemma SnapshotOfRows(cards: Store, rows: seq<Item>)
    ensures IsSnapshot(cards, Numbered(rows)) <==> IsSnapshot(cards, rows)
  {
    KeptRows(HasNumber, rows);
    NumberedMeansTheSame(rows, "0");
    forall k | k in KeysOf(rows) ensures UntilsOf(Numbered(rows), k) == UntilsOf(rows, k) {
      NumberedMeansTheSame(rows, k);
    }
  }

  /** All pages up to the last arrived, within the size of a delta, and a snapshot within the capacity. */
  ghost predicate Complete(pages: seq<Page>, full: bool, capacity: nat, n: nat)
    requires |pages| >= MAX_PAGES
  {
    && n < MAX_PAGES && Through(pages, n) && LastPage(pages, n) && Small(pages, full, n + 1)
    && (full ==> |Numbered(Rows(pages, n + 1))| <= capacity)
  }

  /**
   * A refresh succeeds exactly when its pages are complete up to a last one. Then the cache is what
   * the rows and removals of exactly those pages make it, as of the time of the first; otherwise
   * cards, readiness and disk stay as they were.
   */
  lemma RefreshIsAllOrNothing(full: bool, pages: seq<Page>, outcome: Outcome, capacity: nat, now: int, written: bool,
                              before: Store, since: Option<int>, ready: bool, saved: Option<Saved>,
                              ok: bool, dropped: nat, after: Store, since': Option<int>, ready': bool, saved': Option<Saved>)
    requires |pages| >= MAX_PAGES && Reads(pages, full, outcome)
    requires SyncedAs(full, outcome, capacity, now, written, before, since, ready, saved, ok, dropped, after, since', ready', saved')
    ensures ok <==> exists n: nat :: Complete(pages, full, capacity, n)
    ensures forall n: nat :: Complete(pages, full, capacity, n) ==>
      && since' == NextSince(pages[0].serverTime, now)
      && (full ==> IsSnapshot(after, Rows(pages, n + 1)))
      && (!full ==> IsCapped(before, RemovedKeys(Gone(pages, n + 1)), Numbered(Rows(pages, n + 1)), capacity, after))
    ensures !ok ==> after == before && ready' == ready && saved' == saved
  {
    forall n: nat | Complete(pages, full, capacity, n)
      ensures outcome == Whole(pages[0].serverTime, Numbered(Rows(pages, n + 1)), Gone(pages, n + 1))
      ensures IsSnapshot(after, Numbered(Rows(pages, n + 1))) <==> IsSnapshot(after, Rows(pages, n + 1))
    {
      CompleteIsWhole(pages, full, capacity, n, outcome);
      SnapshotOfRows(after, Rows(pages, n + 1));
    }
    if ok {
      var n: nat :| EndsAt(pages, full, n, outcome);
      assert Complete(pages, full, capacity, n);
    }
  }

  lemma CompleteIsWhole(pages: seq<Page>, full: bool, capacity: nat, n: nat, outcome: Outcome)
    requires |pages| >= MAX_PAGES && Complete(pages, full, capacity, n) && Reads(pages, full, outcome)
    ensures outcome == Whole(pages[0].serverTime, Numbered(Rows(pages, n + 1)), Gone(pages, n + 1))
  {
    var whole := Whole(pages[0].serverTime, Numbered(Rows(pages, n + 1)), Gone(pages, n + 1));
    LargeStaysLarge(pages, full, n, n + 1);
    assert EndsAt(pages, full, n, whole);
    ReadsOneWay(pages, full, outcome, whole);
  }
}
