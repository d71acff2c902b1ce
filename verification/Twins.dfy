/** The two controllers, given the same snapshot, know the same cards. */
module Twins {
  import opened Base
  import opened Validity
  import Cards
  import CardIndex

  /** The sketch's record of a snapshot row: hashed card number and 32-bit end time. */
  function Row(item: Cards.Item, hash: string -> nat): CardIndex.CardEntry {
    CardIndex.CardEntry(hash(Cards.Key(item)), Cards.Until(item) % U32)
  }

  function Rows(items: seq<Cards.Item>, hash: string -> nat): seq<CardIndex.CardEntry> {
    if items == [] then []
    else
      var front, item := Rows(items[..|items| - 1], hash), items[|items| - 1];
      if Cards.Key(item) == "" then front else front + [Row(item, hash)]
  }

  /** Card numbers hash to live keys, and the ones at hand do not collide. */
  ghost predicate NoCollision(hash: string -> nat, keys: set<string>) {
    && (forall k :: k in keys && k != "" ==> 0 < hash(k) < CardIndex.TOMBSTONE)
    && (forall a, b :: a in keys && b in keys && hash(a) == hash(b) ==> a == b)
  }

  lemma {:induction false} RowsOfItems(items: seq<Cards.Item>, hash: string -> nat)
    ensures forall e :: e in Rows(items, hash) <==> exists item :: item in items && Cards.Key(item) != "" && Row(item, hash) == e
  {
    if items != [] {
      var front, item := items[..|items| - 1], items[|items| - 1];
      RowsOfItems(front, hash);
      assert items == front + [item];
      forall e ensures e in Rows(items, hash) <==> exists i :: i in items && Cards.Key(i) != "" && Row(i, hash) == e {
        if Cards.Key(item) != "" && Row(item, hash) == e { assert item in items; }
        if e in Rows(front, hash) {
          var i :| i in front && Cards.Key(i) != "" && Row(i, hash) == e;
          assert i in items;
        }
      }
    }
  }

  lemma SameKeys(items: seq<Cards.Item>, hash: string -> nat, key: string)
    requires NoCollision(hash, Cards.KeysOf(items) + {key}) && key != ""
    ensures CardIndex.HasKey(Rows(items, hash), hash(key)) <==> key in Cards.KeysOf(items)
  {
    var rows := Rows(items, hash);
    if CardIndex.HasKey(rows, hash(key)) {
      var i :| 0 <= i < |rows| && rows[i].key == hash(key);
      var item := ItemOfRow(items, hash, rows[i]);
      assert Cards.Key(item) in Cards.KeysOf(items);
    }
    if key in Cards.KeysOf(items) {
      var item :| item in items && Cards.Key(item) == key;
      RowOfItem(items, hash, item);
      var i :| 0 <= i < |rows| && rows[i] == Row(item, hash);
    }
  }

  lemma SameUntils(items: seq<Cards.Item>, hash: string -> nat, key: string)
    requires NoCollision(hash, Cards.KeysOf(items) + {key}) && key != ""
    requires forall item :: item in items ==> Cards.Until(item) < U32
    ensures CardIndex.UntilsOf(Rows(items, hash), hash(key)) == Cards.UntilsOf(items, key)
  {
    var rows := Rows(items, hash);
    forall u | u in CardIndex.UntilsOf(rows, hash(key)) ensures u in Cards.UntilsOf(items, key) {
      var e :| e in rows && e.key == hash(key) && e.validUntil == u;
      UntilOfRow(items, hash, key, e);
    }
    forall u | u in Cards.UntilsOf(items, key) ensures u in CardIndex.UntilsOf(rows, hash(key)) {
      UntilHasRow(items, hash, key, u);
    }
  }

  lemma UntilHasRow(items: seq<Cards.Item>, hash: string -> nat, key: string, u: nat)
    requires u in Cards.UntilsOf(items, key) && key != "" && u < U32
    ensures u in CardIndex.UntilsOf(Rows(items, hash), hash(key))
  {
    var item :| item in items && Cards.Key(item) == key && Cards.Until(item) == u;
    RowOfItem(items, hash, item);
    assert Row(item, hash).key == hash(key) && Row(item, hash).validUntil == u;
  }

  lemma UntilOfRow(items: seq<Cards.Item>, hash: string -> nat, key: string, e: CardIndex.CardEntry)
    requires NoCollision(hash, Cards.KeysOf(items) + {key}) && key != ""
    requires forall item :: item in items ==> Cards.Until(item) < U32
    requires e in Rows(items, hash) && e.key == hash(key)
    ensures e.validUntil in Cards.UntilsOf(items, key)
  {
    var item := ItemOfRow(items, hash, e);
    var k := Cards.Key(item);
    assert k in Cards.KeysOf(items);
    assert hash(k) == hash(key);
    assert k == key && Cards.Until(item) == e.validUntil;
  }

  lemma ItemOfRow(items: seq<Cards.Item>, hash: string -> nat, e: CardIndex.CardEntry) returns (item: Cards.Item)
    requires e in Rows(items, hash)
    ensures item in items && Cards.Key(item) != "" && Row(item, hash) == e
  {
    RowsOfItems(items, hash);
    item :| item in items && Cards.Key(item) != "" && Row(item, hash) == e;
  }

  lemma RowOfItem(items: seq<Cards.Item>, hash: string -> nat, item: Cards.Item)
    requires item in items && Cards.Key(item) != ""
    ensures Row(item, hash) in Rows(items, hash)
  {
    RowsOfItems(items, hash);
  }

  /**
   * After the same full snapshot the sketch's sorted index answers every card exactly as the Pi's
   * map, while end times fit 32 bits and card numbers do not collide.
   */
  lemma IndexAgreesWithMap(items: seq<Cards.Item>, hash: string -> nat, cards: Cards.Store,
                           index: seq<CardIndex.CardEntry>, key: string)
    requires key != "" && NoCollision(hash, Cards.KeysOf(items) + {key})
    requires forall item :: item in items ==> Cards.Until(item) < U32
    requires Cards.IsSnapshot(cards, items) && CardIndex.IsIndex(Rows(items, hash), index)
    ensures key in cards <==> CardIndex.HasKey(index, hash(key))
    ensures key in cards ==> CardIndex.CardEntry(hash(key), cards[key]) in index
  {
    SameKeys(items, hash, key);
    if key in cards {
      SameUntils(items, hash, key);
      assert CardIndex.HasKey(index, hash(key));
      var i :| 0 <= i < |index| && index[i].key == hash(key);
      JoinIsUnique(Cards.UntilsOf(items, key), cards[key], index[i].validUntil);
    }
  }
}
