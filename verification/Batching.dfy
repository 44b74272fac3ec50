/**
 * Batching is invisible: a sequence of events gives the same table and inbox applied as one
 * batch, cut into batches anywhere, or one by one. Inside a batch every copy of a new event
 * counts as fresh, so this holds exactly when no repeated delivery carries newer state.
 */
module Batching {
  import opened StateStore

  /** Applies the batches in order, one transaction each. */
  function ApplyAll(spec: Spec, st: Store, batches: seq<seq<Item>>): Store {
    if batches == [] then st
    else ApplyBatch(spec, ApplyAll(spec, st, batches[..|batches| - 1]), batches[|batches| - 1])
  }

  function OneByOne(spec: Spec, st: Store, items: seq<Item>): Store {
    if items == [] then st
    else ApplyBatch(spec, OneByOne(spec, st, items[..|items| - 1]), [items[|items| - 1]])
  }

  function Concat(batches: seq<seq<Item>>): seq<Item> {
    if batches == [] then [] else Concat(batches[..|batches| - 1]) + batches[|batches| - 1]
  }

  /** A later delivery of an identity announces the same id at no higher version. */
  predicate RepeatsAreNotNewer(items: seq<Item>) {
    forall i, j | 0 <= i < j < |items| && items[i].identity == items[j].identity ::
      FirstOf(items, i) ==>
        items[j].data.id == items[i].data.id && items[j].data.version <= items[i].data.version
  }

  predicate FirstOf(items: seq<Item>, i: int)
    requires 0 <= i < |items|
  {
    forall k | 0 <= k < i :: items[k].identity != items[i].identity
  }

  // ---- what a batch leaves behind, id by id

  /** Item `i` is fresh, and newer than every fresh item of its id before it. */
  predicate BeatsEarlier(items: seq<Item>, news: set<Identity>, i: nat)
    requires i < |items|
  {
    && items[i].identity in news
    && forall j | 0 <= j < i && items[j].identity in news && items[j].data.id == items[i].data.id ::
         items[j].data.version < items[i].data.version
  }

  /** Per id, the winner has the highest version of all fresh items and is the first to have it. */
  lemma {:induction false} WinnerIsHighest(items: seq<Item>, news: set<Identity>)
    ensures forall i | 0 <= i < |items| && items[i].identity in news ::
              items[i].data.id in Winners(items, news)
              && items[i].data.version <= Winners(items, news)[items[i].data.id].version
    ensures forall id | id in Winners(items, news) ::
              exists i :: 0 <= i < |items| && BeatsEarlier(items, news, i) && items[i].data == Winners(items, news)[id]
                          && items[i].data.id == id
  {
    if items != [] {
      var n := |items| - 1;
      var init := items[..n];
      WinnerIsHighest(init, news);
      assert forall i | 0 <= i < n :: init[i] == items[i];
      forall id | id in Winners(items, news)
        ensures exists i :: 0 <= i < |items| && BeatsEarlier(items, news, i) && items[i].data == Winners(items, news)[id]
                            && items[i].data.id == id
      {
        if id in Winners(init, news) && Winners(items, news)[id] == Winners(init, news)[id] {
          var i :| 0 <= i < n && BeatsEarlier(init, news, i) && init[i].data == Winners(init, news)[id]
                   && init[i].data.id == id;
          assert BeatsEarlier(items, news, i);
        } else {
          assert items[n].data == Winners(items, news)[id];
          assert BeatsEarlier(items, news, n);
        }
      }
    }
  }

  lemma {:induction false} WinnersSeeOnlyFresh(items: seq<Item>, a: set<Identity>, b: set<Identity>)
    requires forall i | 0 <= i < |items| :: items[i].identity in a <==> items[i].identity in b
    ensures Winners(items, a) == Winners(items, b)
  {
    if items != [] {
      var init := items[..|items| - 1];
      assert forall i | 0 <= i < |init| :: init[i] == items[i];
      WinnersSeeOnlyFresh(init, a, b);
    }
  }

  lemma ApplyNothing(spec: Spec, st: Store)
    ensures ApplyBatch(spec, st, []) == st
  {
    assert Fresh(st.inbox, []) == {};
    assert Upsert(st.table, map[]) == st.table;
  }

  lemma SingleWinner(item: Item, news: set<Identity>)
    ensures Winners([item], news) == if item.identity in news then map[item.data.id := item.data] else map[]
  {
    assert [item][..0] == [];
    assert Winners([], news) == map[];
  }

  lemma FreshExtends(inbox: set<Identity>, items: seq<Item>, item: Item)
    ensures Fresh(inbox, items + [item])
         == Fresh(inbox, items) + (if item.identity in inbox then {} else {item.identity})
  {
    forall x
      ensures x in Fresh(inbox, items + [item])
         <==> x in Fresh(inbox, items) + (if item.identity in inbox then {} else {item.identity})
    {
      if x in Fresh(inbox, items) {
        var i :| i in items && i.identity == x;
        assert i in items + [item];
      }
      if x == item.identity && x !in inbox {
        assert item in items + [item];
      }
    }
  }

  lemma WinnersExtend(items: seq<Item>, item: Item, news: set<Identity>)
    ensures Winners(items + [item], news) == Contend(Winners(items, news), item, news)
  {
    assert (items + [item])[..|items|] == items;
  }

  lemma SeenInFresh(inbox: set<Identity>, items: seq<Item>, i: nat)
    requires i < |items|
    ensures items[i].identity in Fresh(inbox, items) <==> items[i].identity !in inbox
  {
    assert items[i] in items;
  }

  /** The batch's own repeats, at the end of the batch, change nothing. */
  lemma RepeatChangesNothing(spec: Spec, st: Store, items: seq<Item>, item: Item)
    requires RepeatsAreNotNewer(items + [item])
    requires exists i :: 0 <= i < |items| && items[i].identity == item.identity
    ensures ApplyBatch(spec, st, items + [item]) == ApplyBatch(spec, st, items)
  {
    var news := Fresh(st.inbox, items);
    var i := FirstIndex(items, item.identity);
    SeenInFresh(st.inbox, items, i);
    FreshExtends(st.inbox, items, item);
    assert Fresh(st.inbox, items + [item]) == news;
    WinnersExtend(items, item, news);
    if item.identity in news {
      var all := items + [item];
      assert all[i] == items[i] && FirstOf(all, i) && all[|items|] == item;
      var winners := Winners(items, news);
      assert items[i].data.id in winners && winners[items[i].data.id].version >= items[i].data.version by {
        WinnerIsHighest(items, news);
      }
    }
  }

  lemma FirstIndex(items: seq<Item>, identity: Identity) returns (i: nat)
    requires exists k :: 0 <= k < |items| && items[k].identity == identity
    ensures i < |items| && items[i].identity == identity && FirstOf(items, i)
  {
    i := 0;
    while items[i].identity != identity
      invariant i < |items|
      invariant forall k | 0 <= k < i :: items[k].identity != identity
      invariant exists k :: i <= k < |items| && items[k].identity == identity
      decreases |items| - i
    {
      i := i + 1;
    }
  }

  /** A repeat applied on its own after the batch changes nothing either. */
  lemma ProcessedChangesNothing(spec: Spec, st: Store, item: Item)
    requires item.identity in st.inbox
    ensures ApplyBatch(spec, st, [item]) == st
  {
    assert Fresh(st.inbox, [item]) == {};
    SingleWinner(item, {});
    assert Upsert(st.table, map[]) == st.table;
  }

  /** The version guard composes: a contender is decided in the batch or by a second upsert. */
  lemma UpsertTwice(table: map<Id, Row>, rows: map<Id, Row>, id: Id, row: Row, after: map<Id, Row>)
    requires after == if id !in rows || row.version > rows[id].version then rows[id := row] else rows
    ensures Upsert(table, after) == Upsert(Upsert(table, rows), map[id := row])
  {
    var left, right := Upsert(table, after), Upsert(Upsert(table, rows), map[id := row]);
    assert left.Keys == right.Keys;
    forall k | k in left
      ensures left[k] == right[k]
    {
      assert k != id ==> (k in after <==> k in rows);
    }
  }

  lemma RowsContend(spec: Spec, winners: map<Id, Data>, item: Item, news: set<Identity>)
    requires item.identity in news
    ensures
      var rows, row := NewRows(spec, winners), NewRow(spec, item.data, item.data.version);
      NewRows(spec, Contend(winners, item, news))
      == if item.data.id !in rows || row.version > rows[item.data.id].version then rows[item.data.id := row] else rows
  {
  }

  lemma ApplySingle(spec: Spec, st: Store, item: Item)
    requires item.identity !in st.inbox
    ensures ApplyBatch(spec, st, [item])
         == Store(Upsert(st.table, map[item.data.id := NewRow(spec, item.data, item.data.version)]),
                  st.inbox + {item.identity})
  {
    assert [item] == [] + [item];
    FreshExtends(st.inbox, [], item);
    assert Fresh(st.inbox, [item]) == {item.identity};
    SingleWinner(item, {item.identity});
    assert NewRows(spec, map[item.data.id := item.data])
        == map[item.data.id := NewRow(spec, item.data, item.data.version)];
  }

  /** A new identity gives the same result inside the batch or right after it. */
  lemma NewItemCommutes(spec: Spec, st: Store, items: seq<Item>, item: Item)
    requires forall i | 0 <= i < |items| :: items[i].identity != item.identity
    requires item.identity !in st.inbox
    ensures ApplyBatch(spec, st, items + [item]) == ApplyBatch(spec, ApplyBatch(spec, st, items), [item])
  {
    var news, mid := Fresh(st.inbox, items), ApplyBatch(spec, st, items);
    var more := news + {item.identity};
    var before, after := NewRows(spec, Winners(items, news)), NewRows(spec, Winners(items + [item], more));
    var row := NewRow(spec, item.data, item.data.version);
    assert after == if item.data.id !in before || row.version > before[item.data.id].version
                    then before[item.data.id := row] else before by {
      WinnersExtend(items, item, more);
      WinnersSeeOnlyFresh(items, news, more);
      RowsContend(spec, Winners(items, news), item, more);
    }
    UpsertTwice(st.table, before, item.data.id, row, after);
    FreshExtends(st.inbox, items, item);
    ApplySingle(spec, mid, item);
  }

  lemma LastItemCommutes(spec: Spec, st: Store, items: seq<Item>, item: Item)
    requires RepeatsAreNotNewer(items + [item])
    ensures ApplyBatch(spec, st, items + [item]) == ApplyBatch(spec, ApplyBatch(spec, st, items), [item])
  {
    if exists i :: 0 <= i < |items| && items[i].identity == item.identity {
      var i :| 0 <= i < |items| && items[i].identity == item.identity;
      RepeatChangesNothing(spec, st, items, item);
      assert items[i] in items;
      ProcessedChangesNothing(spec, ApplyBatch(spec, st, items), item);
    } else if item.identity in st.inbox {
      FreshExtends(st.inbox, items, item);
      var news := Fresh(st.inbox, items);
      assert Fresh(st.inbox, items + [item]) == news;
      WinnersExtend(items, item, news);
      ProcessedChangesNothing(spec, ApplyBatch(spec, st, items), item);
    } else {
      NewItemCommutes(spec, st, items, item);
    }
  }

  // ---- the theorems

  lemma RepeatsOfPrefix(items: seq<Item>)
    requires items != [] && RepeatsAreNotNewer(items)
    ensures RepeatsAreNotNewer(items[..|items| - 1])
  {
    var init := items[..|items| - 1];
    forall i, j | 0 <= i < j < |init| && init[i].identity == init[j].identity && FirstOf(init, i)
      ensures init[j].data.id == init[i].data.id && init[j].data.version <= init[i].data.version
    {
      assert FirstOf(items, i) && items[i] == init[i] && items[j] == init[j];
    }
  }

  lemma {:induction false} BatchIsOneByOne(spec: Spec, st: Store, items: seq<Item>)
    requires RepeatsAreNotNewer(items)
    ensures ApplyBatch(spec, st, items) == OneByOne(spec, st, items)
  {
    if items == [] {
      ApplyNothing(spec, st);
    } else {
      var init, last := items[..|items| - 1], items[|items| - 1];
      assert items == init + [last];
      RepeatsOfPrefix(items);
      BatchIsOneByOne(spec, st, init);
      LastItemCommutes(spec, st, init, last);
    }
  }

  lemma {:induction false} OneByOneConcat(spec: Spec, st: Store, a: seq<Item>, b: seq<Item>)
    ensures OneByOne(spec, st, a + b) == OneByOne(spec, OneByOne(spec, st, a), b)
  {
    if b == [] {
      assert a + b == a;
    } else {
      var init := b[..|b| - 1];
      assert (a + b)[..|a + b| - 1] == a + init;
      OneByOneConcat(spec, st, a, init);
    }
  }

  /** Equal identities carrying equal payloads, as CloudEvents demand, are never newer. */
  predicate OneStatePerIdentity(items: seq<Item>) {
    forall i, j | 0 <= i < |items| && 0 <= j < |items| && items[i].identity == items[j].identity ::
      items[i].data == items[j].data
  }

  /**
   * Any cut of a sequence of events into batches gives the table and inbox of applying the
   * events one by one, hence of one single batch.
   */
  lemma {:induction false} BatchingIsInvisible(spec: Spec, st: Store, batches: seq<seq<Item>>)
    requires OneStatePerIdentity(Concat(batches))
    ensures ApplyAll(spec, st, batches) == OneByOne(spec, st, Concat(batches))
    ensures ApplyAll(spec, st, batches) == ApplyBatch(spec, st, Concat(batches))
  {
    OneStateMeansNotNewer(Concat(batches));
    BatchIsOneByOne(spec, st, Concat(batches));
    if batches != [] {
      var init, last := batches[..|batches| - 1], batches[|batches| - 1];
      OneStateOfParts(Concat(init), last);
      BatchingIsInvisible(spec, st, init);
      OneStateMeansNotNewer(last);
      BatchIsOneByOne(spec, ApplyAll(spec, st, init), last);
      OneByOneConcat(spec, st, Concat(init), last);
    }
  }

  lemma OneStateMeansNotNewer(items: seq<Item>)
    requires OneStatePerIdentity(items)
    ensures RepeatsAreNotNewer(items)
  {
  }

  lemma OneStateOfParts(a: seq<Item>, b: seq<Item>)
    requires OneStatePerIdentity(a + b)
    ensures OneStatePerIdentity(a) && OneStatePerIdentity(b)
  {
    assert forall i | 0 <= i < |a| :: a[i] == (a + b)[i];
    assert forall i | 0 <= i < |b| :: b[i] == (a + b)[|a| + i];
  }

  /**
   * The exact condition for one batch: it agrees with one-by-one application on every
   * database if and only if no repeated delivery in it is newer than its first copy.
   */
  lemma BatchIsOneByOneIffRepeatsNotNewer(spec: Spec, items: seq<Item>)
    ensures (forall st :: ApplyBatch(spec, st, items) == OneByOne(spec, st, items)) <==> RepeatsAreNotNewer(items)
  {
    if RepeatsAreNotNewer(items) {
      forall st
        ensures ApplyBatch(spec, st, items) == OneByOne(spec, st, items)
      {
        BatchIsOneByOne(spec, st, items);
      }
    } else {
      var i, j :| 0 <= i < j < |items| && items[i].identity == items[j].identity && FirstOf(items, i)
                  && !(items[j].data.id == items[i].data.id && items[j].data.version <= items[i].data.version);
      var st := OnlyNew(items, items[i].identity);
      assert OneByOne(spec, st, items).table == OnlyRow(spec, items[i]) by {
        OneByOneKeepsFirst(spec, items, i, |items|);
        assert items[..|items|] == items;
      }
      BatchTakesRepeat(spec, items, i, j);
      assert ApplyBatch(spec, st, items) != OneByOne(spec, st, items);
    }
  }

  /** An empty table whose inbox holds every identity of the batch but one. */
  function OnlyNew(items: seq<Item>, identity: Identity): Store {
    Store(map[], (set i | i in items :: i.identity) - {identity})
  }

  /** The table that holds nothing but the item's row. */
  function OnlyRow(spec: Spec, item: Item): map<Id, Row> {
    map[item.data.id := NewRow(spec, item.data, item.data.version)]
  }

  /** Applied alone, an event in the inbox changes nothing, and a new one is the whole table. */
  lemma ApplyToEmptyOrSeen(spec: Spec, st: Store, item: Item)
    ensures item.identity in st.inbox ==> ApplyBatch(spec, st, [item]) == st
    ensures item.identity !in st.inbox && st.table == map[] ==>
              ApplyBatch(spec, st, [item]) == Store(OnlyRow(spec, item), st.inbox + {item.identity})
  {
    if item.identity in st.inbox {
      ProcessedChangesNothing(spec, st, item);
    } else {
      ApplySingle(spec, st, item);
    }
  }

  lemma OneByOneStep(spec: Spec, st: Store, items: seq<Item>, n: nat)
    requires 0 < n <= |items|
    ensures OneByOne(spec, st, items[..n]) == ApplyBatch(spec, OneByOne(spec, st, items[..n - 1]), [items[n - 1]])
  {
    assert items[..n][..n - 1] == items[..n - 1];
  }

  lemma OnlyNewLacksOne(items: seq<Item>, identity: Identity, k: nat)
    requires k < |items|
    ensures items[k].identity in OnlyNew(items, identity).inbox <==> items[k].identity != identity
  {
    assert items[k] in items;
  }

  /** After `n` events one by one: nothing has changed before event `i`, and later its row is the whole table. */
  function KeptFirst(spec: Spec, items: seq<Item>, i: nat, n: nat): Store
    requires i < |items|
  {
    var start := OnlyNew(items, items[i].identity);
    if n <= i then start else Store(OnlyRow(spec, items[i]), start.inbox + {items[i].identity})
  }

  lemma KeptFirstStep(spec: Spec, items: seq<Item>, i: nat, n: nat)
    requires i < |items| && FirstOf(items, i) && 0 < n <= |items|
    ensures ApplyBatch(spec, KeptFirst(spec, items, i, n - 1), [items[n - 1]]) == KeptFirst(spec, items, i, n)
  {
    OnlyNewLacksOne(items, items[i].identity, n - 1);
    ApplyToEmptyOrSeen(spec, KeptFirst(spec, items, i, n - 1), items[n - 1]);
    if n - 1 < i {
      assert items[n - 1].identity != items[i].identity;
    }
  }

  lemma {:induction false} OneByOneKeepsFirst(spec: Spec, items: seq<Item>, i: nat, n: nat)
    requires i < |items| && FirstOf(items, i) && n <= |items|
    ensures OneByOne(spec, OnlyNew(items, items[i].identity), items[..n]) == KeptFirst(spec, items, i, n)
  {
    if n > 0 {
      OneByOneKeepsFirst(spec, items, i, n - 1);
      OneByOneStep(spec, OnlyNew(items, items[i].identity), items, n);
      KeptFirstStep(spec, items, i, n);
    }
  }

  lemma BatchTakesRepeat(spec: Spec, items: seq<Item>, i: nat, j: nat)
    requires i < j < |items| && items[i].identity == items[j].identity
    requires !(items[j].data.id == items[i].data.id && items[j].data.version <= items[i].data.version)
    ensures ApplyBatch(spec, OnlyNew(items, items[i].identity), items).table != OnlyRow(spec, items[i])
  {
    var st := OnlyNew(items, items[i].identity);
    assert HoldsAtLeast(ApplyBatch(spec, st, items).table, items[j].data) by {
      BatchHoldsFresh(spec, st, items, j);
    }
  }

  predicate HoldsAtLeast(table: map<Id, Row>, data: Data) {
    data.id in table && table[data.id].version >= data.version
  }

  /** A fresh item of the batch is in the table afterwards, in its version or a newer one. */
  lemma BatchHoldsFresh(spec: Spec, st: Store, items: seq<Item>, j: nat)
    requires j < |items| && items[j].identity !in st.inbox
    ensures HoldsAtLeast(ApplyBatch(spec, st, items).table, items[j].data)
  {
    var winners := Winners(items, Fresh(st.inbox, items));
    assert items[j].data.id in winners && winners[items[j].data.id].version >= items[j].data.version by {
      SeenInFresh(st.inbox, items, j);
      WinnerIsHighest(items, Fresh(st.inbox, items));
    }
  }
}
