/**
 * An authority written only through `create` and `update`, and a replica that applies the
 * events it published, in any order, with any duplication and any batching.
 */
module Convergence {
  import opened Options
  import opened StateStore
  import Batching
  import Writes

  /**
   * How one API transaction ended: rolled back, committed with its event published, or
   * committed with the event lost (a failed publish, or a commit whose answer was lost).
   */
  datatype Fate = RolledBack | Published | Unannounced

  datatype Request =
    | DoCreate(data: Data)
    | DoUpdate(id: Id, changes: Changes, expected: Option<nat>, guard: Option<(string, Value)>)

  datatype Call = Call(request: Request, eventId: Identity, fate: Fate)

  /** `history` holds every content ever committed, by id and version. */
  datatype Authority = Authority(
    store: Store, history: map<(Id, nat), map<string, Value>>, published: set<Item>)

  function Respond(spec: Spec, st: Store, request: Request): Outcome {
    match request
    case DoCreate(data) => Create(spec, st, data)
    case DoUpdate(id, changes, expected, guard) => Update(spec, st, id, changes, expected, guard)
  }

  function Serve(spec: Spec, a: Authority, call: Call): Authority {
    var out := Respond(spec, a.store, call.request);
    if out.announced.None? || call.fate.RolledBack? then a
    else
      var d := out.announced.value;
      Authority(out.after, a.history[(d.id, d.version) := d.fields],
                if call.fate.Published? then a.published + {Item(call.eventId, d)} else a.published)
  }

  function ServeAll(spec: Spec, calls: seq<Call>): Authority
    decreases |calls|
  {
    if calls == [] then Authority(EMPTY, map[], {})
    else Serve(spec, ServeAll(spec, calls[..|calls| - 1]), calls[|calls| - 1])
  }

  // ---- the authority's invariant, for every spec

  ghost predicate Versioned(a: Authority) {
    && (forall id: Id, v: nat :: (id, v) in a.history <==> id in a.store.table && 1 <= v <= a.store.table[id].version)
    && (forall id | id in a.store.table :: (id, a.store.table[id].version) in a.history
          && a.history[(id, a.store.table[id].version)] == a.store.table[id].fields)
  }

  predicate InHistory(a: Authority, d: Data) {
    (d.id, d.version) in a.history && a.history[(d.id, d.version)] == d.fields
  }

  /** A row has exactly the mutable fields. */
  ghost predicate Shaped(spec: Spec, fields: map<string, Value>) {
    forall name :: name in fields <==> name in spec.mutableFields
  }

  ghost predicate Sound(spec: Spec, a: Authority) {
    && Versioned(a)
    && (forall k | k in a.history :: Shaped(spec, a.history[k]))
    && (forall e | e in a.published :: InHistory(a, e.data))
  }

  lemma RowsStayShaped(spec: Spec, row: Row, changes: Changes)
    requires Shaped(spec, row.fields)
    ensures Shaped(spec, ChangedRow(spec, row, changes).fields)
  {
    Writes.SentFieldsAreSets(spec, changes);
  }

  /** What a committed call does to the history: replays nothing new, or adds the next version. */
  lemma CommitExtendsHistory(spec: Spec, a: Authority, request: Request)
    requires Sound(spec, a)
    requires Respond(spec, a.store, request).announced.Some?
    ensures
      var out := Respond(spec, a.store, request);
      var d := out.announced.value;
      && Shaped(spec, d.fields)
      && (if d.id !in a.store.table then d.version == 1 && out.after.table == a.store.table[d.id := Row(1, d.fields)]
          else if out.verdict == Replayed then
            out.after == a.store && d.version == a.store.table[d.id].version && d.fields == a.store.table[d.id].fields
          else d.version == a.store.table[d.id].version + 1
               && out.after.table == a.store.table[d.id := Row(d.version, d.fields)])
  {
    match request
    case DoCreate(data) =>
      if data.id !in a.store.table {
        assert Shaped(spec, NewRow(spec, data, 1).fields);
      } else {
        assert Shaped(spec, a.history[(data.id, a.store.table[data.id].version)]);
      }
    case DoUpdate(id, changes, expected, guard) =>
      assert Shaped(spec, a.history[(id, a.store.table[id].version)]);
      RowsStayShaped(spec, a.store.table[id], changes);
  }

  lemma NextVersionKeepsVersioned(a: Authority, d: Data, b: Authority)
    requires Versioned(a)
    requires d.version == if d.id in a.store.table then a.store.table[d.id].version + 1 else 1
    requires b.store.table == a.store.table[d.id := Row(d.version, d.fields)]
    requires b.history == a.history[(d.id, d.version) := d.fields]
    ensures Versioned(b) && (d.id, d.version) !in a.history
  {
    assert (d.id, d.version) !in a.history;
    forall id: Id, v: nat
      ensures (id, v) in b.history <==> id in b.store.table && 1 <= v <= b.store.table[id].version
    {
      assert (id, v) in b.history <==> (id, v) in a.history || (id, v) == (d.id, d.version);
    }
  }

  ghost predicate Extends(a: Authority, b: Authority) {
    forall k | k in a.history :: k in b.history && b.history[k] == a.history[k]
  }

  /** One committed call, seen from the history: the next version of its id, or a replay. */
  lemma CommitKeepsHistory(a: Authority, d: Data, b: Authority, replayed: bool)
    requires Versioned(a) && b.history == a.history[(d.id, d.version) := d.fields]
    requires if replayed then d.id in a.store.table && d == Announce(d.id, a.store.table[d.id]) && b.store == a.store
             else d.version == (if d.id in a.store.table then a.store.table[d.id].version + 1 else 1)
                  && b.store.table == a.store.table[d.id := Row(d.version, d.fields)]
    ensures Versioned(b) && Extends(a, b)
  {
    if replayed {
      assert (d.id, d.version) in a.history;
      assert b.history == a.history;
    } else {
      NextVersionKeepsVersioned(a, d, b);
    }
  }

  lemma ServeKeepsHistory(spec: Spec, a: Authority, call: Call)
    requires Sound(spec, a)
    ensures Versioned(Serve(spec, a, call)) && Extends(a, Serve(spec, a, call))
    ensures forall k | k in Serve(spec, a, call).history :: Shaped(spec, Serve(spec, a, call).history[k])
  {
    var out := Respond(spec, a.store, call.request);
    if out.announced.Some? && !call.fate.RolledBack? {
      CommitExtendsHistory(spec, a, call.request);
      CommitKeepsHistory(a, out.announced.value, Serve(spec, a, call), out.verdict == Replayed);
    }
  }

  /** Every call keeps the invariant, whatever the per-field rules and the event ids are. */
  lemma ServeKeepsSound(spec: Spec, a: Authority, call: Call)
    requires Sound(spec, a)
    ensures Sound(spec, Serve(spec, a, call))
  {
    var b := Serve(spec, a, call);
    ServeKeepsHistory(spec, a, call);
    forall e | e in b.published
      ensures InHistory(b, e.data)
    {
      if e in a.published {
        assert InHistory(a, e.data);
      }
    }
  }

  lemma {:induction false} ServeAllIsSound(spec: Spec, calls: seq<Call>)
    ensures Sound(spec, ServeAll(spec, calls))
    decreases |calls|
  {
    if calls != [] {
      ServeAllIsSound(spec, calls[..|calls| - 1]);
      ServeKeepsSound(spec, ServeAll(spec, calls[..|calls| - 1]), calls[|calls| - 1]);
    }
  }

  lemma {:induction false} HistoryOnlyGrows(spec: Spec, calls: seq<Call>, n: nat)
    requires n <= |calls|
    ensures Extends(ServeAll(spec, calls[..n]), ServeAll(spec, calls))
    decreases |calls|
  {
    if n == |calls| {
      assert calls[..n] == calls;
    } else {
      var init := calls[..|calls| - 1];
      assert init[..n] == calls[..n];
      HistoryOnlyGrows(spec, init, n);
      ServeAllIsSound(spec, init);
      ServeKeepsHistory(spec, ServeAll(spec, init), calls[|calls| - 1]);
    }
  }

  /**
   * At every point of every run each id's versions are 1, 2, ..., n without gaps, its row is
   * version n, and a content once committed under (id, version) is never replaced.
   */
  lemma VersionsAreGapless(spec: Spec, calls: seq<Call>, n: nat)
    requires n <= |calls|
    ensures Versioned(ServeAll(spec, calls))
    ensures Extends(ServeAll(spec, calls[..n]), ServeAll(spec, calls))
  {
    ServeAllIsSound(spec, calls);
    HistoryOnlyGrows(spec, calls, n);
  }

  // ---- the replica

  /** One identity was published with one state, as CloudEvents demand. */
  ghost predicate Unambiguous(a: Authority) {
    forall x, y | x in a.published && y in a.published && x.identity == y.identity :: x == y
  }

  predicate IsNewId(a: Authority, eventId: Identity) {
    forall x | x in a.published :: x.identity != eventId
  }

  lemma NewIdStaysUnambiguous(spec: Spec, a: Authority, call: Call)
    requires Unambiguous(a) && IsNewId(a, call.eventId)
    ensures Unambiguous(Serve(spec, a, call))
  {
  }

  /** No two calls of the run were given the same event id. */
  predicate DistinctIds(calls: seq<Call>) {
    forall i, j | 0 <= i < j < |calls| :: calls[i].eventId != calls[j].eventId
  }

  lemma {:induction false} PublishedIdsAreCalls(spec: Spec, calls: seq<Call>, x: Item)
    requires x in ServeAll(spec, calls).published
    ensures exists i | 0 <= i < |calls| :: calls[i].eventId == x.identity
    decreases |calls|
  {
    var last := |calls| - 1;
    if x in ServeAll(spec, calls[..last]).published {
      PublishedIdsAreCalls(spec, calls[..last], x);
      var i :| 0 <= i < last && calls[..last][i].eventId == x.identity;
      assert calls[i].eventId == x.identity;
    } else {
      assert calls[last].eventId == x.identity;
    }
  }

  /** Giving every call a new event id is enough for one state per identity. */
  lemma {:induction false} DistinctIdsAreUnambiguous(spec: Spec, calls: seq<Call>)
    requires DistinctIds(calls)
    ensures Unambiguous(ServeAll(spec, calls))
    decreases |calls|
  {
    if calls != [] {
      var last := |calls| - 1;
      var a := ServeAll(spec, calls[..last]);
      DistinctIdsAreUnambiguous(spec, calls[..last]);
      forall x | x in a.published
        ensures x.identity != calls[last].eventId
      {
        PublishedIdsAreCalls(spec, calls[..last], x);
      }
      NewIdStaysUnambiguous(spec, a, calls[last]);
    }
  }

  /** Deliveries are copies of published events; the order and the number of copies are free. */
  predicate DeliveriesOf(a: Authority, items: seq<Item>) {
    forall k | 0 <= k < |items| :: items[k] in a.published
  }

  predicate Delivered(items: seq<Item>, id: Id, v: nat) {
    exists k :: 0 <= k < |items| && items[k].data.id == id && items[k].data.version == v
  }

  ghost predicate IsHighest(items: seq<Item>, id: Id, v: nat) {
    Delivered(items, id, v) && forall w: nat | Delivered(items, id, w) :: w <= v
  }

  /** The authority's content of that version, prepared once more by the replica. */
  function PreparedAgain(spec: Spec, a: Authority, id: Id, v: nat): Row
    requires (id, v) in a.history
  {
    NewRow(spec, Data(id, v, a.history[(id, v)]), v)
  }

  /** The replica's row for `id` is made from the content of the highest version delivered. */
  ghost predicate HoldsHighest(spec: Spec, a: Authority, items: seq<Item>, replica: map<Id, Row>, id: Id) {
    && (id in replica <==> exists v: nat :: Delivered(items, id, v))
    && (id in replica ==>
          && IsHighest(items, id, replica[id].version)
          && (id, replica[id].version) in a.history
          && replica[id] == PreparedAgain(spec, a, id, replica[id].version))
  }

  lemma WinnersOfAll(items: seq<Item>)
    ensures
      var winners := Winners(items, Fresh({}, items));
      && (forall k | 0 <= k < |items| ::
            items[k].data.id in winners && items[k].data.version <= winners[items[k].data.id].version)
      && (forall id | id in winners :: exists k :: 0 <= k < |items| && items[k].data == winners[id] && winners[id].id == id)
  {
    var news := Fresh({}, items);
    forall k | 0 <= k < |items|
      ensures items[k].identity in news
    {
      Batching.SeenInFresh({}, items, k);
    }
    Batching.WinnerIsHighest(items, news);
  }

  lemma EmptyUpsert(rows: map<Id, Row>)
    ensures Upsert(map[], rows) == rows
  {
  }

  lemma RowOfWinner(spec: Spec, a: Authority, items: seq<Item>, winner: Data)
    requires Sound(spec, a) && DeliveriesOf(a, items)
    requires exists k :: 0 <= k < |items| && items[k].data == winner
    ensures InHistory(a, winner) && Delivered(items, winner.id, winner.version)
    ensures NewRow(spec, winner, winner.version) == PreparedAgain(spec, a, winner.id, winner.version)
  {
    var k :| 0 <= k < |items| && items[k].data == winner;
    assert InHistory(a, items[k].data);
  }

  lemma BatchHoldsHighest(spec: Spec, a: Authority, items: seq<Item>, id: Id)
    requires Sound(spec, a) && DeliveriesOf(a, items)
    ensures HoldsHighest(spec, a, items, ApplyBatch(spec, EMPTY, items).table, id)
  {
    var winners := Winners(items, Fresh({}, items));
    var replica := NewRows(spec, winners);
    assert ApplyBatch(spec, EMPTY, items).table == replica by {
      EmptyUpsert(replica);
    }
    WinnersOfAll(items);
    forall v: nat | Delivered(items, id, v)
      ensures id in winners && v <= winners[id].version
    {
      var k :| 0 <= k < |items| && items[k].data.id == id && items[k].data.version == v;
    }
    if id in winners {
      RowOfWinner(spec, a, items, winners[id]);
    }
  }

  /** A run of the authority and a way of delivering its events. */
  ghost predicate Possible(spec: Spec, calls: seq<Call>, batches: seq<seq<Item>>) {
    var a := ServeAll(spec, calls);
    Unambiguous(a) && DeliveriesOf(a, Batching.Concat(batches))
  }

  function Replica(spec: Spec, batches: seq<seq<Item>>): map<Id, Row> {
    Batching.ApplyAll(spec, EMPTY, batches).table
  }

  /**
   * For every spec, order, duplication and batching of deliveries, the replica holds for each
   * delivered id the authority's content of the highest version delivered, prepared once more
   * by the per-field rules, and nothing else.
   */
  lemma ReplicaHoldsHighest(spec: Spec, calls: seq<Call>, batches: seq<seq<Item>>, id: Id)
    requires Possible(spec, calls, batches)
    ensures HoldsHighest(spec, ServeAll(spec, calls), Batching.Concat(batches), Replica(spec, batches), id)
  {
    var a, items := ServeAll(spec, calls), Batching.Concat(batches);
    ServeAllIsSound(spec, calls);
    assert Batching.OneStatePerIdentity(items);
    Batching.BatchingIsInvisible(spec, EMPTY, batches);
    BatchHoldsHighest(spec, a, items, id);
  }

  /**
   * The replica agrees with the authority on `id`: it holds exactly the authority's content of
   * the highest version delivered, and the authority's row once that is the newest.
   */
  ghost predicate Agrees(spec: Spec, calls: seq<Call>, batches: seq<seq<Item>>, id: Id) {
    var a, items, replica := ServeAll(spec, calls), Batching.Concat(batches), Replica(spec, batches);
    && (id in replica <==> exists v: nat :: Delivered(items, id, v))
    && (id in replica ==> IsHighest(items, id, replica[id].version) && InHistory(a, Announce(id, replica[id])))
    && (id in a.store.table && Delivered(items, id, a.store.table[id].version) ==>
          id in replica && replica[id] == a.store.table[id])
  }

  /** The per-field rules leave an already prepared value alone, as the default (no rule) does. */
  ghost predicate Settling(spec: Spec) {
    forall name, v | name in spec.mutableFields ::
      spec.prepare(name, spec.prepare(name, v)) == spec.prepare(name, v)
  }

  ghost predicate Prepared(spec: Spec, fields: map<string, Value>) {
    forall name | name in fields :: spec.prepare(name, fields[name]) == fields[name]
  }

  /** Under settling rules every committed content is a fixed point of the rules. */
  lemma RowsStayPrepared(spec: Spec, row: Row, changes: Changes)
    requires Settling(spec) && Prepared(spec, row.fields)
    ensures Prepared(spec, ChangedRow(spec, row, changes).fields)
  {
    Writes.SentFieldsAreSets(spec, changes);
  }

  lemma AnnouncedIsPrepared(spec: Spec, a: Authority, request: Request)
    requires Settling(spec) && Sound(spec, a) && (forall k | k in a.history :: Prepared(spec, a.history[k]))
    requires Respond(spec, a.store, request).announced.Some?
    ensures Prepared(spec, Respond(spec, a.store, request).announced.value.fields)
  {
    match request
    case DoCreate(data) =>
      if data.id in a.store.table {
        assert Prepared(spec, a.history[(data.id, a.store.table[data.id].version)]);
      }
    case DoUpdate(id, changes, expected, guard) =>
      assert Prepared(spec, a.history[(id, a.store.table[id].version)]);
      RowsStayPrepared(spec, a.store.table[id], changes);
  }

  lemma {:induction false} HistoryIsPrepared(spec: Spec, calls: seq<Call>)
    requires Settling(spec)
    ensures forall k | k in ServeAll(spec, calls).history :: Prepared(spec, ServeAll(spec, calls).history[k])
    decreases |calls|
  {
    if calls != [] {
      var init, call := calls[..|calls| - 1], calls[|calls| - 1];
      var a := ServeAll(spec, init);
      HistoryIsPrepared(spec, init);
      ServeAllIsSound(spec, init);
      if Respond(spec, a.store, call.request).announced.Some? {
        AnnouncedIsPrepared(spec, a, call.request);
      }
    }
  }

  /** Convergence under settling rules. */
  lemma ReplicaConverges(spec: Spec, calls: seq<Call>, batches: seq<seq<Item>>, id: Id)
    requires Settling(spec) && Possible(spec, calls, batches)
    ensures Agrees(spec, calls, batches, id)
  {
    var a, items, replica := ServeAll(spec, calls), Batching.Concat(batches), Replica(spec, batches);
    ReplicaHoldsHighest(spec, calls, batches, id);
    ServeAllIsSound(spec, calls);
    HistoryIsPrepared(spec, calls);
    if id in replica {
      PreparedRowIsContent(spec, a, id, replica[id].version);
      if Delivered(items, id, a.store.table[id].version) {
        assert replica[id].version == a.store.table[id].version;
      }
    }
  }

  lemma PreparedRowIsContent(spec: Spec, a: Authority, id: Id, v: nat)
    requires (id, v) in a.history && Shaped(spec, a.history[(id, v)]) && Prepared(spec, a.history[(id, v)])
    ensures PreparedAgain(spec, a, id, v) == Row(v, a.history[(id, v)])
  {
    var made := PreparedAgain(spec, a, id, v).fields;
    assert made.Keys == a.history[(id, v)].Keys;
  }

  function OneCreate(name: string, v: Value): seq<Call> {
    [Call(DoCreate(Data(1, 1, map[name := v])), Identity("source", "event"), Published)]
  }

  lemma OneCreatePublishes(spec: Spec, name: string, v: Value) returns (row: Row, item: Item)
    requires name in spec.mutableFields
    ensures row.version == 1 && name in row.fields && row.fields[name] == spec.prepare(name, v)
    ensures item.data == Data(1, 1, row.fields)
    ensures
      var a := ServeAll(spec, OneCreate(name, v));
      a.published == {item} && a.store.table == map[1 := row]
  {
    var calls := OneCreate(name, v);
    assert calls[..0] == [] && ServeAll(spec, calls) == Serve(spec, ServeAll(spec, []), calls[0]);
    row := NewRow(spec, Data(1, 1, map[name := v]), 1);
    item := Item(Identity("source", "event"), Data(1, 1, row.fields));
  }

  /** A rule that does not settle on `v`: one create, delivered once, makes the replica differ. */
  lemma UnsettledRuleDiverges(spec: Spec, name: string, v: Value) returns (batches: seq<seq<Item>>)
    requires name in spec.mutableFields
    requires spec.prepare(name, spec.prepare(name, v)) != spec.prepare(name, v)
    ensures Possible(spec, OneCreate(name, v), batches) && !Agrees(spec, OneCreate(name, v), batches, 1)
  {
    var calls := OneCreate(name, v);
    var row, item := OneCreatePublishes(spec, name, v);
    batches := [[item]];
    assert Batching.Concat(batches) == [item] by {
      assert batches[..0] == [];
    }
    assert Delivered([item], 1, 1) by {
      assert [item][0] == item;
    }
    ReplicaHoldsHighest(spec, calls, batches, 1);
  }

  /**
   * Convergence, exactly: every replica agrees with the authority on every run and every
   * delivery if and only if each mutable field's rule leaves its own results alone.
   */
  lemma ReplicaConvergesIffRulesSettle(spec: Spec)
    ensures (forall calls, batches, id | Possible(spec, calls, batches) :: Agrees(spec, calls, batches, id))
            <==> Settling(spec)
  {
    if Settling(spec) {
      forall calls, batches, id | Possible(spec, calls, batches)
        ensures Agrees(spec, calls, batches, id)
      {
        ReplicaConverges(spec, calls, batches, id);
      }
    } else {
      var name, v :| name in spec.mutableFields && spec.prepare(name, spec.prepare(name, v)) != spec.prepare(name, v);
      var batches := UnsettledRuleDiverges(spec, name, v);
    }
  }

  /** The same with a hypothesis on the calls alone: every call has its own event id. */
  lemma NewIdsConvergeIffRulesSettle(spec: Spec)
    ensures (forall calls, batches, id |
               DistinctIds(calls) && DeliveriesOf(ServeAll(spec, calls), Batching.Concat(batches)) ::
               Agrees(spec, calls, batches, id))
            <==> Settling(spec)
  {
    if Settling(spec) {
      forall calls, batches, id | DistinctIds(calls) && DeliveriesOf(ServeAll(spec, calls), Batching.Concat(batches))
        ensures Agrees(spec, calls, batches, id)
      {
        DistinctIdsAreUnambiguous(spec, calls);
        ReplicaConverges(spec, calls, batches, id);
      }
    } else {
      var name, v :| name in spec.mutableFields && spec.prepare(name, spec.prepare(name, v)) != spec.prepare(name, v);
      var batches := UnsettledRuleDiverges(spec, name, v);
      assert DistinctIds(OneCreate(name, v));
    }
  }

  // ---- replaying a create

  /** The content has the payload's value in every mutable field. */
  predicate SameContent(spec: Spec, content: map<string, Value>, data: Data) {
    forall name | name in spec.mutableFields :: Attribute(content, name) == Attribute(data.fields, name)
  }

  /** The per-field rules leave the payload as it is; without rules they always do. */
  predicate RulesKeep(spec: Spec, data: Data) {
    forall name | name in spec.mutableFields ::
      spec.prepare(name, Attribute(data.fields, name)) == Attribute(data.fields, name)
  }

  /** The answer and the announcement of a replay: the stored row, and nothing changes. */
  predicate Replays(spec: Spec, st: Store, data: Data) {
    data.id in st.table && Create(spec, st, data) == Outcome(Replayed, st, Some(Announce(data.id, st.table[data.id])))
  }

  /**
   * At any point of any run a create of an id that exists is a replay exactly when the content
   * committed under the id's current version is the payload; otherwise it is refused.
   */
  lemma CreateReplaysIffContentIsPayload(spec: Spec, calls: seq<Call>, data: Data)
    requires data.id in ServeAll(spec, calls).store.table
    ensures
      var a := ServeAll(spec, calls);
      var at := (data.id, a.store.table[data.id].version);
      && at in a.history
      && (Replays(spec, a.store, data) <==> SameContent(spec, a.history[at], data))
      && (!SameContent(spec, a.history[at], data) ==> Create(spec, a.store, data) == Outcome(Clash, a.store, None))
  {
    ServeAllIsSound(spec, calls);
  }

  /** Call `k` of the run was a create that made its row, and it was committed. */
  predicate MadeBy(spec: Spec, calls: seq<Call>, k: nat, data: Data)
    requires k < |calls|
  {
    && calls[k].request == DoCreate(data) && !calls[k].fate.RolledBack?
    && data.id !in ServeAll(spec, calls[..k]).store.table
  }

  lemma FirstVersionIsPayload(spec: Spec, calls: seq<Call>, k: nat, data: Data)
    requires k < |calls| && MadeBy(spec, calls, k, data)
    ensures
      var a := ServeAll(spec, calls);
      (data.id, 1) in a.history && a.history[(data.id, 1)] == NewRow(spec, data, 1).fields && data.id in a.store.table
  {
    var a, b := ServeAll(spec, calls[..k]), ServeAll(spec, calls[..k + 1]);
    assert calls[..k + 1][..k] == calls[..k] && calls[..k + 1][k] == calls[k];
    assert (data.id, 1) in b.history && b.history[(data.id, 1)] == NewRow(spec, data, 1).fields;
    VersionsAreGapless(spec, calls, k + 1);
  }

  /**
   * The same create repeated, whatever happened in between. As long as no update of the row was
   * committed it is a replay exactly when the rules keep the payload; after updates it is one
   * exactly when the newest content is the payload again.
   */
  lemma RepeatedCreateReplays(spec: Spec, calls: seq<Call>, k: nat, data: Data)
    requires k < |calls| && MadeBy(spec, calls, k, data)
    ensures
      var a := ServeAll(spec, calls);
      && data.id in a.store.table
      && (Replays(spec, a.store, data) <==>
            if a.store.table[data.id].version == 1 then RulesKeep(spec, data)
            else SameContent(spec, a.store.table[data.id].fields, data))
  {
    var a := ServeAll(spec, calls);
    FirstVersionIsPayload(spec, calls, k, data);
    CreateReplaysIffContentIsPayload(spec, calls, data);
    ServeAllIsSound(spec, calls);
    if a.store.table[data.id].version == 1 {
      assert forall name | name in spec.mutableFields ::
          Attribute(a.history[(data.id, 1)], name) == spec.prepare(name, Attribute(data.fields, name));
    }
  }

  /** Without any rule: create, update, and the repeat of the create is refused. */
  lemma UpdateBreaksReplay()
    ensures
      var spec := Spec(["name"], (n: string, v: Value) => v);
      var data := Data(1, 1, map["name" := Text("y")]);
      var first := Create(spec, EMPTY, data);
      var second := Update(spec, first.after, 1, Changes(map["name" := Some(Text("z"))]), None, None);
      && RulesKeep(spec, data)
      && first.verdict == Made && second.verdict == Changed
      && Create(spec, second.after, data) == Outcome(Clash, second.after, None)
  {
    var spec := Spec(["name"], (n: string, v: Value) => v);
    var data := Data(1, 1, map["name" := Text("y")]);
    var changes := Changes(map["name" := Some(Text("z"))]);
    var first := Create(spec, EMPTY, data);
    var second := Update(spec, first.after, 1, changes, None, None);
    Writes.SentFieldsAreSets(spec, changes);
    assert "name" in SentFields(spec, changes);
    assert Attribute(second.after.table[1].fields, "name") == Text("z");
    assert Attribute(data.fields, "name") == Text("y") && "name" in spec.mutableFields;
  }

  /**
   * The immediate repeat is a replay, answering with the stored row and re-announcing version 1,
   * exactly when the per-field rules leave the payload as it is; the default rules always do.
   */
  lemma CreateReplaysIffRulesKeepPayload(spec: Spec, st: Store, data: Data)
    requires data.id !in st.table
    ensures
      var first := Create(spec, st, data);
      var again := Create(spec, first.after, data);
      && first.verdict == Made && first.announced == Some(Announce(data.id, NewRow(spec, data, 1)))
      && (again == Outcome(Replayed, first.after, first.announced) <==> RulesKeep(spec, data))
  {
    var row := NewRow(spec, data, 1);
    assert forall name | name in spec.mutableFields ::
        Attribute(row.fields, name) == spec.prepare(name, Attribute(data.fields, name));
  }

  /** A rule that rewrites a value turns the replay of the same create into a conflict. */
  lemma RewritingRuleBreaksReplay()
    ensures
      var spec := Spec(["name"], (n: string, v: Value) => Text("x"));
      var data := Data(1, 1, map["name" := Text("y")]);
      Create(spec, Create(spec, EMPTY, data).after, data).verdict == Clash
  {
    var spec := Spec(["name"], (n: string, v: Value) => Text("x"));
    var data := Data(1, 1, map["name" := Text("y")]);
    CreateReplaysIffRulesKeepPayload(spec, EMPTY, data);
    assert "name" in spec.mutableFields;
    assert Attribute(Create(spec, EMPTY, data).after.table[1].fields, "name") == Text("x");
  }
}
