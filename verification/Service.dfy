/**
 * The generic business service: `create`, `update` and `apply_state_events`, each one
 * transaction of a unit of work, proved equal to the transaction functions of `StateStore`.
 * Row locks and conflict clauses serialise writers, so a transaction is one atomic step.
 */
module Service {
  import opened Options
  import opened StateStore
  import opened UnitOfWork
  import opened Writes

  datatype Answer =
    | Answered(row: Row, created: bool)
    | Rejected(verdict: Verdict)
    | Broken(reply: CommitReply)

  /** How the service answers once the transaction's verdict and its commit are known. */
  function AnswerOf(out: Outcome, reply: CommitReply): Answer
    requires out.announced.Some?
  {
    if reply.Returned?
    then Answered(Row(out.announced.value.version, out.announced.value.fields), out.verdict == Made)
    else Broken(reply)
  }

  /** The whole effect of a request whose transaction has outcome `out`. */
  ghost predicate Carried(
    out: Outcome, kind: EventKind, eventId: Identity, commit: CommitOutcome, fate: nat -> PublishFate,
    before: Store, published: seq<StateEvent>, after: Store, publishedAfter: seq<StateEvent>, answer: Answer)
  {
    if out.announced.None? then
      after == before && publishedAfter == published && answer == Rejected(out.verdict)
    else
      var event := StateEvent(kind, eventId, out.announced.value);
      && after == Landed(before, out.after, commit)
      && publishedAfter == published + (if commit.CommitOk? then Publish([event], fate, 0).sent else [])
      && answer == AnswerOf(out, if commit.CommitOk? then Reply([event], fate) else CommitRaised([event]))
  }

  /** `_new_module`: one prepared value per mutable field. */
  method NewModule(spec: Spec, data: Data, version: nat) returns (row: Row)
    ensures row == NewRow(spec, data, version)
  {
    var values: map<string, Value> := map[];
    for k := 0 to |spec.mutableFields|
      invariant values == map name | name in spec.mutableFields[..k] ::
                    spec.prepare(name, Attribute(data.fields, name))
    {
      var name := spec.mutableFields[k];
      assert spec.mutableFields[..k + 1] == spec.mutableFields[..k] + [name];
      values := values[name := spec.prepare(name, Attribute(data.fields, name))];
    }
    assert spec.mutableFields[..|spec.mutableFields|] == spec.mutableFields;
    row := Row(version, values);
  }

  /** Inserts the row unless its id is taken; tells whether it did. */
  method InsertIfAbsent(uow: UnitOfWork, id: Id, row: Row) returns (inserted: bool)
    modifies uow`session
    ensures inserted <==> id !in old(uow.session.table)
    ensures uow.session == if inserted then old(uow.session).(table := old(uow.session.table)[id := row])
                           else old(uow.session)
  {
    inserted := id !in uow.session.table;
    if inserted {
      uow.session := uow.session.(table := uow.session.table[id := row]);
    }
  }

  /** The end of both writes: stage the one event, commit, leave the block. */
  method StageAndCommit(
    uow: UnitOfWork, db: Database, event: StateEvent, commit: CommitOutcome, fate: nat -> PublishFate)
    returns (reply: CommitReply)
    requires uow.db == db && uow.Valid() && uow.staged == []
    modifies uow, db
    ensures db.store == Landed(old(db.store), old(uow.session), commit)
    ensures db.published == old(db.published) + (if commit.CommitOk? then Publish([event], fate, 0).sent else [])
    ensures reply == if commit.CommitOk? then Reply([event], fate) else CommitRaised([event])
  {
    uow.StageEvent(event);
    reply := uow.Commit(commit, fate);
    uow.Exit();
  }

  /** A create that is answered tells whether it made the row, and answers with the stored row. */
  method CreateModule(
    spec: Spec, db: Database, data: Data, eventId: Identity, commit: CommitOutcome, fate: nat -> PublishFate)
    returns (answer: Answer)
    modifies db
    ensures answer.Answered? ==>
              && commit.CommitOk? && data.id in db.store.table && answer.row == db.store.table[data.id]
              && (answer.created <==> data.id !in old(db.store.table))
    ensures answer.Rejected? ==> db.store == old(db.store) && db.published == old(db.published)
    ensures commit == CommitFails(false) ==> db.store == old(db.store) && !answer.Answered?
    ensures Carried(Create(spec, old(db.store), data), CreatedEvent, eventId, commit, fate,
                    old(db.store), old(db.published), db.store, db.published, answer)
  {
    var uow := new UnitOfWork(db);
    var row := NewModule(spec, data, 1);
    var created := InsertIfAbsent(uow, data.id, row);
    if !created {
      row := uow.session.table[data.id];
      if !ContentMatches(spec, row, data) {
        uow.Exit();
        return Rejected(Clash);
      }
    }
    var reply := StageAndCommit(uow, db, StateEvent(CreatedEvent, eventId, Announce(data.id, row)), commit, fate);
    answer := if reply.Returned? then Answered(row, created) else Broken(reply);
  }

  /** `_apply_changes`: copies every sent field onto the row, one at a time. */
  method ApplyChanges(spec: Spec, row: Row, changes: Changes) returns (fields: map<string, Value>)
    ensures fields == ChangedRow(spec, row, changes).fields
    ensures FieldsRewritten(spec, row.fields, changes, fields)
  {
    var names := SentFields(spec, changes);
    assert forall k | 0 <= k < |names| :: names[k] in changes.sent && changes.sent[names[k]].Some? by {
      SentFieldsAreSets(spec, changes);
      assert forall k | 0 <= k < |names| :: names[k] in names;
    }
    fields := row.fields;
    for k := 0 to |names|
      invariant fields.Keys == row.fields.Keys + (set n | n in names[..k])
      invariant forall n | n in fields ::
          fields[n] == if n in names[..k] && n in changes.sent && changes.sent[n].Some?
                       then spec.prepare(n, changes.sent[n].value) else Attribute(row.fields, n)
    {
      var name := names[k];
      assert names[..k + 1] == names[..k] + [name];
      fields := fields[name := spec.prepare(name, changes.sent[name].value)];
    }
    assert names[..|names|] == names;
    assert fields == ChangedRow(spec, row, changes).fields;
    assert FieldsRewritten(spec, row.fields, changes, fields) by {
      ChangedRowRewrites(spec, row, changes);
    }
  }

  /** What a carried update means for the database and the caller. */
  lemma CarriedUpdate(
    spec: Spec, id: Id, changes: Changes, expected: Option<nat>, guard: Option<(string, Value)>,
    eventId: Identity, commit: CommitOutcome, fate: nat -> PublishFate,
    before: Store, published: seq<StateEvent>, after: Store, publishedAfter: seq<StateEvent>, answer: Answer)
    requires Carried(Update(spec, before, id, changes, expected, guard), UpdatedEvent, eventId, commit, fate,
                     before, published, after, publishedAfter, answer)
    ensures answer == Rejected(NothingSent) <==> !SetsSome(spec, changes)
    ensures answer == Rejected(NotFound) <==> SetsSome(spec, changes) && !Visible(before, id, guard)
    ensures answer == Rejected(VersionClash) <==>
              SetsSome(spec, changes) && Visible(before, id, guard) && !VersionFits(before.table[id], expected)
    ensures answer.Rejected? ==> after == before && publishedAfter == published
    ensures !answer.Rejected? && commit != CommitFails(false) ==>
              RowRewritten(spec, before.table, id, changes, after.table) && after.inbox == before.inbox
    ensures answer.Answered? ==>
              commit.CommitOk? && id in after.table && answer.row == after.table[id] && !answer.created
    ensures commit == CommitFails(false) ==> after == before && !answer.Answered?
  {
    UpdateIsExact(spec, before, id, changes, expected, guard);
  }

  /**
   * A refused update leaves the database and the published events alone and says why; one that
   * is not refused rewrites exactly the set fields of its row once its commit succeeds.
   */
  method UpdateModule(
    spec: Spec, db: Database, id: Id, changes: Changes, expected: Option<nat>, guard: Option<(string, Value)>,
    eventId: Identity, commit: CommitOutcome, fate: nat -> PublishFate)
    returns (answer: Answer)
    modifies db
    ensures answer == Rejected(NothingSent) <==> !SetsSome(spec, changes)
    ensures answer == Rejected(NotFound) <==> SetsSome(spec, changes) && !Visible(old(db.store), id, guard)
    ensures answer == Rejected(VersionClash) <==>
              && SetsSome(spec, changes) && Visible(old(db.store), id, guard)
              && !VersionFits(old(db.store).table[id], expected)
    ensures answer.Rejected? ==> db.store == old(db.store) && db.published == old(db.published)
    ensures !answer.Rejected? && commit != CommitFails(false) ==>
              RowRewritten(spec, old(db.store).table, id, changes, db.store.table) && db.store.inbox == old(db.store).inbox
    ensures answer.Answered? ==>
              commit.CommitOk? && id in db.store.table && answer.row == db.store.table[id] && !answer.created
    ensures commit == CommitFails(false) ==> db.store == old(db.store) && !answer.Answered?
    ensures Carried(Update(spec, old(db.store), id, changes, expected, guard), UpdatedEvent, eventId, commit, fate,
                    old(db.store), old(db.published), db.store, db.published, answer)
  {
    ghost var before, published := db.store, db.published;
    ghost var out := Update(spec, before, id, changes, expected, guard);
    if SentFields(spec, changes) == [] {
      answer := Rejected(NothingSent);
    } else {
      var uow := new UnitOfWork(db);
      if id !in uow.session.table || !Guarded(uow.session.table[id], guard) {
        uow.Exit();
        answer := Rejected(NotFound);
      } else if expected.Some? && uow.session.table[id].version != expected.value {
        uow.Exit();
        answer := Rejected(VersionClash);
      } else {
        var row := uow.session.table[id];
        var fields := ApplyChanges(spec, row, changes);
        row := Row(row.version + 1, fields);
        uow.session := uow.session.(table := uow.session.table[id := row]);
        assert out == Outcome(Changed, uow.session, Some(Announce(id, row)));
        var reply := StageAndCommit(uow, db, StateEvent(UpdatedEvent, eventId, Announce(id, row)), commit, fate);
        answer := if reply.Returned? then Answered(row, false) else Broken(reply);
      }
    }
    CarriedUpdate(spec, id, changes, expected, guard, eventId, commit, fate, before, published, db.store, db.published, answer);
  }

  /** One statement: insert what is missing, overwrite what is older, skip the rest. */
  method UpsertIfNewerMany(uow: UnitOfWork, rows: map<Id, Row>)
    modifies uow`session
    ensures uow.session == old(uow.session).(table := Upsert(old(uow.session.table), rows))
  {
    if rows == map[] {
      assert Upsert(uow.session.table, rows) == uow.session.table;
      return;
    }
    uow.session := uow.session.(table := Upsert(uow.session.table, rows));
  }

  /** The consumer's transaction; its publisher is null, so nothing is ever staged. */
  method ApplyStateEvents(spec: Spec, db: Database, items: seq<Item>, commit: CommitOutcome) returns (reply: CommitReply)
    modifies db
    ensures db.store == Landed(old(db.store), ApplyBatch(spec, old(db.store), items), commit)
    ensures db.published == old(db.published)
    ensures reply == if commit.CommitOk? then Returned(Report([], [], [])) else CommitRaised([])
  {
    var uow := new UnitOfWork(db);
    var pairs := seq(|items|, k requires 0 <= k < |items| => items[k].identity);
    var news := uow.MarkEventsProcessed(pairs);
    PairsAreIdentities(items, pairs);
    assert news == Fresh(db.store.inbox, items);
    var winners: map<Id, Data> := map[];
    for k := 0 to |items|
      invariant winners == Winners(items[..k], news)
    {
      assert items[..k + 1][..k] == items[..k];
      var item := items[k];
      if item.identity in news {
        if item.data.id !in winners || item.data.version > winners[item.data.id].version {
          winners := winners[item.data.id := item.data];
        }
      }
    }
    assert items[..|items|] == items;
    if winners != map[] {
      UpsertIfNewerMany(uow, NewRows(spec, winners));
    } else {
      assert Upsert(uow.session.table, NewRows(spec, winners)) == uow.session.table;
    }
    reply := uow.Commit(commit, n => Accepted);
    uow.Exit();
  }

  lemma PairsAreIdentities(items: seq<Item>, pairs: seq<Identity>)
    requires |pairs| == |items| && forall k | 0 <= k < |items| :: pairs[k] == items[k].identity
    ensures (set p | p in pairs) == (set i | i in items :: i.identity)
  {
    forall x
      ensures x in pairs <==> exists i :: i in items && i.identity == x
    {
      if x in pairs {
        var k :| 0 <= k < |pairs| && pairs[k] == x;
        assert items[k] in items;
      }
      if i :| i in items && i.identity == x {
        var k :| 0 <= k < |items| && items[k] == i;
        assert pairs[k] == x;
      }
    }
  }
}
