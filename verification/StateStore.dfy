/**
 * The database as the service sees it: one table of versioned rows and the inbox of processed
 * events, with the meaning of the three writes the repository and the unit of work issue.
 */
module StateStore {
  import opened Options

  type Id = nat

  datatype Value = Null | Text(text: string) | Number(n: int)

  /** A full-state payload: the business model and also what an event carries. */
  datatype Data = Data(id: Id, version: nat, fields: map<string, Value>)

  datatype Row = Row(version: nat, fields: map<string, Value>)

  datatype Identity = Identity(source: string, eventId: string)

  /** One consumed event: who announced it, and the state it announces. */
  datatype Item = Item(identity: Identity, data: Data)

  datatype Store = Store(table: map<Id, Row>, inbox: set<Identity>)

  const EMPTY := Store(map[], {})

  /** `prepare` is the spec's per-field rule; the default spec has none. */
  datatype Spec = Spec(mutableFields: seq<string>, prepare: (string, Value) -> Value)

  function Attribute(fields: map<string, Value>, name: string): Value {
    if name in fields then fields[name] else Null
  }

  /** `_new_module`: the row a payload becomes. */
  function NewRow(spec: Spec, data: Data, version: nat): Row {
    Row(version, map name | name in spec.mutableFields :: spec.prepare(name, Attribute(data.fields, name)))
  }

  // ---- the consumer's transaction

  function Fresh(inbox: set<Identity>, items: seq<Item>): set<Identity> {
    (set i | i in items :: i.identity) - inbox
  }

  /** One turn of the loop over the batch: a strictly newer payload takes the id. */
  function Contend(winners: map<Id, Data>, item: Item, news: set<Identity>): map<Id, Data> {
    if item.identity !in news then winners
    else if item.data.id !in winners || item.data.version > winners[item.data.id].version
    then winners[item.data.id := item.data]
    else winners
  }

  /** Per id, the first fresh payload of the highest version. */
  function Winners(items: seq<Item>, news: set<Identity>): map<Id, Data> {
    if items == [] then map[]
    else Contend(Winners(items[..|items| - 1], news), items[|items| - 1], news)
  }

  function NewRows(spec: Spec, winners: map<Id, Data>): map<Id, Row> {
    map id | id in winners :: NewRow(spec, winners[id], winners[id].version)
  }

  /** INSERT ... ON CONFLICT DO UPDATE ... WHERE stored.version < excluded.version. */
  function Upsert(table: map<Id, Row>, rows: map<Id, Row>): map<Id, Row> {
    map id | id in table.Keys + rows.Keys ::
      if id in rows && (id !in table || table[id].version < rows[id].version) then rows[id] else table[id]
  }

  /** What one committed `apply_state_events` does to the database. */
  function ApplyBatch(spec: Spec, st: Store, items: seq<Item>): Store {
    var news := Fresh(st.inbox, items);
    Store(Upsert(st.table, NewRows(spec, Winners(items, news))), st.inbox + news)
  }

  // ---- the API's transactions

  datatype Verdict = Made | Replayed | Clash | NotFound | NothingSent | VersionClash | Changed

  /** `announced` is the payload of the staged event; only then does the transaction commit. */
  datatype Outcome = Outcome(verdict: Verdict, after: Store, announced: Option<Data>)

  function Refusal(st: Store, verdict: Verdict): Outcome {
    Outcome(verdict, st, None)
  }

  predicate ContentMatches(spec: Spec, row: Row, data: Data) {
    forall name | name in spec.mutableFields :: Attribute(row.fields, name) == Attribute(data.fields, name)
  }

  function Announce(id: Id, row: Row): Data {
    Data(id, row.version, row.fields)
  }

  function Create(spec: Spec, st: Store, data: Data): Outcome {
    if data.id !in st.table then
      var row := NewRow(spec, data, 1);
      Outcome(Made, st.(table := st.table[data.id := row]), Some(Announce(data.id, row)))
    else if ContentMatches(spec, st.table[data.id], data) then
      Outcome(Replayed, st, Some(Announce(data.id, st.table[data.id])))
    else
      Refusal(st, Clash)
  }

  /** An update request: the fields the client sent, with None for an explicit null. */
  datatype Changes = Changes(sent: map<string, Option<Value>>)

  function SentFields(spec: Spec, changes: Changes): seq<string> {
    SentAmong(spec.mutableFields, changes)
  }

  function SentAmong(names: seq<string>, changes: Changes): seq<string> {
    if names == [] then []
    else
      var rest := SentAmong(names[1..], changes);
      if names[0] in changes.sent && changes.sent[names[0]].Some? then [names[0]] + rest else rest
  }

  function ChangedRow(spec: Spec, row: Row, changes: Changes): Row {
    var names := SentFields(spec, changes);
    Row(row.version + 1,
        map name | name in row.fields.Keys + (set n | n in names) ::
          if name in names && name in changes.sent && changes.sent[name].Some?
          then spec.prepare(name, changes.sent[name].value)
          else Attribute(row.fields, name))
  }

  predicate Guarded(row: Row, guard: Option<(string, Value)>) {
    guard.Some? ==> Attribute(row.fields, guard.value.0) == guard.value.1
  }

  function Update(
    spec: Spec, st: Store, id: Id, changes: Changes, expected: Option<nat>, guard: Option<(string, Value)>): Outcome
  {
    if SentFields(spec, changes) == [] then Refusal(st, NothingSent)
    else if id !in st.table || !Guarded(st.table[id], guard) then Refusal(st, NotFound)
    else if expected.Some? && st.table[id].version != expected.value then Refusal(st, VersionClash)
    else
      var row := ChangedRow(spec, st.table[id], changes);
      Outcome(Changed, st.(table := st.table[id := row]), Some(Announce(id, row)))
  }
}
