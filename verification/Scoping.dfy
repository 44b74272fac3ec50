/**
 * Scoped routes: a mount under a parent confines create, get and update to the rows whose
 * scope column holds the parent's id.
 */
module Scoping {
  import opened Options
  import opened StateStore
  import Writes

  datatype Scope = Scope(column: string, value: Value)

  datatype Call =
    | CreateCall(data: Data, scope: Option<Scope>)
    | UpdateCall(id: Id, changes: Changes, expected: Option<nat>, scope: Option<Scope>)

  /** A scoped create writes the path's value over whatever the payload had. */
  function Confined(data: Data, scope: Option<Scope>): Data {
    if scope.None? then data else data.(fields := data.fields[scope.value.column := scope.value.value])
  }

  function AsGuard(scope: Option<Scope>): Option<(string, Value)> {
    if scope.None? then None else Some((scope.value.column, scope.value.value))
  }

  function Perform(spec: Spec, st: Store, call: Call): Outcome {
    match call
    case CreateCall(data, scope) => Create(spec, st, Confined(data, scope))
    case UpdateCall(id, changes, expected, scope) => Update(spec, st, id, changes, expected, AsGuard(scope))
  }

  /** `get_one`: the row is read, then checked against the scope. */
  function GetOne(st: Store, id: Id, scope: Option<Scope>): Option<Row> {
    if id in st.table && Guarded(st.table[id], AsGuard(scope)) then Some(st.table[id]) else None
  }

  /** Every update names only fields of the update schema. */
  predicate Conforms(updatable: set<string>, call: Call) {
    call.UpdateCall? ==> call.changes.sent.Keys <= updatable
  }

  function Run(spec: Spec, st: Store, calls: seq<Call>): Store
    decreases |calls|
  {
    if calls == [] then st
    else Perform(spec, Run(spec, st, calls[..|calls| - 1]), calls[|calls| - 1]).after
  }

  /** An update leaves every column it does not name as it was, absent ones absent. */
  lemma UnnamedColumnIsKept(spec: Spec, row: Row, changes: Changes, column: string)
    requires column !in changes.sent
    ensures Attribute(ChangedRow(spec, row, changes).fields, column) == Attribute(row.fields, column)
  {
    if column in SentFields(spec, changes) {
      Writes.SentAmongIsSets(spec.mutableFields, changes, column);
    }
  }

  lemma CallKeepsColumn(spec: Spec, updatable: set<string>, column: string, st: Store, call: Call, id: Id)
    requires column !in updatable && Conforms(updatable, call) && id in st.table
    ensures
      var after := Perform(spec, st, call).after;
      id in after.table && Attribute(after.table[id].fields, column) == Attribute(st.table[id].fields, column)
  {
    if call.UpdateCall? && call.id == id {
      UnnamedColumnIsKept(spec, st.table[id], call.changes, column);
    }
  }

  /**
   * Over any run of API creates and updates, scoped or not, a row stays and keeps the value of
   * every column the update schema does not offer; the scope column is one.
   */
  lemma {:induction false} ScopeColumnNeverChanges(
    spec: Spec, updatable: set<string>, column: string, st: Store, calls: seq<Call>, id: Id)
    requires column !in updatable && forall call | call in calls :: Conforms(updatable, call)
    requires id in st.table
    ensures
      var after := Run(spec, st, calls);
      id in after.table && Attribute(after.table[id].fields, column) == Attribute(st.table[id].fields, column)
    decreases |calls|
  {
    if calls != [] {
      var init := calls[..|calls| - 1];
      ScopeColumnNeverChanges(spec, updatable, column, st, init, id);
      CallKeepsColumn(spec, updatable, column, Run(spec, st, init), calls[|calls| - 1], id);
    }
  }

  predicate Inside(row: Row, scope: Scope) {
    Attribute(row.fields, scope.column) == scope.value
  }

  /**
   * A scoped call changes no row outside its scope, adds only rows inside it, and what it
   * announces and answers is always inside. The scope column is one the spec stores, as it is.
   */
  lemma ScopedCallStaysInside(spec: Spec, updatable: set<string>, st: Store, call: Call, scope: Scope)
    requires call.scope == Some(scope) && Conforms(updatable, call) && scope.column !in updatable
    requires scope.column in spec.mutableFields && spec.prepare(scope.column, scope.value) == scope.value
    ensures
      var o := Perform(spec, st, call);
      && (forall id | id in st.table && !Inside(st.table[id], scope) ::
            id in o.after.table && o.after.table[id] == st.table[id])
      && (forall id | id in o.after.table && id !in st.table :: Inside(o.after.table[id], scope))
      && (o.announced.Some? ==> Attribute(o.announced.value.fields, scope.column) == scope.value)
  {
    if call.UpdateCall? && call.id in st.table {
      UnnamedColumnIsKept(spec, st.table[call.id], call.changes, scope.column);
    }
  }

  /** To a scoped caller a row outside the scope is a row that does not exist. */
  lemma OutsideIsNotFound(spec: Spec, st: Store, call: Call, scope: Scope)
    requires call.UpdateCall? && call.scope == Some(scope)
    requires call.id in st.table && !Inside(st.table[call.id], scope)
    ensures GetOne(st, call.id, Some(scope)).None?
    ensures Perform(spec, st, call) == Perform(spec, st.(table := st.table - {call.id}), call).(after := st)
  {
  }

  /** A scoped create of an id that another scope holds is refused, even with equal contents. */
  lemma ForeignIdClashes(spec: Spec, st: Store, data: Data, scope: Scope)
    requires data.id in st.table && !Inside(st.table[data.id], scope) && scope.column in spec.mutableFields
    ensures Perform(spec, st, CreateCall(data, Some(scope))) == Outcome(Clash, st, None)
  {
    var confined := Confined(data, Some(scope));
    assert Attribute(confined.fields, scope.column) == scope.value;
  }

  /** A visible row is answered, in its whole; without a scope every row is visible. */
  lemma GetOneIsExact(st: Store, id: Id, scope: Option<Scope>)
    ensures GetOne(st, id, scope).Some? <==> id in st.table && (scope.Some? ==> Inside(st.table[id], scope.value))
    ensures GetOne(st, id, scope).Some? ==> GetOne(st, id, scope).value == st.table[id]
  {
  }

  /** A scoped create stores the client's payload, but for the scope column; an unscoped one all of it. */
  lemma CreateStoresThePayload(spec: Spec, st: Store, data: Data, scope: Option<Scope>)
    requires data.id !in st.table
    ensures
      var o := Perform(spec, st, CreateCall(data, scope));
      && o.verdict == Made && data.id in o.after.table
      && forall name | name in spec.mutableFields ::
           name in o.after.table[data.id].fields && o.after.table[data.id].fields[name] ==
             spec.prepare(name, if scope.Some? && name == scope.value.column then scope.value.value
                                else Attribute(data.fields, name))
  {
  }

  /** Inside its scope an update is an unscoped update. */
  lemma InsideIsUnscoped(spec: Spec, st: Store, id: Id, changes: Changes, expected: Option<nat>, scope: Scope)
    requires id in st.table && Inside(st.table[id], scope)
    ensures Perform(spec, st, UpdateCall(id, changes, expected, Some(scope)))
         == Perform(spec, st, UpdateCall(id, changes, expected, None))
    ensures Perform(spec, st, UpdateCall(id, changes, expected, None)) == Update(spec, st, id, changes, expected, None)
  {
  }
}
