/**
 * What the API's two writes promise, field by field and without the functions that compute
 * them: who is refused and how, and exactly what a write that is not refused leaves behind.
 */
module Writes {
  import opened Options
  import opened StateStore

  /** The request sets this field: it is mutable, and was sent with a value. */
  predicate Sets(spec: Spec, changes: Changes, name: string) {
    name in spec.mutableFields && name in changes.sent && changes.sent[name].Some?
  }

  predicate SetsSome(spec: Spec, changes: Changes) {
    exists name | name in spec.mutableFields :: Sets(spec, changes, name)
  }

  /** The row the caller may see exists. */
  predicate Visible(st: Store, id: Id, guard: Option<(string, Value)>) {
    id in st.table && (guard.Some? ==> Attribute(st.table[id].fields, guard.value.0) == guard.value.1)
  }

  predicate VersionFits(row: Row, expected: Option<nat>) {
    expected.None? || row.version == expected.value
  }

  /** The set fields hold their prepared values, every other column is as it was. */
  ghost predicate FieldsRewritten(spec: Spec, before: map<string, Value>, changes: Changes, after: map<string, Value>) {
    forall name ::
      if Sets(spec, changes, name) then name in after && after[name] == spec.prepare(name, changes.sent[name].value)
      else (name in after <==> name in before) && (name in before ==> after[name] == before[name])
  }

  /** Exactly one row differs, by one version and the set fields. */
  ghost predicate RowRewritten(spec: Spec, before: map<Id, Row>, id: Id, changes: Changes, after: map<Id, Row>) {
    && id in before && after.Keys == before.Keys
    && (forall other | other in before && other != id :: after[other] == before[other])
    && after[id].version == before[id].version + 1
    && FieldsRewritten(spec, before[id].fields, changes, after[id].fields)
  }

  lemma {:induction false} SentAmongIsSets(names: seq<string>, changes: Changes, name: string)
    ensures name in SentAmong(names, changes) <==> name in names && name in changes.sent && changes.sent[name].Some?
  {
    if names != [] {
      SentAmongIsSets(names[1..], changes, name);
    }
  }

  lemma SentFieldsAreSets(spec: Spec, changes: Changes)
    ensures forall name :: name in SentFields(spec, changes) <==> Sets(spec, changes, name)
    ensures SentFields(spec, changes) != [] <==> SetsSome(spec, changes)
  {
    forall name
      ensures name in SentFields(spec, changes) <==> Sets(spec, changes, name)
    {
      SentAmongIsSets(spec.mutableFields, changes, name);
    }
    if SentFields(spec, changes) != [] {
      assert SentFields(spec, changes)[0] in SentFields(spec, changes);
    }
  }

  lemma ChangedRowRewrites(spec: Spec, row: Row, changes: Changes)
    ensures ChangedRow(spec, row, changes).version == row.version + 1
    ensures FieldsRewritten(spec, row.fields, changes, ChangedRow(spec, row, changes).fields)
  {
    SentFieldsAreSets(spec, changes);
  }

  /**
   * An update is refused for nothing set, then for a row that is missing or outside the guard,
   * then for another version than expected, and a refusal changes and announces nothing.
   * Otherwise exactly the set fields of that row change, its version is one higher, and that
   * very row is announced.
   */
  lemma UpdateIsExact(
    spec: Spec, st: Store, id: Id, changes: Changes, expected: Option<nat>, guard: Option<(string, Value)>)
    ensures
      var o := Update(spec, st, id, changes, expected, guard);
      && (o.verdict == NothingSent <==> !SetsSome(spec, changes))
      && (o.verdict == NotFound <==> SetsSome(spec, changes) && !Visible(st, id, guard))
      && (o.verdict == VersionClash <==>
            SetsSome(spec, changes) && Visible(st, id, guard) && !VersionFits(st.table[id], expected))
      && (o.verdict == Changed <==>
            SetsSome(spec, changes) && Visible(st, id, guard) && VersionFits(st.table[id], expected))
      && (o.verdict != Changed ==> o.after == st && o.announced.None?)
      && (o.verdict == Changed ==>
            && o.after.inbox == st.inbox && RowRewritten(spec, st.table, id, changes, o.after.table)
            && o.announced == Some(Data(id, o.after.table[id].version, o.after.table[id].fields)))
  {
    SentFieldsAreSets(spec, changes);
    if id in st.table {
      ChangedRowRewrites(spec, st.table[id], changes);
    }
  }

  /** Of two updates that expect the same version of a row, at most one changes it. */
  lemma NoLostUpdate(
    spec: Spec, st: Store, id: Id, one: Changes, two: Changes, expected: nat, guard: Option<(string, Value)>)
    requires Update(spec, st, id, one, Some(expected), guard).verdict == Changed
    ensures
      var first := Update(spec, st, id, one, Some(expected), guard).after;
      var second := Update(spec, first, id, two, Some(expected), guard);
      second.verdict != Changed && second.after == first
  {
    UpdateIsExact(spec, st, id, one, Some(expected), guard);
    UpdateIsExact(spec, Update(spec, st, id, one, Some(expected), guard).after, id, two, Some(expected), guard);
  }

  /** The stored content is the payload's, in every mutable field. */
  predicate SamePayload(spec: Spec, row: Row, data: Data) {
    forall name | name in spec.mutableFields :: Attribute(row.fields, name) == Attribute(data.fields, name)
  }

  /**
   * A create of a free id adds one row at version 1 that has exactly the mutable fields, each
   * prepared from the payload. A taken id changes nothing: with the same content the stored row
   * is announced again, with another the create is refused.
   */
  lemma CreateIsExact(spec: Spec, st: Store, data: Data)
    ensures
      var o := Create(spec, st, data);
      && (o.verdict == Made <==> data.id !in st.table)
      && (o.verdict == Replayed <==> data.id in st.table && SamePayload(spec, st.table[data.id], data))
      && (o.verdict == Clash <==> data.id in st.table && !SamePayload(spec, st.table[data.id], data))
      && o.after.inbox == st.inbox
      && (o.verdict != Made ==> o.after == st)
      && (o.verdict == Made ==>
            && data.id in o.after.table && o.after.table.Keys == st.table.Keys + {data.id}
            && (forall other | other in st.table :: o.after.table[other] == st.table[other])
            && o.after.table[data.id].version == 1
            && (forall name :: name in o.after.table[data.id].fields <==> name in spec.mutableFields)
            && forall name | name in spec.mutableFields ::
                 o.after.table[data.id].fields[name] == spec.prepare(name, Attribute(data.fields, name)))
      && (o.announced.None? <==> o.verdict == Clash)
      && (o.announced.Some? ==>
            data.id in o.after.table
            && o.announced.value == Data(data.id, o.after.table[data.id].version, o.after.table[data.id].fields))
  {
  }
}
