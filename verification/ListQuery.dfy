/**
 * The list query engine: which filters a request means, which rows pass, in what order they
 * come and how they are cut into pages.
 *
 * `Db` collects what the database and the value parsers decide: the order of the non-null
 * values of a column, lower-casing, the parsing of a filter value of a column that is not
 * text, and which flag values mean true. Nulls sort after every value, as PostgreSQL has them.
 */
module ListQuery {
  import opened Options
  import opened StateStore
  import LikeFilter

  type Record = map<string, Value>

  type Table = map<Id, Record>

  datatype Db = Db(
    less: (Value, Value) -> bool, fold: char -> string, coerce: (string, string) -> Option<Value>,
    truthy: string -> bool)

  datatype Sort = Sort(field: string, descending: bool)

  datatype Schema = Schema(
    filterable: set<string>, sortable: set<string>, text: set<string>, defaultSort: Sort, maxLimit: int)

  datatype Error =
    | LimitTooSmall | LimitTooLarge | NegativeOffset
    | CannotSort(field: string) | CannotFilter(field: string) | UnknownOperator(op: string, field: string)
    | NeedsText(op: string, field: string) | BadValue(value: string) | BadRange(value: string)

  datatype Result<+T> = Ok(value: T) | Bad(error: Error)

  // ---- query.py

  datatype PageRequest = PageRequest(limit: nat, offset: nat)

  function MakePageRequest(limit: int, offset: int, maxLimit: int): (r: Result<PageRequest>)
    ensures r.Ok? <==> 1 <= limit <= maxLimit && 0 <= offset
    ensures r.Ok? ==> r.value == PageRequest(limit, offset)
    ensures r == Bad(LimitTooSmall) <==> limit < 1
    ensures r == Bad(NegativeOffset) <==> 1 <= limit <= maxLimit && offset < 0
    ensures r == Bad(LimitTooLarge) <==> 1 <= limit && maxLimit < limit
  {
    if limit < 1 then Bad(LimitTooSmall)
    else if limit > maxLimit then Bad(LimitTooLarge)
    else if offset < 0 then Bad(NegativeOffset)
    else Ok(PageRequest(limit, offset))
  }

  function ParseSort(raw: Option<string>, allowed: set<string>, default: Sort): (r: Result<Sort>)
    ensures raw.None? || raw.value == "" ==> r == Ok(default)
    ensures raw.Some? && raw.value != "" ==>
      (r.Ok? <==> exists name | name in allowed :: raw.value == "-" + name || (raw.value == name && name[0] != '-'))
    ensures raw.Some? && raw.value != "" && r.Ok? ==>
      r.value.field in allowed && raw.value == (if r.value.descending then "-" else "") + r.value.field
    ensures r.Bad? ==>
      raw.Some? && exists name | name !in allowed :: r.error == CannotSort(name) && (raw.value == name || raw.value == "-" + name)
  {
    if raw.None? || raw.value == "" then Ok(default)
    else
      var descending := raw.value[0] == '-';
      var name := if descending then raw.value[1..] else raw.value;
      if name in allowed then Ok(Sort(name, descending)) else Bad(CannotSort(name))
  }

  // ---- filters.py: from parameters to clauses

  /** The filter parameters in the request's order; keys are distinct. */
  type Params = seq<(string, string)>

  datatype Clause = Clause(field: string, op: string, value: string)

  const LOOKUPS :=
    LikeFilter.PATTERN_LOOKUPS
    + {"exact", "gt", "gte", "lt", "lte", "in", "not_in", "isnull", "not_isnull", "range"}

  predicate SeparatorAt(key: string, i: nat) {
    i + 1 < |key| && key[i] == key[i + 1] == '_'
  }

  /** Where `key.partition("__")` splits. */
  function FirstSeparator(key: string): (at: Option<nat>)
    ensures at.None? ==> forall j: nat :: !SeparatorAt(key, j)
    ensures at.Some? ==> SeparatorAt(key, at.value) && forall j: nat | j < at.value :: !SeparatorAt(key, j)
  {
    if |key| < 2 then None
    else if SeparatorAt(key, 0) then Some(0)
    else
      var rest := FirstSeparator(key[1..]);
      assert forall j: nat | j > 0 :: SeparatorAt(key, j) == SeparatorAt(key[1..], j - 1);
      if rest.None? then None else Some(rest.value + 1)
  }

  function Field(key: string): string {
    var at := FirstSeparator(key);
    if at.None? then key else key[..at.value]
  }

  function Operator(key: string): string {
    var at := FirstSeparator(key);
    var op := if at.None? then "" else key[at.value + 2..];
    if op == "" then "exact" else op
  }

  function ParseParam(param: (string, string), allowed: set<string>): Result<Clause> {
    var (field, op) := (Field(param.0), Operator(param.0));
    if field !in allowed then Bad(CannotFilter(field))
    else if op !in LOOKUPS then Bad(UnknownOperator(op, field))
    else Ok(Clause(field, op, param.1))
  }

  /** Every element read in turn; the first error wins. */
  function Each<A, B>(read: A -> Result<B>, from: seq<A>): (r: Result<seq<B>>)
    ensures r.Ok? ==> |r.value| == |from|
  {
    if from == [] then Ok([])
    else
      match Each(read, from[..|from| - 1])
      case Bad(error) => Bad(error)
      case Ok(done) =>
        match read(from[|from| - 1])
        case Bad(error) => Bad(error)
        case Ok(value) => Ok(done + [value])
  }

  /** All are read, in order, or the error is that of the first that cannot be. */
  lemma {:induction false} EachReadsAll<A, B>(read: A -> Result<B>, from: seq<A>)
    ensures
      match Each(read, from)
      case Ok(values) => |values| == |from| && forall i | 0 <= i < |from| :: read(from[i]) == Ok(values[i])
      case Bad(error) =>
        exists k | 0 <= k < |from| :: read(from[k]) == Bad(error) && forall i | 0 <= i < k :: read(from[i]).Ok?
  {
    if from != [] {
      var init := from[..|from| - 1];
      EachReadsAll(read, init);
      match Each(read, init)
      case Bad(error) =>
        var k :| 0 <= k < |init| && read(init[k]) == Bad(error) && forall i | 0 <= i < k :: read(init[i]).Ok?;
        assert from[k] == init[k] && forall i | 0 <= i < k :: from[i] == init[i];
      case Ok(values) =>
        assert forall i | 0 <= i < |init| :: from[i] == init[i];
    }
  }

  function Clauses(params: Params, allowed: set<string>): Result<seq<Clause>> {
    Each(p => ParseParam(p, allowed), params)
  }

  /** An error in a prefix is the error of the whole. */
  lemma {:induction false} FirstErrorWins<A, B>(read: A -> Result<B>, from: seq<A>, n: nat)
    requires n <= |from| && Each(read, from[..n]).Bad?
    ensures Each(read, from) == Each(read, from[..n])
  {
    if n == |from| {
      assert from[..n] == from;
    } else {
      assert from[..|from| - 1][..n] == from[..n];
      FirstErrorWins(read, from[..|from| - 1], n);
    }
  }

  /** `parse_filter_params`: clause by clause, stopping at the first parameter it must refuse. */
  method ParseFilterParams(params: Params, allowed: set<string>) returns (r: Result<seq<Clause>>)
    ensures r == Clauses(params, allowed)
  {
    ghost var read := (p: (string, string)) => ParseParam(p, allowed);
    var clauses: seq<Clause> := [];
    for i := 0 to |params|
      invariant Each(read, params[..i]) == Ok(clauses)
      invariant Clauses(params, allowed) == Each(read, params)
    {
      var (key, value) := params[i];
      var field, op := Field(key), Operator(key);
      assert params[..i + 1][..i] == params[..i];
      if field !in allowed {
        FirstErrorWins(read, params, i + 1);
        return Bad(CannotFilter(field));
      }
      if op !in LOOKUPS {
        FirstErrorWins(read, params, i + 1);
        return Bad(UnknownOperator(op, field));
      }
      clauses := clauses + [Clause(field, op, value)];
    }
    assert params[..|params|] == params;
    r := Ok(clauses);
  }

  // ---- filters.py: from a clause to a WHERE condition

  function Split(value: string): (parts: seq<string>)
    ensures |parts| >= 1
  {
    if value == "" then [""]
    else
      var rest := Split(value[1..]);
      if value[0] == ',' then [""] + rest else [[value[0]] + rest[0]] + rest[1..]
  }

  datatype Condition =
    | Pattern(op: string, value: string)
    | Compare(op: string, operand: Value)
    | OneOf(values: seq<Value>)
    | NoneOf(values: seq<Value>)
    | Absent
    | Present
    | Between(low: Value, high: Value)

  datatype Where = Where(field: string, condition: Condition)

  /** `_coerce`: text passes through. */
  function Coerce(db: Db, schema: Schema, field: string, value: string): Result<Value> {
    if field in schema.text then Ok(Text(value))
    else match db.coerce(field, value)
      case None => Bad(BadValue(value))
      case Some(operand) => Ok(operand)
  }

  function Operands(db: Db, schema: Schema, field: string, values: seq<string>): Result<seq<Value>> {
    Each(v => Coerce(db, schema, field, v), values)
  }

  /** `apply_filter`, on an operator that passed the whitelist. */
  function ApplyFilter(db: Db, schema: Schema, clause: Clause): Result<Condition> {
    var Clause(field, op, value) := clause;
    if op in LikeFilter.PATTERN_LOOKUPS then
      if field in schema.text then Ok(Pattern(op, value)) else Bad(NeedsText(op, field))
    else if op in {"in", "not_in"} then
      match Operands(db, schema, field, Split(value))
      case Bad(error) => Bad(error)
      case Ok(values) => Ok(if op == "in" then OneOf(values) else NoneOf(values))
    else if op in {"isnull", "not_isnull"} then
      Ok(if db.truthy(value) == (op == "isnull") then Absent else Present)
    else if op == "range" then
      if |Split(value)| != 2 then Bad(BadRange(value))
      else
        match Operands(db, schema, field, Split(value))
        case Bad(error) => Bad(error)
        case Ok(values) => Ok(Between(values[0], values[1]))
    else
      match Coerce(db, schema, field, value)
      case Bad(error) => Bad(error)
      case Ok(operand) => Ok(Compare(op, operand))
  }

  function ToWhere(db: Db, schema: Schema, clause: Clause): Result<Where> {
    if clause.field !in schema.filterable then Bad(CannotFilter(clause.field))
    else
      match ApplyFilter(db, schema, clause)
      case Bad(error) => Bad(error)
      case Ok(condition) => Ok(Where(clause.field, condition))
  }

  predicate AtMost(db: Db, a: Value, b: Value) {
    a == b || db.less(a, b)
  }

  /** The condition is true of the cell; SQL's unknown, on a null cell, is not true. */
  predicate Holds(db: Db, condition: Condition, cell: Value) {
    if cell.Null? then condition.Absent?
    else
      match condition
      case Pattern(op, value) =>
        op in LikeFilter.PATTERN_LOOKUPS && cell.Text? && LikeFilter.TextLookup(db.fold, op, value, cell.text)
      case Compare(op, x) =>
        if op == "gt" then db.less(x, cell)
        else if op == "gte" then AtMost(db, x, cell)
        else if op == "lt" then db.less(cell, x)
        else if op == "lte" then AtMost(db, cell, x)
        else cell == x
      case OneOf(values) => cell in values
      case NoneOf(values) => cell !in values
      case Absent => false
      case Present => true
      case Between(low, high) => AtMost(db, low, cell) && AtMost(db, cell, high)
  }

  function Cell(table: Table, id: Id, column: string): Value {
    if column == "id" then Number(id) else if id in table then Attribute(table[id], column) else Null
  }

  predicate Passes(db: Db, table: Table, wheres: seq<Where>, id: Id) {
    forall w | w in wheres :: Holds(db, w.condition, Cell(table, id, w.field))
  }

  function Matching(db: Db, table: Table, wheres: seq<Where>): set<Id> {
    set id | id in table && Passes(db, table, wheres, id)
  }

  // ---- the order

  ghost predicate StrictTotal(less: (Value, Value) -> bool) {
    && (forall a :: !less(a, a))
    && (forall a, b :: a == b || less(a, b) || less(b, a))
    && (forall a, b, c :: less(a, b) && less(b, c) ==> less(a, c))
  }

  /** Ascending order of one column, nulls last; descending is the reverse, nulls first. */
  predicate CellBefore(db: Db, a: Value, b: Value) {
    !a.Null? && (b.Null? || db.less(a, b))
  }

  /** ORDER BY the sort column, then id ascending. */
  predicate Precedes(db: Db, sort: Sort, table: Table, i: Id, j: Id) {
    var a, b := Cell(table, i, sort.field), Cell(table, j, sort.field);
    if a == b then i < j
    else if sort.descending then CellBefore(db, b, a)
    else CellBefore(db, a, b)
  }

  /** Whatever the column and the direction, two different rows are always ordered, one way. */
  lemma PrecedesIsStrictTotal(db: Db, sort: Sort, table: Table, i: Id, j: Id, k: Id)
    requires StrictTotal(db.less)
    ensures !Precedes(db, sort, table, i, i)
    ensures i != j ==> Precedes(db, sort, table, i, j) != Precedes(db, sort, table, j, i)
    ensures Precedes(db, sort, table, i, j) && Precedes(db, sort, table, j, k) ==> Precedes(db, sort, table, i, k)
  {
  }

  /**
   * The order asked for: equal cells in the order of the ids; otherwise by the column's value,
   * nulls last ascending and first descending.
   */
  lemma PrecedesAsAsked(db: Db, field: string, table: Table, i: Id, j: Id)
    requires StrictTotal(db.less)
    ensures
      var a, b := Cell(table, i, field), Cell(table, j, field);
      && (a == b ==> forall descending :: Precedes(db, Sort(field, descending), table, i, j) <==> i < j)
      && (!a.Null? && !b.Null? && a != b ==>
            && (Precedes(db, Sort(field, false), table, i, j) <==> db.less(a, b))
            && (Precedes(db, Sort(field, true), table, i, j) <==> db.less(b, a)))
      && (!a.Null? && b.Null? ==>
            Precedes(db, Sort(field, false), table, i, j) && !Precedes(db, Sort(field, true), table, i, j))
      && (a.Null? && !b.Null? ==>
            !Precedes(db, Sort(field, false), table, i, j) && Precedes(db, Sort(field, true), table, i, j))
  {
  }

  /** A cell is what the row stores; a missing column is null, and the id column is the row's id. */
  lemma CellIsStored(table: Table, id: Id, column: string)
    ensures column == "id" ==> Cell(table, id, column) == Number(id)
    ensures column != "id" && id in table && column in table[id] ==> Cell(table, id, column) == table[id][column]
    ensures column != "id" && id in table && column !in table[id] ==> Cell(table, id, column) == Null
  {
  }

  predicate IsFirst(db: Db, sort: Sort, table: Table, ids: set<Id>, first: Id) {
    first in ids && forall j | j in ids :: j == first || Precedes(db, sort, table, first, j)
  }

  lemma {:induction false} FirstExists(db: Db, sort: Sort, table: Table, ids: set<Id>) returns (first: Id)
    requires StrictTotal(db.less) && ids != {}
    ensures IsFirst(db, sort, table, ids, first)
    decreases |ids|
  {
    var some :| some in ids;
    if ids == {some} {
      return some;
    }
    var rest := ids - {some};
    first := FirstExists(db, sort, table, rest);
    PrecedesIsStrictTotal(db, sort, table, some, first, first);
    if Precedes(db, sort, table, some, first) {
      forall j | j in ids && j != some
        ensures Precedes(db, sort, table, some, j)
      {
        PrecedesIsStrictTotal(db, sort, table, some, first, j);
      }
      first := some;
    }
  }

  lemma FirstIsOne(db: Db, sort: Sort, table: Table, ids: set<Id>, a: Id, b: Id)
    requires StrictTotal(db.less)
    requires IsFirst(db, sort, table, ids, a) && IsFirst(db, sort, table, ids, b)
    ensures a == b
  {
    PrecedesIsStrictTotal(db, sort, table, a, b, a);
  }

  lemma OneFirst(db: Db, sort: Sort, table: Table, ids: set<Id>)
    requires StrictTotal(db.less) && ids != {}
    ensures exists a :: IsFirst(db, sort, table, ids, a)
    ensures forall a, b | IsFirst(db, sort, table, ids, a) && IsFirst(db, sort, table, ids, b) :: a == b
  {
    var a := FirstExists(db, sort, table, ids);
    forall a, b | IsFirst(db, sort, table, ids, a) && IsFirst(db, sort, table, ids, b)
      ensures a == b
    {
      FirstIsOne(db, sort, table, ids, a, b);
    }
  }

  /** The rows in the order the database returns them. */
  function Ordered(db: Db, sort: Sort, table: Table, ids: set<Id>): seq<Id>
    requires StrictTotal(db.less)
  {
    if ids == {} then []
    else
      OneFirst(db, sort, table, ids);
      var first :| first in ids && IsFirst(db, sort, table, ids, first);
      [first] + Ordered(db, sort, table, ids - {first})
  }

  ghost predicate InOrder(db: Db, sort: Sort, table: Table, ids: seq<Id>) {
    forall i, j | 0 <= i < j < |ids| :: Precedes(db, sort, table, ids[i], ids[j])
  }

  lemma {:induction false} OrderedIsInOrder(db: Db, sort: Sort, table: Table, ids: set<Id>)
    requires StrictTotal(db.less)
    ensures
      var r := Ordered(db, sort, table, ids);
      InOrder(db, sort, table, r) && |r| == |ids| && forall id :: id in r <==> id in ids
    decreases |ids|
  {
    var r := Ordered(db, sort, table, ids);
    if ids != {} {
      OneFirst(db, sort, table, ids);
      var first := r[0];
      assert IsFirst(db, sort, table, ids, first);
      var rest := Ordered(db, sort, table, ids - {first});
      assert r == [first] + rest;
      OrderedIsInOrder(db, sort, table, ids - {first});
      forall j | 0 < j < |r|
        ensures Precedes(db, sort, table, first, r[j])
      {
        assert r[j] == rest[j - 1] && rest[j - 1] in rest;
      }
    }
  }

  /** There is only one answer: any listing of the rows in this order is the one returned. */
  lemma {:induction false} OrderedIsUnique(db: Db, sort: Sort, table: Table, ids: set<Id>, listing: seq<Id>)
    requires StrictTotal(db.less)
    requires InOrder(db, sort, table, listing) && forall id :: id in listing <==> id in ids
    ensures listing == Ordered(db, sort, table, ids)
    decreases |ids|
  {
    if listing == [] {
      assert ids == {};
    } else {
      assert listing[0] in listing;
      var first := Ordered(db, sort, table, ids)[0];
      forall j | j in ids && j != listing[0]
        ensures Precedes(db, sort, table, listing[0], j)
      {
        var k :| 0 <= k < |listing| && listing[k] == j;
      }
      FirstIsOne(db, sort, table, ids, listing[0], first);
      forall id | id in listing[1..]
        ensures id != listing[0]
      {
        var k :| 1 <= k < |listing| && listing[k] == id;
        PrecedesIsStrictTotal(db, sort, table, listing[0], id, id);
      }
      assert forall id :: id in listing[1..] <==> id in ids - {listing[0]};
      OrderedIsUnique(db, sort, table, ids - {listing[0]}, listing[1..]);
    }
  }

  // ---- repository.list and service.list_page

  datatype Query = Query(page: PageRequest, sort: Sort, filters: seq<Clause>)

  datatype PageResult = PageResult(items: seq<Id>, total: nat, limit: nat, offset: nat)

  function Min(a: int, b: int): int {
    if a < b then a else b
  }

  /** OFFSET then LIMIT. */
  function Slice(ids: seq<Id>, page: PageRequest): seq<Id> {
    var from := Min(page.offset, |ids|);
    ids[from..Min(from + page.limit, |ids|)]
  }

  function Wheres(db: Db, schema: Schema, clauses: seq<Clause>): Result<seq<Where>> {
    Each(c => ToWhere(db, schema, c), clauses)
  }

  function Answer(db: Db, schema: Schema, table: Table, query: Query): Result<PageResult>
    requires StrictTotal(db.less)
  {
    match Wheres(db, schema, query.filters)
    case Bad(error) => Bad(error)
    case Ok(wheres) =>
      if query.sort.field !in schema.sortable then Bad(CannotSort(query.sort.field))
      else
        var ids := Matching(db, table, wheres);
        Ok(PageResult(Slice(Ordered(db, query.sort, table, ids), query.page), |ids|, query.page.limit, query.page.offset))
  }

  /** The loop of `list`: one more WHERE per clause, stopping at the first it must refuse. */
  method BuildWheres(db: Db, schema: Schema, clauses: seq<Clause>) returns (r: Result<seq<Where>>)
    ensures r == Wheres(db, schema, clauses)
  {
    ghost var read := (c: Clause) => ToWhere(db, schema, c);
    var wheres: seq<Where> := [];
    for i := 0 to |clauses|
      invariant Each(read, clauses[..i]) == Ok(wheres)
      invariant Wheres(db, schema, clauses) == Each(read, clauses)
    {
      var clause := clauses[i];
      assert clauses[..i + 1][..i] == clauses[..i];
      if clause.field !in schema.filterable {
        FirstErrorWins(read, clauses, i + 1);
        return Bad(CannotFilter(clause.field));
      }
      var condition := ApplyFilter(db, schema, clause);
      if condition.Bad? {
        FirstErrorWins(read, clauses, i + 1);
        return Bad(condition.error);
      }
      wheres := wheres + [Where(clause.field, condition.value)];
    }
    assert clauses[..|clauses|] == clauses;
    r := Ok(wheres);
  }

  /** `list`: the conditions, a count, then the ordered page. */
  method List(db: Db, schema: Schema, table: Table, query: Query) returns (r: Result<PageResult>)
    requires StrictTotal(db.less)
    ensures r == Answer(db, schema, table, query)
  {
    var wheres := BuildWheres(db, schema, query.filters);
    if wheres.Bad? {
      return Bad(wheres.error);
    }
    var ids := Matching(db, table, wheres.value);
    var total := |ids|;
    if query.sort.field !in schema.sortable {
      return Bad(CannotSort(query.sort.field));
    }
    var items := Slice(Ordered(db, query.sort, table, ids), query.page);
    r := Ok(PageResult(items, total, query.page.limit, query.page.offset));
  }

  datatype Request = Request(limit: int, offset: int, sort: Option<string>, filters: Params)

  /** `list_page`. */
  function ListPage(db: Db, schema: Schema, table: Table, request: Request): Result<PageResult>
    requires StrictTotal(db.less)
  {
    match MakePageRequest(request.limit, request.offset, schema.maxLimit)
    case Bad(error) => Bad(error)
    case Ok(page) =>
      match ParseSort(request.sort, schema.sortable, schema.defaultSort)
      case Bad(error) => Bad(error)
      case Ok(sort) =>
        match Clauses(request.filters, schema.filterable)
        case Bad(error) => Bad(error)
        case Ok(clauses) => Answer(db, schema, table, Query(page, sort, clauses))
  }
}
