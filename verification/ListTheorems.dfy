/**
 * What a client may rely on when it reads a list: which rows it gets, that the pages make up
 * the whole, that the order of the filters does not matter, and that a scoped list is the list
 * of a smaller table.
 */
module ListTheorems {
  import opened Options
  import opened Sequences
  import opened StateStore
  import opened ListQuery
  import opened Scoping
  import LikeFilter

  // ---- values that carry commas

  function Join(parts: seq<string>): string
    requires parts != []
  {
    if |parts| == 1 then parts[0] else parts[0] + "," + Join(parts[1..])
  }

  lemma JoinEmptyFirst(parts: seq<string>)
    requires parts != []
    ensures Join([""] + parts) == "," + Join(parts)
  {
    assert ([""] + parts)[1..] == parts;
    assert "" + "," == ",";
  }

  lemma JoinLongerFirst(c: char, parts: seq<string>)
    requires parts != []
    ensures Join([[c] + parts[0]] + parts[1..]) == [c] + Join(parts)
  {
    assert ([[c] + parts[0]] + parts[1..])[1..] == parts[1..];
    if |parts| > 1 {
      Associate([c], parts[0], ",");
      Associate([c], parts[0] + ",", Join(parts[1..]));
    }
  }

  /** `in`, `not_in` and `range` see every value between the commas, in order, and no other. */
  lemma {:induction false} SplitIsExact(value: string)
    ensures Join(Split(value)) == value
    ensures forall part | part in Split(value) :: ',' !in part
  {
    if value != "" {
      SplitIsExact(value[1..]);
      JoinEmptyFirst(Split(value[1..]));
      JoinLongerFirst(value[0], Split(value[1..]));
      assert [value[0]] + value[1..] == value;
    }
  }

  // ---- parameter names

  lemma {:induction false} SeparatorAfterField(field: string, rest: string)
    requires FirstSeparator(field).None? && (field != "" ==> field[|field| - 1] != '_')
    ensures FirstSeparator(field + "__" + rest) == Some(|field|)
  {
    var key := field + "__" + rest;
    assert SeparatorAt(key, |field|);
    forall j: nat | j < |field|
      ensures !SeparatorAt(key, j)
    {
      assert !SeparatorAt(field, j);
    }
  }

  /** `field__op` is read as that field and that operator, `field__` and `field` as exact. */
  lemma KeyReadsAsWritten(field: string, op: string)
    requires FirstSeparator(field).None? && (field != "" ==> field[|field| - 1] != '_')
    ensures Field(field + "__" + op) == field
    ensures Operator(field + "__" + op) == if op == "" then "exact" else op
    ensures Field(field) == field && Operator(field) == "exact"
  {
    SeparatorAfterField(field, op);
    var key := field + "__" + op;
    assert key[..|field|] == field && key[|field| + 2..] == op;
  }

  // ---- the operators against each other

  /** A cell passes `field__op=value`; a value that cannot be parsed passes nothing. */
  predicate Admits(db: Db, schema: Schema, field: string, op: string, value: string, cell: Value) {
    var condition := ApplyFilter(db, schema, Clause(field, op, value));
    condition.Ok? && Holds(db, condition.value, cell)
  }

  const COMPARISONS := {"exact", "gt", "gte", "lt", "lte"}

  lemma AdmitsComparison(db: Db, schema: Schema, field: string, op: string, value: string, cell: Value)
    requires op in COMPARISONS && Coerce(db, schema, field, value).Ok?
    ensures Admits(db, schema, field, op, value, cell) <==>
            Holds(db, Compare(op, Coerce(db, schema, field, value).value), cell)
  {
  }

  /** On a cell that is not null the five comparisons are one total order. */
  lemma ComparisonsAgree(db: Db, schema: Schema, field: string, value: string, cell: Value)
    requires StrictTotal(db.less) && !cell.Null? && Coerce(db, schema, field, value).Ok?
    ensures Admits(db, schema, field, "exact", value, cell) <==> cell == Coerce(db, schema, field, value).value
    ensures Admits(db, schema, field, "gt", value, cell) <==> db.less(Coerce(db, schema, field, value).value, cell)
    ensures Admits(db, schema, field, "lt", value, cell) <==> db.less(cell, Coerce(db, schema, field, value).value)
    ensures Admits(db, schema, field, "gte", value, cell) <==> !Admits(db, schema, field, "lt", value, cell)
    ensures Admits(db, schema, field, "lte", value, cell) <==> !Admits(db, schema, field, "gt", value, cell)
    ensures Admits(db, schema, field, "exact", value, cell) <==>
            Admits(db, schema, field, "gte", value, cell) && Admits(db, schema, field, "lte", value, cell)
  {
    forall op | op in COMPARISONS
      ensures Admits(db, schema, field, op, value, cell) <==>
              Holds(db, Compare(op, Coerce(db, schema, field, value).value), cell)
    {
      AdmitsComparison(db, schema, field, op, value, cell);
    }
  }

  /** A range of two values is their `gte` and `lte` together. */
  lemma RangeIsBothBounds(db: Db, schema: Schema, field: string, low: string, high: string, cell: Value)
    requires !cell.Null? && ',' !in low && ',' !in high
    requires Coerce(db, schema, field, low).Ok? && Coerce(db, schema, field, high).Ok?
    ensures Admits(db, schema, field, "range", low + "," + high, cell) <==>
            Admits(db, schema, field, "gte", low, cell) && Admits(db, schema, field, "lte", high, cell)
  {
    var a, b := Coerce(db, schema, field, low).value, Coerce(db, schema, field, high).value;
    AdmitsComparison(db, schema, field, "gte", low, cell);
    AdmitsComparison(db, schema, field, "lte", high, cell);
    assert ApplyFilter(db, schema, Clause(field, "range", low + "," + high)) == Ok(Between(a, b)) by {
      SplitPair(low, high);
      OperandPair(db, schema, field, low, high);
    }
  }

  lemma {:induction false} SplitOne(value: string)
    requires ',' !in value
    ensures Split(value) == [value]
  {
    if value != "" {
      SplitOne(value[1..]);
      assert [value[0]] + value[1..] == value;
    }
  }

  lemma {:induction false} SplitPair(low: string, high: string)
    requires ',' !in low && ',' !in high
    ensures Split(low + "," + high) == [low, high]
  {
    var both := low + "," + high;
    if low == "" {
      assert both[1..] == high;
      SplitOne(high);
    } else {
      SplitPair(low[1..], high);
      assert both[1..] == low[1..] + "," + high;
      assert [low[0]] + low[1..] == low;
    }
  }

  lemma OperandPair(db: Db, schema: Schema, field: string, low: string, high: string)
    requires Coerce(db, schema, field, low).Ok? && Coerce(db, schema, field, high).Ok?
    ensures Operands(db, schema, field, [low, high])
         == Ok([Coerce(db, schema, field, low).value, Coerce(db, schema, field, high).value])
  {
    var parts := [low, high];
    OperandsAreCoerced(db, schema, field, parts);
    assert Operands(db, schema, field, parts).Ok?;
    var values := Operands(db, schema, field, parts).value;
    assert Coerce(db, schema, field, parts[0]) == Ok(values[0]);
    assert Coerce(db, schema, field, parts[1]) == Ok(values[1]);
    assert values == [values[0], values[1]];
  }

  lemma OperandsAreCoerced(db: Db, schema: Schema, field: string, parts: seq<string>)
    ensures
      match Operands(db, schema, field, parts)
      case Ok(values) =>
        |values| == |parts| && forall i | 0 <= i < |parts| :: Coerce(db, schema, field, parts[i]) == Ok(values[i])
      case Bad(_) => exists k :: 0 <= k < |parts| && Coerce(db, schema, field, parts[k]).Bad?
  {
    EachReadsAll(v => Coerce(db, schema, field, v), parts);
  }

  /** `in` is `exact` with one of the listed values; `not_in` is its opposite. */
  lemma ListsAgree(db: Db, schema: Schema, field: string, value: string, cell: Value)
    requires !cell.Null? && Operands(db, schema, field, Split(value)).Ok?
    ensures Admits(db, schema, field, "in", value, cell) <==>
            exists k :: 0 <= k < |Split(value)| && Admits(db, schema, field, "exact", Split(value)[k], cell)
    ensures Admits(db, schema, field, "not_in", value, cell) <==> !Admits(db, schema, field, "in", value, cell)
  {
    var parts, values := Split(value), Operands(db, schema, field, Split(value)).value;
    OperandsAreCoerced(db, schema, field, parts);
    forall k | 0 <= k < |parts|
      ensures Admits(db, schema, field, "exact", parts[k], cell) <==> cell == values[k]
    {
      AdmitsComparison(db, schema, field, "exact", parts[k], cell);
    }
    assert Admits(db, schema, field, "in", value, cell) <==> cell in values;
    assert Admits(db, schema, field, "not_in", value, cell) <==> cell !in values;
    if cell in values {
      var k :| 0 <= k < |values| && values[k] == cell;
      assert Admits(db, schema, field, "exact", parts[k], cell);
    }
  }

  /** Null is found by the two null operators and by no other. */
  lemma NullIsOnlyAbsent(db: Db, schema: Schema, field: string, op: string, value: string, cell: Value)
    requires op in LOOKUPS
    ensures Admits(db, schema, field, "isnull", value, cell) <==> cell.Null? == db.truthy(value)
    ensures Admits(db, schema, field, "not_isnull", value, cell) <==> !Admits(db, schema, field, "isnull", value, cell)
    ensures cell.Null? && Admits(db, schema, field, op, value, cell) ==> op in {"isnull", "not_isnull"}
  {
  }

  // ---- one parameter, one condition

  /** What one parameter asks of a row. */
  function Reading(db: Db, schema: Schema, param: (string, string)): Result<Where> {
    match ParseParam(param, schema.filterable)
    case Bad(error) => Bad(error)
    case Ok(clause) => ToWhere(db, schema, clause)
  }

  function Readings(db: Db, schema: Schema, params: Params): Result<seq<Where>> {
    match Clauses(params, schema.filterable)
    case Bad(error) => Bad(error)
    case Ok(clauses) => Wheres(db, schema, clauses)
  }

  lemma ClausesAreParsed(params: Params, allowed: set<string>)
    ensures
      match Clauses(params, allowed)
      case Ok(clauses) =>
        |clauses| == |params| && forall i | 0 <= i < |params| :: ParseParam(params[i], allowed) == Ok(clauses[i])
      case Bad(_) => exists k :: 0 <= k < |params| && ParseParam(params[k], allowed).Bad?
  {
    EachReadsAll(p => ParseParam(p, allowed), params);
  }

  lemma WheresAreBuilt(db: Db, schema: Schema, clauses: seq<Clause>)
    ensures
      match Wheres(db, schema, clauses)
      case Ok(wheres) =>
        |wheres| == |clauses| && forall i | 0 <= i < |clauses| :: ToWhere(db, schema, clauses[i]) == Ok(wheres[i])
      case Bad(_) => exists k :: 0 <= k < |clauses| && ToWhere(db, schema, clauses[k]).Bad?
  {
    EachReadsAll(c => ToWhere(db, schema, c), clauses);
  }

  lemma ReadingsInOrder(db: Db, schema: Schema, params: Params)
    ensures
      match Readings(db, schema, params)
      case Ok(wheres) =>
        |wheres| == |params| && forall i | 0 <= i < |params| :: Reading(db, schema, params[i]) == Ok(wheres[i])
      case Bad(_) => exists k :: 0 <= k < |params| && Reading(db, schema, params[k]).Bad?
  {
    ClausesAreParsed(params, schema.filterable);
    match Clauses(params, schema.filterable)
    case Bad(_) =>
      var k :| 0 <= k < |params| && ParseParam(params[k], schema.filterable).Bad?;
      assert Reading(db, schema, params[k]).Bad?;
    case Ok(clauses) =>
      WheresAreBuilt(db, schema, clauses);
      if Wheres(db, schema, clauses).Bad? {
        var k :| 0 <= k < |clauses| && ToWhere(db, schema, clauses[k]).Bad?;
        assert Reading(db, schema, params[k]).Bad?;
      } else {
        forall i | 0 <= i < |params|
          ensures Reading(db, schema, params[i]) == ToWhere(db, schema, clauses[i])
        {
        }
      }
  }

  lemma ReadingsAreOneByOne(db: Db, schema: Schema, params: Params)
    ensures Readings(db, schema, params).Ok? <==> forall p | p in params :: Reading(db, schema, p).Ok?
    ensures Readings(db, schema, params).Ok? ==>
      forall w :: w in Readings(db, schema, params).value <==> exists p | p in params :: Reading(db, schema, p) == Ok(w)
  {
    ReadingsInOrder(db, schema, params);
    if Readings(db, schema, params).Ok? {
      var wheres := Readings(db, schema, params).value;
      forall w | w in wheres
        ensures exists p | p in params :: Reading(db, schema, p) == Ok(w)
      {
        var i :| 0 <= i < |params| && wheres[i] == w;
        assert params[i] in params && Reading(db, schema, params[i]) == Ok(w);
      }
    }
  }

  /** The row passes what one parameter asks. */
  predicate Passed(db: Db, schema: Schema, table: Table, param: (string, string), id: Id) {
    var w := Reading(db, schema, param);
    w.Ok? && Holds(db, w.value.condition, Cell(table, id, w.value.field))
  }

  /** The operators that need a value of the column's type, and how many. */
  predicate OperandsFit(db: Db, schema: Schema, field: string, op: string, value: string) {
    if op in {"iexact", "contains", "icontains", "startswith", "istartswith", "endswith", "iendswith"} then
      field in schema.text
    else if op in {"isnull", "not_isnull"} then true
    else if op in {"exact", "gt", "gte", "lt", "lte"} then field in schema.text || db.coerce(field, value).Some?
    else
      && (op == "range" ==> |Split(value)| == 2)
      && forall part | part in Split(value) :: field in schema.text || db.coerce(field, part).Some?
  }

  /** Which single filters a request may carry. */
  lemma FilterIsAccepted(db: Db, schema: Schema, param: (string, string))
    ensures Reading(db, schema, param).Ok? <==>
            && Field(param.0) in schema.filterable
            && Operator(param.0) in {
                 "iexact", "contains", "icontains", "startswith", "istartswith", "endswith", "iendswith",
                 "exact", "gt", "gte", "lt", "lte", "in", "not_in", "isnull", "not_isnull", "range"}
            && OperandsFit(db, schema, Field(param.0), Operator(param.0), param.1)
  {
    OperandsRead(db, schema, Field(param.0), Split(param.1));
  }

  lemma OperandsRead(db: Db, schema: Schema, field: string, parts: seq<string>)
    ensures Operands(db, schema, field, parts).Ok? <==>
            forall part | part in parts :: field in schema.text || db.coerce(field, part).Some?
  {
    OperandsAreCoerced(db, schema, field, parts);
    if Operands(db, schema, field, parts).Ok? {
      forall part | part in parts
        ensures field in schema.text || db.coerce(field, part).Some?
      {
        var k :| 0 <= k < |parts| && parts[k] == part;
        assert Coerce(db, schema, field, parts[k]).Ok?;
      }
    } else {
      var k :| 0 <= k < |parts| && Coerce(db, schema, field, parts[k]).Bad?;
      assert parts[k] in parts;
    }
  }

  /** A part that the column's parser rejects, after parts that it accepts. */
  predicate FirstUnreadable(db: Db, schema: Schema, field: string, parts: seq<string>, k: nat) {
    && k < |parts| && field !in schema.text && db.coerce(field, parts[k]).None?
    && forall i | 0 <= i < k :: db.coerce(field, parts[i]).Some?
  }

  /** A refusal names the fault: the field, then the operator, then the first operand that does not fit. */
  lemma RefusalNamesTheFault(db: Db, schema: Schema, param: (string, string))
    requires Reading(db, schema, param).Bad?
    ensures
      var field, op, value, error := Field(param.0), Operator(param.0), param.1, Reading(db, schema, param).error;
      if field !in schema.filterable then error == CannotFilter(field)
      else if op !in LOOKUPS then error == UnknownOperator(op, field)
      else if op in LikeFilter.PATTERN_LOOKUPS then error == NeedsText(op, field)
      else if op == "range" && |Split(value)| != 2 then error == BadRange(value)
      else if op in COMPARISONS then error == BadValue(value)
      else exists k: nat :: FirstUnreadable(db, schema, field, Split(value), k) && error == BadValue(Split(value)[k])
  {
    var field, parts := Field(param.0), Split(param.1);
    if Operands(db, schema, field, parts).Bad? {
      var k := OperandsFault(db, schema, field, parts);
    }
  }

  lemma OperandsFault(db: Db, schema: Schema, field: string, parts: seq<string>) returns (k: nat)
    requires Operands(db, schema, field, parts).Bad?
    ensures FirstUnreadable(db, schema, field, parts, k)
    ensures Operands(db, schema, field, parts) == Bad(BadValue(parts[k]))
  {
    var read := v => Coerce(db, schema, field, v);
    assert Each(read, parts) == Operands(db, schema, field, parts);
    EachReadsAll(read, parts);
    k :| 0 <= k < |parts| && read(parts[k]) == Bad(Each(read, parts).error)
         && forall i | 0 <= i < k :: read(parts[i]).Ok?;
    forall i | 0 <= i < k
      ensures db.coerce(field, parts[i]).Some?
    {
      assert read(parts[i]).Ok?;
    }
  }

  /** Text is compared as it is, other values as the column's parser reads them. */
  lemma CoerceIsExact(db: Db, schema: Schema, field: string, value: string)
    ensures Coerce(db, schema, field, value).Ok? <==> field in schema.text || db.coerce(field, value).Some?
    ensures Coerce(db, schema, field, value).Ok? ==>
              Coerce(db, schema, field, value).value == if field in schema.text then Text(value) else db.coerce(field, value).value
  {
  }

  /** A row passes an acceptable parameter exactly when its cell passes the operator with that value. */
  lemma PassedIsAdmitted(db: Db, schema: Schema, table: Table, param: (string, string), id: Id)
    requires Reading(db, schema, param).Ok?
    ensures Passed(db, schema, table, param, id) <==>
            Admits(db, schema, Field(param.0), Operator(param.0), param.1, Cell(table, id, Field(param.0)))
  {
  }

  predicate Wanted(db: Db, schema: Schema, table: Table, params: Params, id: Id) {
    id in table && forall p | p in params :: Passed(db, schema, table, p, id)
  }

  /** A text filter on a text column passes exactly the rows its name describes. */
  lemma TextFilterMeans(db: Db, schema: Schema, table: Table, id: Id, param: (string, string))
    requires LikeFilter.KeepsMeta(db.fold)
    requires Reading(db, schema, param).Ok? && Operator(param.0) in LikeFilter.PATTERN_LOOKUPS
    ensures
      var w, cell, op := Reading(db, schema, param).value, Cell(table, id, Field(param.0)), Operator(param.0);
      && Field(param.0) in schema.text && w.field == Field(param.0)
      && (Holds(db, w.condition, cell) <==>
          cell.Text? && if LikeFilter.IgnoresCase(op)
                        then LikeFilter.Says(op, LikeFilter.Fold(db.fold, param.1), LikeFilter.Fold(db.fold, cell.text))
                        else LikeFilter.Says(op, param.1, cell.text))
  {
    var cell := Cell(table, id, Field(param.0));
    if cell.Text? {
      LikeFilter.LookupSays(db.fold, Operator(param.0), param.1, cell.text);
    }
  }

  // ---- pages

  /** Every row the request selects, in order; a request that is refused selects none. */
  ghost function Whole(db: Db, schema: Schema, table: Table, request: Request): seq<Id>
    requires StrictTotal(db.less)
  {
    var sort := ParseSort(request.sort, schema.sortable, schema.defaultSort);
    var wheres := Readings(db, schema, request.filters);
    if sort.Bad? || wheres.Bad? then [] else Ordered(db, sort.value, table, Matching(db, table, wheres.value))
  }

  /**
   * The request is answered exactly when every part of it is acceptable, and then with a slice
   * of the one ordered list of exactly the rows that pass every filter.
   */
  lemma ListPageIsSliceOfWhole(db: Db, schema: Schema, table: Table, request: Request)
    requires StrictTotal(db.less)
    ensures ListPage(db, schema, table, request).Ok? <==>
            && 1 <= request.limit <= schema.maxLimit && request.offset >= 0
            && ParseSort(request.sort, schema.sortable, schema.defaultSort).Ok?
            && ParseSort(request.sort, schema.sortable, schema.defaultSort).value.field in schema.sortable
            && forall p | p in request.filters :: Reading(db, schema, p).Ok?
    ensures ListPage(db, schema, table, request).Ok? ==>
      var page := ListPage(db, schema, table, request).value;
      var sort := ParseSort(request.sort, schema.sortable, schema.defaultSort).value;
      && Readings(db, schema, request.filters).Ok?
      && var whole := Whole(db, schema, table, request);
         && page.items == Slice(whole, PageRequest(request.limit, request.offset))
         && page.total == |whole|
         && InOrder(db, sort, table, whole)
         && forall id :: id in whole <==> Wanted(db, schema, table, request.filters, id)
  {
    ReadingsAreOneByOne(db, schema, request.filters);
    if ListPage(db, schema, table, request).Ok? {
      var sort := ParseSort(request.sort, schema.sortable, schema.defaultSort).value;
      var wheres := Readings(db, schema, request.filters).value;
      OrderedIsInOrder(db, sort, table, Matching(db, table, wheres));
      forall id
        ensures id in Matching(db, table, wheres) <==> Wanted(db, schema, table, request.filters, id)
      {
        WantedIsMatching(db, schema, table, request.filters, id);
      }
    }
  }

  lemma WantedIsMatching(db: Db, schema: Schema, table: Table, params: Params, id: Id)
    ensures Readings(db, schema, params).Ok? ==>
      (id in Matching(db, table, Readings(db, schema, params).value) <==> Wanted(db, schema, table, params, id))
  {
    ReadingsAreOneByOne(db, schema, params);
    if Readings(db, schema, params).Ok? {
      var wheres := Readings(db, schema, params).value;
      if Wanted(db, schema, table, params, id) {
        forall w | w in wheres
          ensures Holds(db, w.condition, Cell(table, id, w.field))
        {
          var p :| p in params && Reading(db, schema, p) == Ok(w);
          assert Passed(db, schema, table, p, id);
        }
      }
      if id in Matching(db, table, wheres) {
        forall p | p in params
          ensures Passed(db, schema, table, p, id)
        {
          assert Reading(db, schema, p) == Ok(Reading(db, schema, p).value);
          assert Reading(db, schema, p).value in wheres;
        }
      }
    }
  }

  /** What a client has after reading the first `n` of the pages one after the other. */
  function FirstItems(pages: seq<PageResult>, n: nat): seq<Id>
    requires n <= |pages|
  {
    if n == 0 then [] else FirstItems(pages, n - 1) + pages[n - 1].items
  }

  /** Where page `k` starts: each next page is asked for one limit further on. */
  function OffsetOf(limit: int, k: nat): (r: int)
    ensures limit >= 0 ==> r >= 0
  {
    if k == 0 then 0 else OffsetOf(limit, k - 1) + limit
  }

  lemma {:induction false} OffsetIsMultiple(limit: int, k: nat)
    ensures OffsetOf(limit, k) == k * limit
  {
    if k > 0 {
      OffsetIsMultiple(limit, k - 1);
      assert k * limit == (k - 1) * limit + limit;
    }
  }

  predicate IsPage(db: Db, schema: Schema, table: Table, request: Request, k: nat, page: PageResult)
    requires StrictTotal(db.less)
  {
    ListPage(db, schema, table, request.(offset := OffsetOf(request.limit, k))) == Ok(page)
  }

  /** `pages` are the answers to the request for page 0, page 1, and so on. */
  predicate ArePages(db: Db, schema: Schema, table: Table, request: Request, pages: seq<PageResult>)
    requires StrictTotal(db.less)
  {
    pages == [] ||
    var last := |pages| - 1;
    ArePages(db, schema, table, request, pages[..last]) && IsPage(db, schema, table, request, last, pages[last])
  }

  predicate IsSlice(whole: seq<Id>, limit: nat, offset: nat, page: PageResult) {
    page.items == Slice(whole, PageRequest(limit, offset)) && page.total == |whole|
  }

  lemma {:induction false} SlicesTile(whole: seq<Id>, limit: nat, pages: seq<PageResult>, n: nat)
    requires n <= |pages|
    requires forall k {:trigger pages[k]} | 0 <= k < |pages| :: IsSlice(whole, limit, OffsetOf(limit, k), pages[k])
    ensures FirstItems(pages, n) == whole[..Min(OffsetOf(limit, n), |whole|)]
  {
    if n > 0 {
      SlicesTile(whole, limit, pages, n - 1);
      assert IsSlice(whole, limit, OffsetOf(limit, n - 1), pages[n - 1]);
      SlicesMeet(whole, limit, OffsetOf(limit, n - 1));
    }
  }

  lemma {:induction false} EachIsPage(
    db: Db, schema: Schema, table: Table, request: Request, pages: seq<PageResult>, k: nat)
    requires StrictTotal(db.less) && k < |pages|
    ensures ArePages(db, schema, table, request, pages) ==> IsPage(db, schema, table, request, k, pages[k])
  {
    if k < |pages| - 1 {
      EachIsPage(db, schema, table, request, pages[..|pages| - 1], k);
    }
  }

  /**
   * Pages of a fixed table tile the list: nothing is skipped, nothing comes twice, and every
   * page reports the same total.
   */
  lemma PagesTileTheList(
    db: Db, schema: Schema, table: Table, request: Request, pages: seq<PageResult>, whole: seq<Id>)
    requires StrictTotal(db.less) && request.limit >= 0
    ensures ArePages(db, schema, table, request, pages) && whole == Whole(db, schema, table, request) ==>
      && FirstItems(pages, |pages|) == whole[..Min(OffsetOf(request.limit, |pages|), |whole|)]
      && forall k | 0 <= k < |pages| :: pages[k].total == |whole|
  {
    var limit := request.limit;
    if ArePages(db, schema, table, request, pages) && whole == Whole(db, schema, table, request) {
      forall k | 0 <= k < |pages|
        ensures IsSlice(whole, limit, OffsetOf(limit, k), pages[k])
      {
        EachIsPage(db, schema, table, request, pages, k);
        PageOfWhole(db, schema, table, request, k, pages[k]);
      }
      SlicesTile(whole, limit, pages, |pages|);
    }
  }

  lemma PageOfWhole(db: Db, schema: Schema, table: Table, request: Request, k: nat, page: PageResult)
    requires StrictTotal(db.less) && IsPage(db, schema, table, request, k, page)
    ensures request.limit >= 1
    ensures page.items == Slice(Whole(db, schema, table, request), PageRequest(request.limit, OffsetOf(request.limit, k)))
    ensures page.total == |Whole(db, schema, table, request)|
  {
    ListPageIsSliceOfWhole(db, schema, table, request.(offset := OffsetOf(request.limit, k)));
  }

  lemma SlicesMeet(whole: seq<Id>, limit: nat, before: nat)
    ensures whole[..Min(before, |whole|)] + Slice(whole, PageRequest(limit, before))
         == whole[..Min(before + limit, |whole|)]
  {
  }

  /** Reordering the filters changes neither the rows, nor their order, nor the total. */
  lemma FilterOrderIsIrrelevant(db: Db, schema: Schema, table: Table, request: Request, others: Params)
    requires StrictTotal(db.less)
    requires multiset(request.filters) == multiset(others)
    ensures
      var one, two := ListPage(db, schema, table, request), ListPage(db, schema, table, request.(filters := others));
      (one.Ok? <==> two.Ok?) && (one.Ok? ==> one == two)
  {
    forall p
      ensures p in request.filters <==> p in others
    {
      assert p in request.filters <==> p in multiset(request.filters);
      assert p in others <==> p in multiset(others);
    }
    ReadingsAreOneByOne(db, schema, request.filters);
    ReadingsAreOneByOne(db, schema, others);
    ListPageReadsAll(db, schema, table, request);
    ListPageReadsAll(db, schema, table, request.(filters := others));
    if Readings(db, schema, others).Ok? {
      SameRows(db, table, Readings(db, schema, request.filters).value, Readings(db, schema, others).value);
    }
  }

  lemma SameRows(db: Db, table: Table, one: seq<Where>, two: seq<Where>)
    requires forall w :: w in one <==> w in two
    ensures Matching(db, table, one) == Matching(db, table, two)
  {
    assert forall id :: Passes(db, table, one, id) == Passes(db, table, two, id);
  }

  // ---- scoped lists

  /** The parameters whose field is not one of `dropped`. */
  function Without(params: Params, dropped: set<string>): Params {
    if params == [] then []
    else
      var rest := Without(params[1..], dropped);
      if Field(params[0].0) in dropped then rest else [params[0]] + rest
  }

  lemma {:induction false} WithoutAppends(a: Params, b: Params, dropped: set<string>)
    ensures Without(a + b, dropped) == Without(a, dropped) + Without(b, dropped)
  {
    if a == [] {
      assert a + b == b;
    } else {
      WithoutAppends(a[1..], b, dropped);
      assert (a + b)[1..] == a[1..] + b;
      Associate([a[0]], Without(a[1..], dropped), Without(b, dropped));
    }
  }

  /** Exactly the parameters on other fields survive; `WithoutAppends` says that they keep their order. */
  lemma {:induction false} WithoutKeepsTheRest(params: Params, dropped: set<string>, p: (string, string))
    ensures p in Without(params, dropped) <==> p in params && Field(p.0) !in dropped
    ensures |params| == 1 && Field(params[0].0) !in dropped ==> Without(params, dropped) == params
  {
    if params != [] {
      WithoutKeepsTheRest(params[1..], dropped, p);
    }
  }

  const PAGINATION := {"limit", "offset", "sort"}

  /** The filters the list route hands on; `shown` is the scope value as text. */
  function RouteFilters(params: Params, scope: Option<Scope>, shown: string): Params {
    var filters := Without(params, PAGINATION);
    if scope.None? then filters else Without(filters, {scope.value.column}) + [(scope.value.column, shown)]
  }

  function SubTable(table: Table, scope: Scope): Table {
    map id | id in table && Cell(table, id, scope.column) == scope.value :: table[id]
  }

  /** A scope column the route can filter by: writing its value as text and reading it back gives the value. */
  predicate CanScope(db: Db, schema: Schema, scope: Scope, shown: string) {
    && scope.column in schema.filterable && FirstSeparator(scope.column).None?
    && !scope.value.Null? && Coerce(db, schema, scope.column, shown) == Ok(scope.value)
  }

  lemma EachAppends<A, B>(read: A -> Result<B>, from: seq<A>, last: A)
    ensures Each(read, from + [last]) ==
            match Each(read, from)
            case Bad(error) => Bad(error)
            case Ok(done) => match read(last) case Bad(error) => Bad(error) case Ok(value) => Ok(done + [value])
  {
    assert (from + [last])[..|from|] == from;
  }

  lemma ScopeParamReads(db: Db, schema: Schema, scope: Scope, shown: string)
    requires CanScope(db, schema, scope, shown)
    ensures ParseParam((scope.column, shown), schema.filterable) == Ok(Clause(scope.column, "exact", shown))
    ensures ToWhere(db, schema, Clause(scope.column, "exact", shown))
         == Ok(Where(scope.column, Compare("exact", scope.value)))
  {
  }

  /** The forced filter is read last and adds the scope's condition to the client's. */
  lemma ForcedFilter(db: Db, schema: Schema, scope: Scope, shown: string, rest: Params)
    requires CanScope(db, schema, scope, shown)
    ensures Readings(db, schema, rest + [(scope.column, shown)]) ==
            match Readings(db, schema, rest)
            case Bad(error) => Bad(error)
            case Ok(wheres) => Ok(wheres + [Where(scope.column, Compare("exact", scope.value))])
  {
    ScopeParamReads(db, schema, scope, shown);
    EachAppends(p => ParseParam(p, schema.filterable), rest, (scope.column, shown));
    var clauses := Clauses(rest, schema.filterable);
    if clauses.Ok? {
      EachAppends(c => ToWhere(db, schema, c), clauses.value, Clause(scope.column, "exact", shown));
    }
  }

  lemma ScopedMatching(db: Db, table: Table, scope: Scope, wheres: seq<Where>)
    requires !scope.value.Null?
    ensures Matching(db, table, wheres + [Where(scope.column, Compare("exact", scope.value))])
         == Matching(db, SubTable(table, scope), wheres)
  {
    var sub := SubTable(table, scope);
    var forced := Where(scope.column, Compare("exact", scope.value));
    forall id | id in table
      ensures Passes(db, table, wheres + [forced], id) <==>
              Passes(db, table, wheres, id) && Cell(table, id, scope.column) == scope.value
    {
      assert forall w :: w in wheres + [forced] <==> w in wheres || w == forced;
    }
    forall id | id in sub
      ensures Passes(db, sub, wheres, id) == Passes(db, table, wheres, id)
    {
      assert forall column :: Cell(sub, id, column) == Cell(table, id, column);
    }
  }

  lemma SameOrderInSubTable(db: Db, sort: Sort, table: Table, scope: Scope, ids: set<Id>)
    requires StrictTotal(db.less) && ids <= SubTable(table, scope).Keys
    ensures Ordered(db, sort, table, ids) == Ordered(db, sort, SubTable(table, scope), ids)
  {
    var sub, r := SubTable(table, scope), Ordered(db, sort, table, ids);
    OrderedIsInOrder(db, sort, table, ids);
    forall i, j | 0 <= i < j < |r|
      ensures Precedes(db, sort, sub, r[i], r[j])
    {
      assert r[i] in ids && r[j] in ids;
      assert Cell(sub, r[i], sort.field) == Cell(table, r[i], sort.field);
      assert Cell(sub, r[j], sort.field) == Cell(table, r[j], sort.field);
      assert Precedes(db, sort, table, r[i], r[j]);
    }
    OrderedIsUnique(db, sort, sub, ids, r);
  }

  /**
   * For all client parameters, errors included: the scoped list is the unscoped list over the
   * table that holds only the scope's rows, without the client's filters on the scope column.
   */
  lemma ScopedListIsListOfSubTable(
    db: Db, schema: Schema, table: Table, scope: Scope, shown: string, request: Request)
    requires StrictTotal(db.less) && CanScope(db, schema, scope, shown)
    ensures ListPage(db, schema, table, request.(filters := RouteFilters(request.filters, Some(scope), shown)))
         == ListPage(db, schema, SubTable(table, scope),
                     request.(filters := Without(RouteFilters(request.filters, None, shown), {scope.column})))
  {
    var rest := Without(RouteFilters(request.filters, None, shown), {scope.column});
    ForcedFilter(db, schema, scope, shown, rest);
    ListPageReadsAll(db, schema, table, request.(filters := rest + [(scope.column, shown)]));
    ListPageReadsAll(db, schema, SubTable(table, scope), request.(filters := rest));
    var readings := Readings(db, schema, rest);
    var sort := ParseSort(request.sort, schema.sortable, schema.defaultSort);
    if readings.Ok? && sort.Ok? {
      ScopedMatching(db, table, scope, readings.value);
      SameOrderInSubTable(db, sort.value, table, scope, Matching(db, SubTable(table, scope), readings.value));
    }
  }

  /** `ListPage` in terms of the conditions, for a request whatever its errors. */
  lemma ListPageReadsAll(db: Db, schema: Schema, table: Table, request: Request)
    requires StrictTotal(db.less)
    ensures
      var page := MakePageRequest(request.limit, request.offset, schema.maxLimit);
      var sort := ParseSort(request.sort, schema.sortable, schema.defaultSort);
      var readings := Readings(db, schema, request.filters);
      ListPage(db, schema, table, request) ==
        if page.Bad? then Bad(page.error)
        else if sort.Bad? then Bad(sort.error)
        else if readings.Bad? then Bad(readings.error)
        else if sort.value.field !in schema.sortable then Bad(CannotSort(sort.value.field))
        else var ids := Matching(db, table, readings.value);
             Ok(PageResult(Slice(Ordered(db, sort.value, table, ids), page.value), |ids|,
                           page.value.limit, page.value.offset))
  {
  }

  /** A client parameter the route keeps: no pagination, and nothing on the scope column. */
  predicate Kept(param: (string, string), scope: Option<Scope>) {
    && Field(param.0) != "limit" && Field(param.0) != "offset" && Field(param.0) != "sort"
    && (scope.Some? ==> Field(param.0) != scope.value.column)
  }

  lemma RouteFiltersAre(params: Params, scope: Option<Scope>, shown: string, p: (string, string))
    ensures p in RouteFilters(params, scope, shown) <==>
            (p in params && Kept(p, scope)) || (scope.Some? && p == (scope.value.column, shown))
  {
    WithoutKeepsTheRest(params, PAGINATION, p);
    if scope.Some? {
      WithoutKeepsTheRest(Without(params, PAGINATION), {scope.value.column}, p);
    }
  }

  lemma ScopeParamPasses(db: Db, schema: Schema, table: Table, scope: Scope, shown: string, id: Id)
    requires CanScope(db, schema, scope, shown)
    ensures Passed(db, schema, table, (scope.column, shown), id) <==> Cell(table, id, scope.column) == scope.value
  {
    ScopeParamReads(db, schema, scope, shown);
  }

  /**
   * The list route, with no word of how it builds its filters: an answered request shows a
   * slice of the ordered list of exactly the rows of the scope, or of the table without one,
   * that pass every client parameter that is not pagination and not on the scope column.
   */
  lemma RouteListsExactly(
    db: Db, schema: Schema, table: Table, scope: Option<Scope>, shown: string, request: Request, id: Id)
    requires StrictTotal(db.less) && (scope.Some? ==> CanScope(db, schema, scope.value, shown))
    ensures
      var routed := request.(filters := RouteFilters(request.filters, scope, shown));
      var answer := ListPage(db, schema, table, routed);
      answer.Ok? ==>
        && answer.value.items == Slice(Whole(db, schema, table, routed), PageRequest(request.limit, request.offset))
        && answer.value.total == |Whole(db, schema, table, routed)|
        && (id in Whole(db, schema, table, routed) <==>
              && id in table
              && (scope.Some? ==> Cell(table, id, scope.value.column) == scope.value.value)
              && forall p | p in request.filters && Kept(p, scope) :: Passed(db, schema, table, p, id))
  {
    var filters := RouteFilters(request.filters, scope, shown);
    ListPageIsSliceOfWhole(db, schema, table, request.(filters := filters));
    WantedThroughRoute(db, schema, table, scope, shown, request.filters, id);
  }

  lemma WantedThroughRoute(
    db: Db, schema: Schema, table: Table, scope: Option<Scope>, shown: string, params: Params, id: Id)
    requires scope.Some? ==> CanScope(db, schema, scope.value, shown)
    ensures Wanted(db, schema, table, RouteFilters(params, scope, shown), id) <==>
            && id in table
            && (scope.Some? ==> Cell(table, id, scope.value.column) == scope.value.value)
            && forall p | p in params && Kept(p, scope) :: Passed(db, schema, table, p, id)
  {
    forall p
      ensures p in RouteFilters(params, scope, shown) <==>
              (p in params && Kept(p, scope)) || (scope.Some? && p == (scope.value.column, shown))
    {
      RouteFiltersAre(params, scope, shown, p);
    }
    if scope.Some? {
      ScopeParamPasses(db, schema, table, scope.value, shown, id);
    }
  }

  lemma PageIdsAreInTable(db: Db, schema: Schema, table: Table, request: Request, id: Id)
    requires StrictTotal(db.less)
    ensures ListPage(db, schema, table, request).Ok? && id in ListPage(db, schema, table, request).value.items ==>
              id in table
  {
    ListPageIsSliceOfWhole(db, schema, table, request);
    if ListPage(db, schema, table, request).Ok? && id in ListPage(db, schema, table, request).value.items {
      assert id in Whole(db, schema, table, request);
    }
  }

  /** No client filter reaches a row outside the scope. */
  lemma ScopedListShowsOnlyTheScope(
    db: Db, schema: Schema, table: Table, scope: Scope, shown: string, request: Request, id: Id)
    requires StrictTotal(db.less) && CanScope(db, schema, scope, shown)
    ensures
      var page := ListPage(db, schema, table, request.(filters := RouteFilters(request.filters, Some(scope), shown)));
      page.Ok? && id in page.value.items ==> id in table && Cell(table, id, scope.column) == scope.value
  {
    var sub := SubTable(table, scope);
    ScopedListIsListOfSubTable(db, schema, table, scope, shown, request);
    var rest := request.(filters := Without(RouteFilters(request.filters, None, shown), {scope.column}));
    PageIdsAreInTable(db, schema, sub, rest, id);
  }
}
