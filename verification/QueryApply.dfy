/** `Apply` of query/query.go: the conditions and the order that an accepted request adds to a SQL query, and what
    they select. */
module QueryApply {
  import opened Text
  import opened QueryDefinition
  import opened QueryFilter
  import opened QueryParse
  import QueryLaws
  import Like

  datatype Condition =
    | Compare(column: string, symbol: string, value: Value)
    | Among(column: string, values: seq<Value>)
    | ILike(columns: seq<string>, pattern: string) // joined by OR

  datatype Order = Order(column: string, direction: string)

  /** What the type assertions in `Apply` demand of a filter. */
  predicate Appliable(filter: Filter) {
    (filter.operator == CONTAINS ==> filter.value.Str?) && (filter.operator == IN ==> filter.value.List?)
  }

  predicate AllAppliable(filters: seq<Filter>) {
    forall i :: 0 <= i < |filters| ==> Appliable(filters[i])
  }

  function Containing(text: string): string {
    "%" + Like.EscapeLike(text) + "%"
  }

  function FilterConditions(filter: Filter): seq<Condition>
    requires Appliable(filter)
  {
    var column := filter.field.column;
    if filter.operator == EQ then [Compare(column, "=", filter.value)]
    else if filter.operator == NEQ then [Compare(column, "<>", filter.value)]
    else if filter.operator == GT then [Compare(column, ">", filter.value)]
    else if filter.operator == GTE then [Compare(column, ">=", filter.value)]
    else if filter.operator == LT then [Compare(column, "<", filter.value)]
    else if filter.operator == LTE then [Compare(column, "<=", filter.value)]
    else if filter.operator == IN then [Among(column, filter.value.items)]
    else if filter.operator == CONTAINS then [ILike([column], Containing(filter.value.text))]
    else []
  }

  function Conditions(filters: seq<Filter>, n: nat): seq<Condition>
    requires n <= |filters| && AllAppliable(filters)
  {
    if n == 0 then [] else Conditions(filters, n - 1) + FilterConditions(filters[n - 1])
  }

  function SearchConditions(search: string, searchable: seq<string>): seq<Condition> {
    if search != "" && searchable != [] then [ILike(searchable, Containing(search))] else []
  }

  function Orders(sorts: seq<Sort>): seq<Order> {
    seq(|sorts|, i requires 0 <= i < |sorts| => Order(sorts[i].column, if sorts[i].descending then "DESC" else "ASC"))
  }

  method Apply(params: Params, searchable: seq<string>) returns (conditions: seq<Condition>, orders: seq<Order>)
    requires AllAppliable(params.filters)
    ensures conditions == Conditions(params.filters, |params.filters|) + SearchConditions(params.search, searchable)
    ensures orders == Orders(params.sort)
  {
    hide FilterConditions, Containing, Orders;
    conditions := [];
    for i := 0 to |params.filters|
      invariant conditions == Conditions(params.filters, i)
    {
      conditions := conditions + FilterConditions(params.filters[i]);
    }
    if params.search != "" && |searchable| > 0 {
      conditions := conditions + [ILike(searchable, Containing(params.search))];
    }
    orders := OrderBy(params.sort);
  }

  method OrderBy(sorts: seq<Sort>) returns (orders: seq<Order>)
    ensures orders == Orders(sorts)
  {
    orders := [];
    for i := 0 to |sorts|
      invariant |orders| == i && forall j :: 0 <= j < i ==> orders[j] == Orders(sorts)[j]
    {
      var direction := "ASC";
      if sorts[i].descending {
        direction := "DESC";
      }
      orders := orders + [Order(sorts[i].column, direction)];
    }
  }

  // --------------------------------------------------------------------------------------------- meaning

  /** A row with no NULL in the columns a request names: its values, and the texts of its text columns. */
  datatype Row = Row(value: string -> Value, text: string -> string)

  /** How the database compares values and folds letters. */
  datatype Database = Database(compare: (Value, Value) -> int, fold: char -> char)

  predicate Compares(db: Database, symbol: string, a: Value, b: Value) {
    var sign := db.compare(a, b);
    if symbol == "=" then sign == 0
    else if symbol == "<>" then sign != 0
    else if symbol == ">" then sign > 0
    else if symbol == ">=" then sign >= 0
    else if symbol == "<" then sign < 0
    else symbol == "<=" && sign <= 0
  }

  predicate Selects(db: Database, row: Row, condition: Condition) {
    match condition
    case Compare(column, symbol, value) => Compares(db, symbol, row.value(column), value)
    case Among(column, values) => exists i :: 0 <= i < |values| && db.compare(row.value(column), values[i]) == 0
    case ILike(columns, pattern) =>
      exists i :: 0 <= i < |columns| && Like.Matches(db.fold, pattern, row.text(columns[i]))
  }

  predicate SelectsAll(db: Database, row: Row, conditions: seq<Condition>) {
    forall i :: 0 <= i < |conditions| ==> Selects(db, row, conditions[i])
  }

  /** `text` occurs literally in the column, up to letter case. */
  ghost predicate Has(db: Database, row: Row, column: string, text: string) {
    exists i: nat :: Like.OccursAt(db.fold, text, row.text(column), i)
  }

  /** What a filter asks of a row. */
  ghost predicate Meets(db: Database, row: Row, filter: Filter)
    requires Appliable(filter)
  {
    var sign := (value: Value) => db.compare(row.value(filter.field.column), value);
    && (filter.operator == "eq" ==> sign(filter.value) == 0)
    && (filter.operator == "neq" ==> sign(filter.value) != 0)
    && (filter.operator == "gt" ==> sign(filter.value) > 0)
    && (filter.operator == "gte" ==> sign(filter.value) >= 0)
    && (filter.operator == "lt" ==> sign(filter.value) < 0)
    && (filter.operator == "lte" ==> sign(filter.value) <= 0)
    && (filter.operator == "in" ==> exists i :: 0 <= i < |filter.value.items| && sign(filter.value.items[i]) == 0)
    && (filter.operator == "contains" ==> Has(db, row, filter.field.column, filter.value.text))
  }

  ghost predicate MeetsSearch(db: Database, row: Row, search: string, searchable: seq<string>) {
    search == "" || searchable == [] || exists i :: 0 <= i < |searchable| && Has(db, row, searchable[i], search)
  }

  lemma ContainingFinds(db: Database, row: Row, column: string, text: string)
    ensures Like.Matches(db.fold, Containing(text), row.text(column)) <==> Has(db, row, column, text)
  {
    hide Like.Matches, Like.EscapeLike, Like.OccursAt;
    Like.EscapedPatternIsContainment(db.fold, text, row.text(column));
  }

  lemma ILikeFinds(db: Database, row: Row, columns: seq<string>, text: string)
    ensures Selects(db, row, ILike(columns, Containing(text))) <==> exists i :: 0 <= i < |columns| && Has(db, row, columns[i], text)
  {
    hide Like.Matches, Containing, Has;
    forall i | 0 <= i < |columns|
      ensures Like.Matches(db.fold, Containing(text), row.text(columns[i])) <==> Has(db, row, columns[i], text)
    {
      ContainingFinds(db, row, columns[i], text);
    }
  }

  lemma FilterMeans(db: Database, row: Row, filter: Filter)
    requires Appliable(filter)
    ensures SelectsAll(db, row, FilterConditions(filter)) <==> Meets(db, row, filter)
  {
    hide Has, Containing, Like.Matches;
    var conditions := FilterConditions(filter);
    if conditions != [] {
      assert SelectsAll(db, row, conditions) <==> Selects(db, row, conditions[0]);
    }
    if filter.operator == CONTAINS {
      var column := filter.field.column;
      ILikeFinds(db, row, [column], filter.value.text);
      assert [column][0] == column;
    }
  }

  lemma SelectsBoth(db: Database, row: Row, a: seq<Condition>, b: seq<Condition>)
    ensures SelectsAll(db, row, a + b) <==> SelectsAll(db, row, a) && SelectsAll(db, row, b)
  {
    hide Selects;
    if SelectsAll(db, row, a + b) {
      forall i | 0 <= i < |a| ensures Selects(db, row, a[i]) {
        assert (a + b)[i] == a[i];
      }
      forall i | 0 <= i < |b| ensures Selects(db, row, b[i]) {
        assert (a + b)[|a| + i] == b[i];
      }
    }
  }

  lemma {:induction false} FiltersMean(db: Database, row: Row, filters: seq<Filter>, n: nat)
    requires n <= |filters| && AllAppliable(filters)
    ensures SelectsAll(db, row, Conditions(filters, n)) <==> forall i :: 0 <= i < n ==> Meets(db, row, filters[i])
  {
    hide Meets, SelectsAll, Appliable, FilterConditions;
    if n > 0 {
      FiltersMean(db, row, filters, n - 1);
      FilterMeans(db, row, filters[n - 1]);
      SelectsBoth(db, row, Conditions(filters, n - 1), FilterConditions(filters[n - 1]));
    } else {
      NoConditions(db, row);
    }
  }

  lemma NoConditions(db: Database, row: Row)
    ensures SelectsAll(db, row, [])
  {
  }

  lemma SearchMeans(db: Database, row: Row, search: string, searchable: seq<string>)
    ensures SelectsAll(db, row, SearchConditions(search, searchable)) <==> MeetsSearch(db, row, search, searchable)
  {
    hide Has, Containing, Selects;
    if search != "" && searchable != [] {
      ILikeFinds(db, row, searchable, search);
      assert SearchConditions(search, searchable)[0] == ILike(searchable, Containing(search));
    }
  }

  /** An accepted request never fails a type assertion, and the rows it selects are those that meet every filter and
      hold the searched text in some searchable column. */
  lemma AcceptedRequestSelects(parsers: Parsers, values: Values, keys: seq<string>, definition: Definition, db: Database, row: Row)
    requires AreKeys(keys, values) && Parsed(parsers, values, keys, definition).Ok?
    ensures var params := Parsed(parsers, values, keys, definition).value;
            AllAppliable(params.filters)
            && (SelectsAll(db, row, Conditions(params.filters, |params.filters|) + SearchConditions(params.search, definition.searchable))
                <==> (forall i :: 0 <= i < |params.filters| ==> Meets(db, row, params.filters[i]))
                     && MeetsSearch(db, row, params.search, definition.searchable))
  {
    hide Parsed, Meets, MeetsSearch, SelectsAll, Conditions, SearchConditions, FilterOf, QueryLaws.FilterKeys, ValidDefinition;
    var params := Parsed(parsers, values, keys, definition).value;
    QueryLaws.AcceptedRequestFits(parsers, values, keys, definition);
    forall i | 0 <= i < |params.filters| ensures Appliable(params.filters[i]) {
      assert QueryLaws.FilterFits(params.filters[i], definition.filters);
    }
    FiltersMean(db, row, params.filters, |params.filters|);
    SearchMeans(db, row, params.search, definition.searchable);
    SelectsBoth(db, row, Conditions(params.filters, |params.filters|), SearchConditions(params.search, definition.searchable));
  }
}
