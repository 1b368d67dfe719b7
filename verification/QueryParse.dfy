/** `Parse` of query/query.go: a request's query parameters read against a definition. */
module QueryParse {
  import opened Text
  import opened QueryDefinition
  import opened QueryFilter
  import opened QuerySort
  import Numbers
  import Ordering

  /** `url.Values`. */
  type Values = map<string, seq<string>>

  datatype Filter = Filter(field: Field, operator: Operator, value: Value)

  datatype Params = Params(page: int, perPage: int, search: string, filters: seq<Filter>, sort: seq<Sort>)

  datatype QueryError =
    | InvalidDefinition(fault: Fault)
    | NotPositive(parameter: string)
    | PerPageTooLarge(maximum: int)
    | SearchNotOnce
    | SearchUnsupported
    | BadSortParameter(cause: SortError)
    | UnsupportedParameter(key: string)
    | UnsupportedFilter(name: string)
    | UnsupportedOperator(operator: Operator, name: string)
    | InvalidFilter(name: string, reason: ValueError)

  const PAGE := "page"
  const PER_PAGE := "per_page"
  const SEARCH := "search"
  const SORT := "sort"

  /** The one value of a parameter; a parameter given several times or with no value reads as "". */
  function First(values: Values, key: string): Option<string> {
    if key !in values then None else if |values[key]| != 1 then Some("") else Some(values[key][0])
  }

  function PositiveInteger(name: string, raw: string): Result<int, QueryError> {
    var parsed := Numbers.ParseInt64(raw);
    if parsed.None? || parsed.value < 1 then Err(NotPositive(name)) else Ok(parsed.value)
  }

  function PageOf(values: Values, definition: Definition): Result<int, QueryError> {
    var raw := First(values, PAGE);
    if raw.None? then Ok(definition.defaultPage) else PositiveInteger(PAGE, raw.value)
  }

  function PerPageOf(values: Values, definition: Definition): Result<int, QueryError> {
    var raw := First(values, PER_PAGE);
    if raw.None? then Ok(definition.defaultPerPage)
    else
      var parsed := PositiveInteger(PER_PAGE, raw.value);
      if parsed.Ok? && parsed.value > definition.maxPerPage then Err(PerPageTooLarge(definition.maxPerPage)) else parsed
  }

  function SearchOf(values: Values, definition: Definition): Result<string, QueryError> {
    if SEARCH !in values then Ok("")
    else if |values[SEARCH]| != 1 then Err(SearchNotOnce)
    else if definition.searchable == [] then Err(SearchUnsupported)
    else Ok(values[SEARCH][0])
  }

  function OrderOf(values: Values, definition: Definition): Result<seq<Sort>, QueryError> {
    var raw := First(values, SORT);
    if raw.None? then Ok(DefaultOrder(definition.defaultSort, Columns(definition.sortable)))
    else
      match SortOf(raw.value, definition.sortable)
      case Err(reason) => Err(BadSortParameter(reason))
      case Ok(sorts) => Ok(sorts)
  }

  /** The filter of a name; a later declaration of a name replaces an earlier one. */
  function FieldNamed(filters: seq<Field>, name: string): Option<Field> {
    if filters == [] then None
    else if filters[|filters| - 1].name == name then Some(filters[|filters| - 1])
    else FieldNamed(filters[..|filters| - 1], name)
  }

  predicate IsReserved(key: string) {
    key == PAGE || key == PER_PAGE || key == SEARCH || key == SORT
  }

  function FilterOf(parsers: Parsers, filters: seq<Field>, key: string, rawValues: seq<string>): Result<Filter, QueryError> {
    match MatchFilter(key)
    case None => Err(UnsupportedParameter(key))
    case Some((name, suffix)) =>
      match FieldNamed(filters, name)
      case None => Err(UnsupportedFilter(name))
      case Some(field) =>
        var operator := if suffix != "" then suffix else EQ;
        if operator !in field.operators then Err(UnsupportedOperator(operator, field.name))
        else
          match FilterValue(parsers, field.valueType, operator, rawValues)
          case Err(reason) => Err(InvalidFilter(field.name, reason))
          case Ok(value) => Ok(Filter(field, operator, value))
  }

  function FiltersOf(parsers: Parsers, filters: seq<Field>, values: Values, keys: seq<string>, i: nat): Result<seq<Filter>, QueryError>
    requires i <= |keys| && forall k :: 0 <= k < |keys| ==> keys[k] in values
    decreases |keys| - i
  {
    if i == |keys| then Ok([])
    else if IsReserved(keys[i]) then FiltersOf(parsers, filters, values, keys, i + 1)
    else
      match FilterOf(parsers, filters, keys[i], values[keys[i]])
      case Err(error) => Err(error)
      case Ok(filter) => Prepended([filter], FiltersOf(parsers, filters, values, keys, i + 1))
  }

  /** The keys of the request in order. */
  predicate AreKeys(keys: seq<string>, values: Values) {
    Ordering.StrictlySorted(keys) && (forall k :: 0 <= k < |keys| ==> keys[k] in values)
    && (forall key :: key in values ==> key in keys)
  }

  /** The outcome of reading a request against a completed definition: the first of the faults, or the parameters. */
  function Parsed(parsers: Parsers, values: Values, keys: seq<string>, definition: Definition): Result<Params, QueryError>
    requires AreKeys(keys, values)
  {
    match FirstFault(definition)
    case Some(fault) => Err(InvalidDefinition(fault))
    case None =>
      match PageOf(values, definition)
      case Err(error) => Err(error)
      case Ok(page) =>
        match PerPageOf(values, definition)
        case Err(error) => Err(error)
        case Ok(perPage) =>
          match SearchOf(values, definition)
          case Err(error) => Err(error)
          case Ok(search) =>
            match OrderOf(values, definition)
            case Err(error) => Err(error)
            case Ok(sort) =>
              match FiltersOf(parsers, definition.filters, values, keys, 0)
              case Err(error) => Err(error)
              case Ok(filters) => Ok(Params(page, perPage, search, filters, sort))
  }

  // -------------------------------------------------------------------------------------------- the method

  lemma KeysAreUnique(a: seq<string>, b: seq<string>, values: Values)
    requires AreKeys(a, values) && AreKeys(b, values)
    ensures a == b
  {
    Ordering.StrictlySortedUnique(a, b);
  }

  lemma EnumeratedKeys(keys: seq<string>, values: Values)
    requires Ordering.Enumerates(keys, values.Keys)
    ensures AreKeys(keys, values)
  {
    assert forall k :: 0 <= k < |keys| ==> keys[k] in keys;
  }

  method FilterFields(filters: seq<Field>) returns (fields: map<string, Field>)
    ensures forall name :: name in fields <==> FieldNamed(filters, name).Some?
    ensures forall name :: name in fields ==> FieldNamed(filters, name) == Some(fields[name])
  {
    fields := map[];
    for i := 0 to |filters|
      invariant forall name :: name in fields <==> FieldNamed(filters[..i], name).Some?
      invariant forall name :: name in fields ==> FieldNamed(filters[..i], name) == Some(fields[name])
    {
      fields := fields[filters[i].name := filters[i]];
      assert filters[..i + 1][..i] == filters[..i] && filters[..i + 1][i] == filters[i];
    }
    assert filters[..|filters|] == filters;
  }

  lemma FiltersStep(parsers: Parsers, filters: seq<Field>, values: Values, keys: seq<string>, i: nat, done: seq<Filter>)
    requires i < |keys| && (forall k :: 0 <= k < |keys| ==> keys[k] in values) && !IsReserved(keys[i])
    ensures var filter := FilterOf(parsers, filters, keys[i], values[keys[i]]);
            Prepended(done, FiltersOf(parsers, filters, values, keys, i))
            == if filter.Err? then Err(filter.error)
               else Prepended(done + [filter.value], FiltersOf(parsers, filters, values, keys, i + 1))
  {
    hide FilterOf, IsReserved;
    var filter := FilterOf(parsers, filters, keys[i], values[keys[i]]);
    var rest := FiltersOf(parsers, filters, values, keys, i + 1);
    assert filter.Ok? && rest.Ok? ==> done + ([filter.value] + rest.value) == (done + [filter.value]) + rest.value;
  }

  method ParseFilter(parsers: Parsers, fields: map<string, Field>, ghost filters: seq<Field>, key: string, rawValues: seq<string>)
    returns (outcome: Result<Filter, QueryError>)
    requires forall name :: name in fields <==> FieldNamed(filters, name).Some?
    requires forall name :: name in fields ==> FieldNamed(filters, name) == Some(fields[name])
    ensures outcome == FilterOf(parsers, filters, key, rawValues)
  {
    hide MatchFilter, FilterValue, FieldNamed;
    var matches := MatchFilter(key);
    if matches.None? {
      return Err(UnsupportedParameter(key));
    }
    var (name, suffix) := matches.value;
    if name !in fields {
      return Err(UnsupportedFilter(name));
    }
    var field := fields[name];
    var operator := EQ;
    if suffix != "" {
      operator := suffix;
    }
    if operator !in field.operators {
      return Err(UnsupportedOperator(operator, field.name));
    }
    var parsed := ParseFilterValue(parsers, field.valueType, operator, rawValues);
    if parsed.Err? {
      return Err(InvalidFilter(field.name, parsed.error));
    }
    outcome := Ok(Filter(field, operator, parsed.value));
  }

  method ParseFilters(parsers: Parsers, filters: seq<Field>, values: Values, keys: seq<string>)
    returns (outcome: Result<seq<Filter>, QueryError>)
    requires forall k :: 0 <= k < |keys| ==> keys[k] in values
    ensures outcome == FiltersOf(parsers, filters, values, keys, 0)
  {
    hide FilterOf, FieldNamed, IsReserved;
    var fields := FilterFields(filters);
    var done: seq<Filter> := [];
    PrependedNothing(FiltersOf(parsers, filters, values, keys, 0));
    for i := 0 to |keys|
      invariant FiltersOf(parsers, filters, values, keys, 0) == Prepended(done, FiltersOf(parsers, filters, values, keys, i))
    {
      if IsReserved(keys[i]) {
        continue;
      }
      var filter := ParseFilter(parsers, fields, filters, keys[i], values[keys[i]]);
      FiltersStep(parsers, filters, values, keys, i, done);
      if filter.Err? {
        return Err(filter.error);
      }
      done := done + [filter.value];
    }
    assert done + [] == done;
    outcome := Ok(done);
  }

  /** `Parse`: the outcome does not depend on the order in which the map of parameters lists its keys. */
  method Parse(parsers: Parsers, values: Values, shared: Shared) returns (outcome: Result<Params, QueryError>)
    modifies shared.filters
    ensures shared.filters[..] == FieldsWithDefaults(old(shared.filters[..]))
    ensures forall keys :: AreKeys(keys, values) ==>
              outcome == Parsed(parsers, values, keys, Defaulted(old(shared.Value())))
  {
    hide FirstFault, PageOf, PerPageOf, SearchOf, OrderOf, FiltersOf, AreKeys, Defaulted, FieldsWithDefaults;
    ghost var declared := shared.Value();
    ghost var definition := Defaulted(declared);
    DefaultsAreStable(declared);
    var complete := WithDefaults(shared);
    var fault := Validate(complete);
    TwiceIsOnce(declared);
    if fault.Some? {
      return Err(InvalidDefinition(fault.value));
    }
    var rest := complete.rest.(filters := complete.filters[..]);
    assert rest == definition;
    outcome := ParseCompleted(parsers, values, rest);
  }

  lemma TwiceIsOnce(definition: Definition)
    ensures Defaulted(definition).filters == FieldsWithDefaults(definition.filters)
    ensures FieldsWithDefaults(FieldsWithDefaults(definition.filters)) == FieldsWithDefaults(definition.filters)
  {
  }

  method ParseCompleted(parsers: Parsers, values: Values, definition: Definition) returns (outcome: Result<Params, QueryError>)
    requires FirstFault(definition) == None
    ensures forall keys :: AreKeys(keys, values) ==> outcome == Parsed(parsers, values, keys, definition)
  {
    hide FirstFault, FiltersOf, AreKeys, PositiveInteger, SortOf, Columns, DefaultOrder;
    var page := definition.defaultPage;
    var raw := First(values, PAGE);
    if raw.Some? {
      var parsed := PositiveInteger(PAGE, raw.value);
      if parsed.Err? {
        return Err(parsed.error);
      }
      page := parsed.value;
    }
    var perPage := definition.defaultPerPage;
    raw := First(values, PER_PAGE);
    if raw.Some? {
      var parsed := PositiveInteger(PER_PAGE, raw.value);
      if parsed.Err? {
        return Err(parsed.error);
      }
      perPage := parsed.value;
      if perPage > definition.maxPerPage {
        return Err(PerPageTooLarge(definition.maxPerPage));
      }
    }
    outcome := ParseRest(parsers, values, definition, page, perPage);
  }

  method ParseRest(parsers: Parsers, values: Values, definition: Definition, page: int, perPage: int)
    returns (outcome: Result<Params, QueryError>)
    requires FirstFault(definition) == None && PageOf(values, definition) == Ok(page) && PerPageOf(values, definition) == Ok(perPage)
    ensures forall keys :: AreKeys(keys, values) ==> outcome == Parsed(parsers, values, keys, definition)
  {
    hide FirstFault, FiltersOf, AreKeys, PageOf, PerPageOf, SortOf, Columns, DefaultOrder;
    var search := "";
    if SEARCH in values {
      if |values[SEARCH]| != 1 {
        return Err(SearchNotOnce);
      }
      if |definition.searchable| == 0 {
        return Err(SearchUnsupported);
      }
      search := values[SEARCH][0];
    }
    var sorts;
    var raw := First(values, SORT);
    if raw.Some? {
      var parsed := ParseSort(raw.value, definition.sortable);
      if parsed.Err? {
        return Err(BadSortParameter(parsed.error));
      }
      sorts := parsed.value;
    } else {
      sorts := ResolveDefaultSort(definition.defaultSort, definition.sortable);
    }
    assert OrderOf(values, definition) == Ok(sorts) && SearchOf(values, definition) == Ok(search);
    outcome := ParseKeys(parsers, values, definition, Params(page, perPage, search, [], sorts));
  }

  method ParseKeys(parsers: Parsers, values: Values, definition: Definition, params: Params)
    returns (outcome: Result<Params, QueryError>)
    requires FirstFault(definition) == None && PageOf(values, definition) == Ok(params.page)
    requires PerPageOf(values, definition) == Ok(params.perPage) && SearchOf(values, definition) == Ok(params.search)
    requires OrderOf(values, definition) == Ok(params.sort)
    ensures forall keys :: AreKeys(keys, values) ==> outcome == Parsed(parsers, values, keys, definition)
  {
    hide FirstFault, FiltersOf, PageOf, PerPageOf, SearchOf, OrderOf;
    var keys := Ordering.SortedKeys(values.Keys);
    EnumeratedKeys(keys, values);
    forall other | AreKeys(other, values) ensures other == keys {
      KeysAreUnique(other, keys, values);
    }
    var filters := ParseFilters(parsers, definition.filters, values, keys);
    if filters.Err? {
      return Err(filters.error);
    }
    outcome := Ok(params.(filters := filters.value));
  }
}
