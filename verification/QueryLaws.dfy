/** What `Apply` may rely on after `Parse` accepted a request. */
module QueryLaws {
  import opened Text
  import opened QueryDefinition
  import opened QueryFilter
  import opened QuerySort
  import opened QueryParse

  /** A filter taken from the definition: its field, one of its operators, a value of its type. */
  predicate FilterFits(filter: Filter, filters: seq<Field>) {
    && filter.field in filters && filter.operator in filter.field.operators
    && TypedFor(filter.field.valueType, filter.operator, filter.value)
    && (filter.operator == CONTAINS ==> filter.value.Str?)
  }

  predicate OrderFits(sorts: seq<Sort>, sortable: seq<SortField>) {
    forall i :: 0 <= i < |sorts| ==> SortField(sorts[i].field, sorts[i].column) in sortable
  }

  predicate ParamsFit(params: Params, definition: Definition) {
    && 1 <= params.page && 1 <= params.perPage <= definition.maxPerPage
    && (params.search != "" ==> definition.searchable != [])
    && OrderFits(params.sort, definition.sortable)
    && forall i :: 0 <= i < |params.filters| ==> FilterFits(params.filters[i], definition.filters)
  }

  /** The keys that name filters. */
  function FilterKeys(keys: seq<string>): seq<string> {
    if keys == [] then [] else (if IsReserved(keys[0]) then [] else [keys[0]]) + FilterKeys(keys[1..])
  }

  lemma {:induction false} FieldNamedIs(filters: seq<Field>, name: string)
    ensures FieldNamed(filters, name).Some? ==>
              FieldNamed(filters, name).value in filters && FieldNamed(filters, name).value.name == name
    decreases |filters|
  {
    if filters != [] && filters[|filters| - 1].name != name {
      FieldNamedIs(filters[..|filters| - 1], name);
    }
  }

  lemma {:induction false} FieldNamedFinds(filters: seq<Field>, i: nat)
    requires i < |filters| && forall j, k :: 0 <= j < k < |filters| ==> filters[j].name != filters[k].name
    ensures FieldNamed(filters, filters[i].name) == Some(filters[i])
    decreases |filters|
  {
    if i < |filters| - 1 {
      FieldNamedFinds(filters[..|filters| - 1], i);
    }
  }

  lemma ContainsIsText(field: Field, value: Value)
    requires ValidField(field) && CONTAINS in field.operators && TypedFor(field.valueType, CONTAINS, value)
    ensures value.Str?
  {
    hide IsApiName, IsColumn;
    var k :| 0 <= k < |field.operators| && field.operators[k] == CONTAINS;
    assert OperatorAllowed(field.valueType, field.operators[k]);
  }

  lemma FilterFitsDefinition(parsers: Parsers, filters: seq<Field>, key: string, rawValues: seq<string>)
    requires ValidFilters(filters)
    ensures var parsed := FilterOf(parsers, filters, key, rawValues);
            parsed.Ok? ==> FilterFits(parsed.value, filters)
  {
    hide MatchFilter, FilterValue, FieldNamed, TypedFor, ValidField;
    if MatchFilter(key).Some? {
      var (name, suffix) := MatchFilter(key).value;
      FieldNamedIs(filters, name);
      if FieldNamed(filters, name).Some? {
        var field := FieldNamed(filters, name).value;
        var operator := if suffix != "" then suffix else EQ;
        var parsed := FilterValue(parsers, field.valueType, operator, rawValues);
        ValueIsTyped(parsers, field.valueType, operator, rawValues);
        if parsed.Ok? && operator in field.operators && operator == CONTAINS {
          ContainsIsText(field, parsed.value);
        }
      }
    }
  }

  /** Every filter key contributes its filter, in the order of the keys. */
  lemma {:induction false} FiltersFollowKeys(parsers: Parsers, filters: seq<Field>, values: Values, keys: seq<string>, i: nat)
    requires i <= |keys| && forall k :: 0 <= k < |keys| ==> keys[k] in values
    ensures var parsed := FiltersOf(parsers, filters, values, keys, i);
            parsed.Ok? ==>
              |parsed.value| == |FilterKeys(keys[i..])|
              && forall k :: 0 <= k < |parsed.value| ==>
                   FilterKeys(keys[i..])[k] in values
                   && FilterOf(parsers, filters, FilterKeys(keys[i..])[k], values[FilterKeys(keys[i..])[k]]) == Ok(parsed.value[k])
    decreases |keys| - i
  {
    hide FilterOf, IsReserved;
    if i < |keys| {
      FiltersFollowKeys(parsers, filters, values, keys, i + 1);
      assert keys[i..][0] == keys[i] && keys[i..][1..] == keys[i + 1..];
      if IsReserved(keys[i]) {
        assert FilterKeys(keys[i..]) == FilterKeys(keys[i + 1..]);
      } else {
        assert FilterKeys(keys[i..]) == [keys[i]] + FilterKeys(keys[i + 1..]);
      }
    } else {
      assert keys[i..] == [];
    }
  }

  lemma OrderOfFits(values: Values, definition: Definition)
    requires ValidDefinition(definition)
    ensures OrderOf(values, definition).Ok? ==> OrderFits(OrderOf(values, definition).value, definition.sortable)
  {
    hide SortOf, Columns, ValidFilters, IsColumn, IsApiName;
    var sortable := definition.sortable;
    ColumnsAre(sortable);
    var raw := First(values, SORT);
    if raw.None? {
      var defaults := definition.defaultSort;
      forall i | 0 <= i < |defaults|
        ensures defaults[i].field in Columns(sortable)
                && SortField(defaults[i].field, Columns(sortable)[defaults[i].field]) in sortable
      {
        assert ValidDefault(defaults[i], sortable);
        DeclaredColumn(sortable, defaults[i].field, Columns(sortable)[defaults[i].field]);
      }
    } else if SortOf(raw.value, sortable).Ok? {
      SortParsesExactlyPrinted(raw.value, SortOf(raw.value, sortable).value, sortable);
    }
  }

  /** An accepted request has a positive page, a page size within the maximum, an order over declared columns, and
      one well-typed declared filter for each filter key. */
  lemma AcceptedRequestFits(parsers: Parsers, values: Values, keys: seq<string>, definition: Definition)
    requires AreKeys(keys, values)
    ensures var parsed := Parsed(parsers, values, keys, definition);
            parsed.Ok? ==>
              ValidDefinition(definition) && ParamsFit(parsed.value, definition)
              && |parsed.value.filters| == |FilterKeys(keys)|
              && forall k :: 0 <= k < |FilterKeys(keys)| ==>
                   FilterKeys(keys)[k] in values
                   && FilterOf(parsers, definition.filters, FilterKeys(keys)[k], values[FilterKeys(keys)[k]])
                      == Ok(parsed.value.filters[k])
  {
    hide FirstFault, ValidFilters, ValidSortable, ValidDefault, OrderOf, FiltersOf, FilterOf, FilterFits, OrderFits, FilterKeys;
    NoFaultIsValid(definition);
    var parsed := Parsed(parsers, values, keys, definition);
    if parsed.Ok? {
      OrderOfFits(values, definition);
      FiltersFollowKeys(parsers, definition.filters, values, keys, 0);
      assert keys[0..] == keys;
      forall k | 0 <= k < |parsed.value.filters| ensures FilterFits(parsed.value.filters[k], definition.filters) {
        FilterFitsDefinition(parsers, definition.filters, FilterKeys(keys)[k], values[FilterKeys(keys)[k]]);
      }
    }
  }
}
