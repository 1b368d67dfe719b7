/** What a resource declares about its list queries: query/query.go. */
module QueryDefinition {
  import opened Text

  // Operators and value types are strings in the program, so that a definition or a request can name any.
  type Operator = string
  type ValueType = string

  const EQ: Operator := "eq"
  const NEQ: Operator := "neq"
  const GT: Operator := "gt"
  const GTE: Operator := "gte"
  const LT: Operator := "lt"
  const LTE: Operator := "lte"
  const IN: Operator := "in"
  const CONTAINS: Operator := "contains"

  const STRING: ValueType := "string"
  const BOOL: ValueType := "bool"
  const INT: ValueType := "int"
  const FLOAT: ValueType := "float"
  const UUID: ValueType := "uuid"
  const DATE: ValueType := "date"
  const TIMESTAMP: ValueType := "timestamp"

  datatype Field = Field(name: string, column: string, valueType: ValueType, operators: seq<Operator>)

  datatype SortField = SortField(name: string, column: string)

  datatype Sort = Sort(field: string, column: string, descending: bool)

  datatype Definition = Definition(
    filters: seq<Field>, searchable: seq<string>, sortable: seq<SortField>, defaultSort: seq<Sort>,
    defaultPage: int, defaultPerPage: int, maxPerPage: int)

  predicate Lower(c: char) {
    'a' <= c <= 'z'
  }

  predicate NameChar(c: char) {
    Lower(c) || '0' <= c <= '9' || c == '_'
  }

  predicate NameChars(s: string) {
    forall i :: 0 <= i < |s| ==> NameChar(s[i])
  }

  /** `apiNamePattern`. */
  predicate IsApiName(s: string) {
    s != "" && Lower(s[0]) && NameChars(s)
  }

  predicate IsIdentifier(s: string) {
    s != "" && (Lower(s[0]) || s[0] == '_') && NameChars(s)
  }

  /** `columnPattern`. */
  predicate IsColumn(s: string) {
    IsIdentifier(s) || exists i :: 0 <= i < |s| && s[i] == '.' && IsIdentifier(s[..i]) && IsIdentifier(s[i + 1..])
  }

  predicate KnownType(valueType: ValueType) {
    valueType in [STRING, BOOL, INT, FLOAT, UUID, DATE, TIMESTAMP]
  }

  predicate OperatorAllowed(valueType: ValueType, operator: Operator) {
    if operator == EQ || operator == NEQ || operator == IN then true
    else if operator == CONTAINS then valueType == STRING
    else if operator == GT || operator == GTE || operator == LT || operator == LTE then
      valueType != BOOL && valueType != UUID
    else false
  }

  // ------------------------------------------------------------------------------------------ defaults

  function FieldWithDefaults(field: Field): Field {
    if field.operators == [] then field.(operators := [EQ]) else field
  }

  function FieldsWithDefaults(filters: seq<Field>): seq<Field> {
    seq(|filters|, i requires 0 <= i < |filters| => FieldWithDefaults(filters[i]))
  }

  function Defaulted(definition: Definition): Definition {
    definition.(
      defaultPage := if definition.defaultPage == 0 then 1 else definition.defaultPage,
      defaultPerPage := if definition.defaultPerPage == 0 then 25 else definition.defaultPerPage,
      maxPerPage := if definition.maxPerPage == 0 then 100 else definition.maxPerPage,
      filters := FieldsWithDefaults(definition.filters))
  }

  /** The definition as the program holds it: copying it copies the reference to the filters, not the filters. */
  datatype Shared = Shared(filters: array<Field>, rest: Definition) {
    ghost function Value(): Definition
      reads filters
    {
      rest.(filters := filters[..])
    }
  }

  /** `WithDefaults` completes the filters in place, in the array that every copy of the definition shares. */
  method WithDefaults(definition: Shared) returns (complete: Shared)
    modifies definition.filters
    ensures complete.filters == definition.filters
    ensures complete.Value() == Defaulted(old(definition.Value()))
  {
    var rest := definition.rest;
    if rest.defaultPage == 0 {
      rest := rest.(defaultPage := 1);
    }
    if rest.defaultPerPage == 0 {
      rest := rest.(defaultPerPage := 25);
    }
    if rest.maxPerPage == 0 {
      rest := rest.(maxPerPage := 100);
    }
    var filters := definition.filters;
    for index := 0 to filters.Length
      invariant forall j :: 0 <= j < index ==> filters[j] == FieldWithDefaults(old(filters[j]))
      invariant forall j :: index <= j < filters.Length ==> filters[j] == old(filters[j])
    {
      if |filters[index].operators| == 0 {
        filters[index] := filters[index].(operators := [EQ]);
      }
    }
    complete := Shared(filters, rest);
    assert filters[..] == FieldsWithDefaults(old(filters[..]));
  }

  /** Completing a definition twice, as `Parse` does, is completing it once. */
  lemma DefaultsAreStable(definition: Definition)
    ensures Defaulted(Defaulted(definition)) == Defaulted(definition)
  {
    var once := FieldsWithDefaults(definition.filters);
    assert FieldsWithDefaults(once) == once;
  }

  // ---------------------------------------------------------------------------------------- validation

  datatype Fault =
    | BadDefaultPage
    | BadPerPage
    | BadFilterName(name: string)
    | BadFilterColumn(column: string)
    | BadFilterType(valueType: ValueType)
    | DuplicateFilter(name: string)
    | BadOperator(field: string, operator: Operator)
    | DuplicateOperator(field: string, operator: Operator)
    | BadSearchColumn(column: string)
    | BadSort(name: string, column: string)
    | DuplicateSort(name: string)
    | UnknownDefaultSort(field: string)
    | InconsistentDefaultSort(field: string)

  function OperatorFault(field: Field, k: nat): Option<Fault>
    requires k <= |field.operators|
    decreases |field.operators| - k
  {
    if k == |field.operators| then None
    else if !OperatorAllowed(field.valueType, field.operators[k]) then Some(BadOperator(field.name, field.operators[k]))
    else if field.operators[k] in field.operators[..k] then Some(DuplicateOperator(field.name, field.operators[k]))
    else OperatorFault(field, k + 1)
  }

  function FilterNames(filters: seq<Field>): (names: seq<string>)
    ensures |names| == |filters| && forall i :: 0 <= i < |filters| ==> names[i] == filters[i].name
  {
    seq(|filters|, i requires 0 <= i < |filters| => filters[i].name)
  }

  function FieldFault(filters: seq<Field>, i: nat): Option<Fault>
    requires i < |filters|
  {
    var field := filters[i];
    if !IsApiName(field.name) then Some(BadFilterName(field.name))
    else if !IsColumn(field.column) then Some(BadFilterColumn(field.column))
    else if !KnownType(field.valueType) then Some(BadFilterType(field.valueType))
    else if field.name in FilterNames(filters)[..i] then Some(DuplicateFilter(field.name))
    else OperatorFault(field, 0)
  }

  function FilterFault(filters: seq<Field>, i: nat): Option<Fault>
    requires i <= |filters|
    decreases |filters| - i
  {
    if i == |filters| then None
    else if FieldFault(filters, i).Some? then FieldFault(filters, i)
    else FilterFault(filters, i + 1)
  }

  function SearchFault(searchable: seq<string>, i: nat): Option<Fault>
    requires i <= |searchable|
    decreases |searchable| - i
  {
    if i == |searchable| then None
    else if !IsColumn(searchable[i]) then Some(BadSearchColumn(searchable[i]))
    else SearchFault(searchable, i + 1)
  }

  /** The map from sort names to columns; a later declaration of a name replaces an earlier one. */
  function Columns(sortable: seq<SortField>): map<string, string> {
    if sortable == [] then map[]
    else Columns(sortable[..|sortable| - 1])[sortable[|sortable| - 1].name := sortable[|sortable| - 1].column]
  }

  function SortFault(sortable: seq<SortField>, i: nat): Option<Fault>
    requires i <= |sortable|
    decreases |sortable| - i
  {
    if i == |sortable| then None
    else if !IsApiName(sortable[i].name) || !IsColumn(sortable[i].column) then
      Some(BadSort(sortable[i].name, sortable[i].column))
    else if sortable[i].name in Columns(sortable[..i]) then Some(DuplicateSort(sortable[i].name))
    else SortFault(sortable, i + 1)
  }

  function DefaultSortFault(columns: map<string, string>, defaults: seq<Sort>, i: nat): Option<Fault>
    requires i <= |defaults|
    decreases |defaults| - i
  {
    if i == |defaults| then None
    else if defaults[i].field !in columns then Some(UnknownDefaultSort(defaults[i].field))
    else if defaults[i].column != "" && defaults[i].column != columns[defaults[i].field] then
      Some(InconsistentDefaultSort(defaults[i].field))
    else DefaultSortFault(columns, defaults, i + 1)
  }

  function OrElse(first: Option<Fault>, second: Option<Fault>): Option<Fault> {
    if first.Some? then first else second
  }

  /** The first fault `Validate` reports in a completed definition. */
  function FirstFault(definition: Definition): Option<Fault> {
    if definition.defaultPage < 1 then Some(BadDefaultPage)
    else if definition.defaultPerPage < 1 || definition.maxPerPage < 1 || definition.defaultPerPage > definition.maxPerPage then
      Some(BadPerPage)
    else
      OrElse(FilterFault(definition.filters, 0),
        OrElse(SearchFault(definition.searchable, 0),
          OrElse(SortFault(definition.sortable, 0),
            DefaultSortFault(Columns(definition.sortable), definition.defaultSort, 0))))
  }

  method ValidateOperators(field: Field) returns (fault: Option<Fault>)
    ensures fault == OperatorFault(field, 0)
  {
    var operators: set<Operator> := {};
    for k := 0 to |field.operators|
      invariant OperatorFault(field, 0) == OperatorFault(field, k)
      invariant forall operator :: operator in operators <==> operator in field.operators[..k]
    {
      var operator := field.operators[k];
      if !OperatorAllowed(field.valueType, operator) {
        return Some(BadOperator(field.name, operator));
      }
      if operator in operators {
        return Some(DuplicateOperator(field.name, operator));
      }
      operators := operators + {operator};
      assert field.operators[..k + 1] == field.operators[..k] + [operator];
    }
    fault := None;
  }

  method ValidateFilters(filters: seq<Field>) returns (fault: Option<Fault>)
    ensures fault == FilterFault(filters, 0)
  {
    var names: set<string> := {};
    for i := 0 to |filters|
      invariant FilterFault(filters, 0) == FilterFault(filters, i)
      invariant forall name :: name in names <==> name in FilterNames(filters)[..i]
    {
      var field := filters[i];
      if !IsApiName(field.name) {
        return Some(BadFilterName(field.name));
      }
      if !IsColumn(field.column) {
        return Some(BadFilterColumn(field.column));
      }
      if !KnownType(field.valueType) {
        return Some(BadFilterType(field.valueType));
      }
      if field.name in names {
        return Some(DuplicateFilter(field.name));
      }
      names := names + {field.name};
      assert FilterNames(filters)[..i + 1] == FilterNames(filters)[..i] + [field.name];
      var operatorFault := ValidateOperators(field);
      if operatorFault.Some? {
        return operatorFault;
      }
    }
    fault := None;
  }

  method ValidateSearch(searchable: seq<string>) returns (fault: Option<Fault>)
    ensures fault == SearchFault(searchable, 0)
  {
    for i := 0 to |searchable|
      invariant SearchFault(searchable, 0) == SearchFault(searchable, i)
    {
      if !IsColumn(searchable[i]) {
        return Some(BadSearchColumn(searchable[i]));
      }
    }
    fault := None;
  }

  method ValidateSort(sortable: seq<SortField>) returns (fault: Option<Fault>, columns: map<string, string>)
    ensures fault == SortFault(sortable, 0)
    ensures fault == None ==> columns == Columns(sortable)
  {
    columns := map[];
    for i := 0 to |sortable|
      invariant SortFault(sortable, 0) == SortFault(sortable, i)
      invariant columns == Columns(sortable[..i])
    {
      var field := sortable[i];
      if !IsApiName(field.name) || !IsColumn(field.column) {
        return Some(BadSort(field.name, field.column)), columns;
      }
      if field.name in columns {
        return Some(DuplicateSort(field.name)), columns;
      }
      columns := columns[field.name := field.column];
      assert sortable[..i + 1][..i] == sortable[..i];
    }
    fault := None;
    assert sortable[..|sortable|] == sortable;
  }

  method ValidateDefaultSort(columns: map<string, string>, defaults: seq<Sort>) returns (fault: Option<Fault>)
    ensures fault == DefaultSortFault(columns, defaults, 0)
  {
    for i := 0 to |defaults|
      invariant DefaultSortFault(columns, defaults, 0) == DefaultSortFault(columns, defaults, i)
    {
      if defaults[i].field !in columns {
        return Some(UnknownDefaultSort(defaults[i].field));
      }
      if defaults[i].column != "" && defaults[i].column != columns[defaults[i].field] {
        return Some(InconsistentDefaultSort(defaults[i].field));
      }
    }
    fault := None;
  }

  method Validate(definition: Shared) returns (fault: Option<Fault>)
    modifies definition.filters
    ensures definition.filters[..] == FieldsWithDefaults(old(definition.filters[..]))
    ensures fault == FirstFault(Defaulted(old(definition.Value())))
  {
    var complete := WithDefaults(definition);
    var rest := complete.rest;
    if rest.defaultPage < 1 {
      return Some(BadDefaultPage);
    }
    if rest.defaultPerPage < 1 || rest.maxPerPage < 1 || rest.defaultPerPage > rest.maxPerPage {
      return Some(BadPerPage);
    }
    fault := ValidateFilters(complete.filters[..]);
    if fault.Some? {
      return;
    }
    fault := ValidateSearch(rest.searchable);
    if fault.Some? {
      return;
    }
    var columns;
    fault, columns := ValidateSort(rest.sortable);
    if fault.Some? {
      return;
    }
    fault := ValidateDefaultSort(columns, rest.defaultSort);
  }

  // ------------------------------------------------------------------- what a valid definition guarantees

  predicate ValidField(field: Field) {
    && IsApiName(field.name) && IsColumn(field.column) && KnownType(field.valueType)
    && (forall k :: 0 <= k < |field.operators| ==> OperatorAllowed(field.valueType, field.operators[k]))
    && (forall j, k :: 0 <= j < k < |field.operators| ==> field.operators[j] != field.operators[k])
  }

  predicate ValidFilters(filters: seq<Field>) {
    && (forall i :: 0 <= i < |filters| ==> ValidField(filters[i]))
    && (forall i, j :: 0 <= i < j < |filters| ==> filters[i].name != filters[j].name)
  }

  predicate ValidSortable(sortable: seq<SortField>) {
    && (forall i :: 0 <= i < |sortable| ==> IsApiName(sortable[i].name) && IsColumn(sortable[i].column))
    && (forall i, j :: 0 <= i < j < |sortable| ==> sortable[i].name != sortable[j].name)
  }

  predicate ValidDefault(sort: Sort, sortable: seq<SortField>) {
    exists i :: 0 <= i < |sortable| && sortable[i].name == sort.field && (sort.column == "" || sort.column == sortable[i].column)
  }

  /** A definition without faults, said without the order of the checks. */
  predicate ValidDefinition(definition: Definition) {
    && 1 <= definition.defaultPage
    && 1 <= definition.defaultPerPage <= definition.maxPerPage
    && ValidFilters(definition.filters)
    && (forall i :: 0 <= i < |definition.searchable| ==> IsColumn(definition.searchable[i]))
    && ValidSortable(definition.sortable)
    && (forall i :: 0 <= i < |definition.defaultSort| ==> ValidDefault(definition.defaultSort[i], definition.sortable))
  }

  lemma {:induction false} OperatorFaultMeans(field: Field, k: nat)
    requires k <= |field.operators|
    ensures OperatorFault(field, k) == None
            <==> forall i :: k <= i < |field.operators| ==>
              OperatorAllowed(field.valueType, field.operators[i]) && field.operators[i] !in field.operators[..i]
    decreases |field.operators| - k
  {
    hide OperatorAllowed;
    if k < |field.operators| {
      OperatorFaultMeans(field, k + 1);
    }
  }

  lemma Distinct<T>(s: seq<T>)
    ensures (forall i :: 0 <= i < |s| ==> s[i] !in s[..i]) <==> forall i, j :: 0 <= i < j < |s| ==> s[i] != s[j]
  {
    if forall i :: 0 <= i < |s| ==> s[i] !in s[..i] {
      forall i, j | 0 <= i < j < |s| ensures s[i] != s[j] {
        assert s[..j][i] == s[i];
      }
    }
  }

  lemma FieldFaultMeans(filters: seq<Field>, i: nat)
    requires i < |filters|
    ensures FieldFault(filters, i) == None
            <==> ValidField(filters[i]) && filters[i].name !in FilterNames(filters)[..i]
  {
    hide OperatorAllowed, IsApiName, IsColumn, KnownType, OperatorFault;
    OperatorFaultMeans(filters[i], 0);
    Distinct(filters[i].operators);
  }

  lemma {:induction false} FilterFaultMeans(filters: seq<Field>, i: nat)
    requires i <= |filters|
    ensures FilterFault(filters, i) == None
            <==> forall k :: i <= k < |filters| ==> ValidField(filters[k]) && filters[k].name !in FilterNames(filters)[..k]
    decreases |filters| - i
  {
    hide FieldFault, ValidField;
    if i < |filters| {
      FilterFaultMeans(filters, i + 1);
      FieldFaultMeans(filters, i);
    }
  }

  lemma {:induction false} SearchFaultMeans(searchable: seq<string>, i: nat)
    requires i <= |searchable|
    ensures SearchFault(searchable, i) == None <==> forall k :: i <= k < |searchable| ==> IsColumn(searchable[k])
    decreases |searchable| - i
  {
    hide IsColumn;
    if i < |searchable| {
      SearchFaultMeans(searchable, i + 1);
    }
  }

  lemma {:induction false} ColumnsDomain(sortable: seq<SortField>, name: string)
    ensures name in Columns(sortable) <==> exists i :: 0 <= i < |sortable| && sortable[i].name == name
    decreases |sortable|
  {
    if sortable != [] {
      var n := |sortable| - 1;
      var rest := sortable[..n];
      ColumnsDomain(rest, name);
      assert forall i :: 0 <= i < n ==> rest[i] == sortable[i];
      assert sortable[n].name == name || ((exists i :: 0 <= i < n && rest[i].name == name)
                                          <==> exists i :: 0 <= i < |sortable| && sortable[i].name == name);
    }
  }

  lemma {:induction false} ColumnsValue(sortable: seq<SortField>, i: nat)
    requires i < |sortable| && forall j, k :: 0 <= j < k < |sortable| ==> sortable[j].name != sortable[k].name
    ensures sortable[i].name in Columns(sortable) && Columns(sortable)[sortable[i].name] == sortable[i].column
    decreases |sortable|
  {
    if i < |sortable| - 1 {
      ColumnsValue(sortable[..|sortable| - 1], i);
    }
  }

  /** With distinct names, the map of columns is the list of declarations. */
  lemma ColumnsAre(sortable: seq<SortField>)
    ensures forall name :: name in Columns(sortable) <==> exists i :: 0 <= i < |sortable| && sortable[i].name == name
    ensures (forall i, j :: 0 <= i < j < |sortable| ==> sortable[i].name != sortable[j].name)
            ==> forall i :: 0 <= i < |sortable| ==>
                  sortable[i].name in Columns(sortable) && Columns(sortable)[sortable[i].name] == sortable[i].column
  {
    hide Columns;
    forall name ensures name in Columns(sortable) <==> exists i :: 0 <= i < |sortable| && sortable[i].name == name {
      ColumnsDomain(sortable, name);
    }
    if forall i, j :: 0 <= i < j < |sortable| ==> sortable[i].name != sortable[j].name {
      forall i | 0 <= i < |sortable|
        ensures sortable[i].name in Columns(sortable) && Columns(sortable)[sortable[i].name] == sortable[i].column
      {
        ColumnsValue(sortable, i);
      }
    }
  }

  lemma {:induction false} SortFaultMeans(sortable: seq<SortField>, i: nat)
    requires i <= |sortable|
    ensures SortFault(sortable, i) == None
            <==> forall k :: i <= k < |sortable| ==>
              IsApiName(sortable[k].name) && IsColumn(sortable[k].column) && sortable[k].name !in Columns(sortable[..k])
    decreases |sortable| - i
  {
    hide IsApiName, IsColumn, Columns;
    if i < |sortable| {
      SortFaultMeans(sortable, i + 1);
    }
  }

  lemma SortableMeans(sortable: seq<SortField>)
    ensures SortFault(sortable, 0) == None <==> ValidSortable(sortable)
  {
    hide IsApiName, IsColumn, Columns;
    SortFaultMeans(sortable, 0);
    forall k | 0 <= k < |sortable|
      ensures sortable[k].name !in Columns(sortable[..k]) <==> forall j :: 0 <= j < k ==> sortable[j].name != sortable[k].name
    {
      ColumnsAre(sortable[..k]);
      assert forall j :: 0 <= j < k ==> sortable[..k][j] == sortable[j];
    }
  }

  lemma {:induction false} DefaultSortFaultMeans(columns: map<string, string>, defaults: seq<Sort>, i: nat)
    requires i <= |defaults|
    ensures DefaultSortFault(columns, defaults, i) == None
            <==> forall k :: i <= k < |defaults| ==>
              defaults[k].field in columns && (defaults[k].column == "" || defaults[k].column == columns[defaults[k].field])
    decreases |defaults| - i
  {
    if i < |defaults| {
      DefaultSortFaultMeans(columns, defaults, i + 1);
    }
  }

  lemma DefaultSortMeans(sortable: seq<SortField>, defaults: seq<Sort>)
    requires ValidSortable(sortable)
    ensures DefaultSortFault(Columns(sortable), defaults, 0) == None
            <==> forall i :: 0 <= i < |defaults| ==> ValidDefault(defaults[i], sortable)
  {
    hide IsApiName, IsColumn, Columns;
    ColumnsAre(sortable);
    DefaultSortFaultMeans(Columns(sortable), defaults, 0);
    forall k | 0 <= k < |defaults|
      ensures ValidDefault(defaults[k], sortable)
              <==> defaults[k].field in Columns(sortable)
                   && (defaults[k].column == "" || defaults[k].column == Columns(sortable)[defaults[k].field])
    {
    }
  }

  /** `Validate` reports no fault exactly for the definitions that are valid once completed. */
  lemma NoFaultIsValid(definition: Definition)
    ensures FirstFault(definition) == None <==> ValidDefinition(definition)
  {
    hide ValidField, IsColumn, Columns, ValidSortable, SortFault, FilterFault, SearchFault, DefaultSortFault, ValidDefault;
    FilterFaultMeans(definition.filters, 0);
    Distinct(FilterNames(definition.filters));
    SearchFaultMeans(definition.searchable, 0);
    SortableMeans(definition.sortable);
    if ValidSortable(definition.sortable) {
      DefaultSortMeans(definition.sortable, definition.defaultSort);
    }
  }
}
