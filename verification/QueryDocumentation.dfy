/** The parameters that api/resource_openapi.go documents for a list endpoint, and the ones `Parse` accepts. */
module QueryDocumentation {
  import opened Text
  import opened QueryDefinition
  import opened QueryFilter
  import opened QuerySort
  import opened QueryParse
  import opened QueryLaws
  import Numbers
  import Ordering

  datatype Schema = Schema(kind: string, format: string, minimum: Option<int>, maximum: Option<int>)

  datatype Parameter = Parameter(name: string, schema: Schema)

  function Plain(kind: string, format: string): Schema {
    Schema(kind, format, None, None)
  }

  /** `querySchema`. */
  function QuerySchema(valueType: ValueType, operator: Operator): Schema {
    if operator == IN then Plain("string", "")
    else if valueType == BOOL then Plain("boolean", "")
    else if valueType == INT then Plain("integer", "")
    else if valueType == FLOAT then Plain("number", "")
    else if valueType == UUID then Plain("string", "uuid")
    else if valueType == DATE then Plain("string", "date")
    else if valueType == TIMESTAMP then Plain("string", "date-time")
    else Plain("string", "")
  }

  function DocumentedKey(field: Field, operator: Operator): string {
    OPEN + field.name + "]" + (if operator == EQ then "" else "[" + operator + "]")
  }

  function FieldParameters(field: Field, k: nat): seq<Parameter>
    requires k <= |field.operators|
  {
    if k == 0 then []
    else
      var operator := field.operators[k - 1];
      FieldParameters(field, k - 1) + [Parameter(DocumentedKey(field, operator), QuerySchema(field.valueType, operator))]
  }

  function FilterParameters(filters: seq<Field>, i: nat): seq<Parameter>
    requires i <= |filters|
  {
    if i == 0 then []
    else FilterParameters(filters, i - 1) + FieldParameters(filters[i - 1], |filters[i - 1].operators|)
  }

  function FixedParameters(definition: Definition): seq<Parameter> {
    [Parameter(PAGE, Schema("integer", "", Some(1), None)),
     Parameter(PER_PAGE, Schema("integer", "", Some(1), Some(definition.maxPerPage)))]
    + (if definition.searchable == [] then [] else [Parameter(SEARCH, Plain("string", ""))])
    + (if definition.sortable == [] then [] else [Parameter(SORT, Plain("string", ""))])
  }

  function DocumentedParameters(definition: Definition): seq<Parameter> {
    FixedParameters(definition) + FilterParameters(definition.filters, |definition.filters|)
  }

  /** `queryParameters`. */
  method QueryParameters(shared: Shared) returns (parameters: seq<Parameter>)
    modifies shared.filters
    ensures shared.filters[..] == FieldsWithDefaults(old(shared.filters[..]))
    ensures parameters == DocumentedParameters(Defaulted(old(shared.Value())))
  {
    var definition := WithDefaults(shared);
    ghost var complete := definition.Value();
    parameters := [Parameter(PAGE, Schema("integer", "", Some(1), None)),
                   Parameter(PER_PAGE, Schema("integer", "", Some(1), Some(definition.rest.maxPerPage)))];
    if |definition.rest.searchable| > 0 {
      parameters := parameters + [Parameter(SEARCH, Plain("string", ""))];
    }
    if |definition.rest.sortable| > 0 {
      parameters := parameters + [Parameter(SORT, Plain("string", ""))];
    }
    assert parameters == FixedParameters(complete);
    var listed := ListFilterParameters(definition.filters[..], parameters);
    parameters := listed;
  }

  method ListFilterParameters(filters: seq<Field>, fixed: seq<Parameter>) returns (parameters: seq<Parameter>)
    ensures parameters == fixed + FilterParameters(filters, |filters|)
  {
    parameters := fixed;
    for i := 0 to |filters|
      invariant parameters == fixed + FilterParameters(filters, i)
    {
      var field := filters[i];
      for k := 0 to |field.operators|
        invariant parameters == fixed + FilterParameters(filters, i) + FieldParameters(field, k)
      {
        var operator := field.operators[k];
        var name := "filter[" + field.name + "]";
        if operator != EQ {
          name := name + "[" + operator + "]";
        }
        assert name == DocumentedKey(field, operator);
        parameters := parameters + [Parameter(name, QuerySchema(field.valueType, operator))];
      }
    }
  }

  /** The key is documented for one of the first `n` operators of the field. */
  predicate DocumentsField(field: Field, n: nat, key: string)
    requires n <= |field.operators|
  {
    exists k :: 0 <= k < n && key == DocumentedKey(field, field.operators[k])
  }

  /** The key is documented for some declared field. */
  predicate Documents(definition: Definition, key: string) {
    exists i :: 0 <= i < |definition.filters| && DocumentsField(definition.filters[i], |definition.filters[i].operators|, key)
  }

  predicate Names(parameters: seq<Parameter>, key: string) {
    exists i :: 0 <= i < |parameters| && parameters[i].name == key
  }

  predicate Documented(definition: Definition, key: string) {
    Names(DocumentedParameters(definition), key)
  }

  /** `filter[f][eq]`, which is accepted beside the documented `filter[f]`. */
  predicate ExplicitEq(definition: Definition, key: string) {
    exists i :: 0 <= i < |definition.filters| && EQ in definition.filters[i].operators
                && key == FilterKey(definition.filters[i].name, EQ)
  }

  lemma NamesOfConcat(a: seq<Parameter>, b: seq<Parameter>, key: string)
    ensures Names(a + b, key) <==> Names(a, key) || Names(b, key)
  {
    if Names(a, key) {
      var i :| 0 <= i < |a| && a[i].name == key;
      assert (a + b)[i].name == key;
    }
    if Names(b, key) {
      var i :| 0 <= i < |b| && b[i].name == key;
      assert (a + b)[|a| + i].name == key;
    }
  }

  lemma NamesOfOne(parameter: Parameter, key: string)
    ensures Names([parameter], key) <==> parameter.name == key
  {
    assert [parameter][0] == parameter;
  }

  lemma {:induction false} NamesOfField(field: Field, n: nat, key: string)
    requires n <= |field.operators|
    ensures Names(FieldParameters(field, n), key) <==> DocumentsField(field, n, key)
  {
    hide Names, DocumentedKey;
    if n > 0 {
      NamesOfField(field, n - 1, key);
      var last := Parameter(DocumentedKey(field, field.operators[n - 1]), QuerySchema(field.valueType, field.operators[n - 1]));
      NamesOfConcat(FieldParameters(field, n - 1), [last], key);
      NamesOfOne(last, key);
    } else {
      NamesOfNone(key);
    }
  }

  lemma NamesOfNone(key: string)
    ensures !Names([], key)
  {
  }

  lemma {:induction false} NamesOfFilters(filters: seq<Field>, n: nat, key: string)
    requires n <= |filters|
    ensures Names(FilterParameters(filters, n), key)
            <==> exists i :: 0 <= i < n && DocumentsField(filters[i], |filters[i].operators|, key)
  {
    hide Names, DocumentsField, FieldParameters;
    if n > 0 {
      NamesOfFilters(filters, n - 1, key);
      NamesOfConcat(FilterParameters(filters, n - 1), FieldParameters(filters[n - 1], |filters[n - 1].operators|), key);
      NamesOfField(filters[n - 1], |filters[n - 1].operators|, key);
    } else {
      NamesOfNone(key);
    }
  }

  lemma DocumentedMeans(definition: Definition, key: string)
    ensures Documented(definition, key)
            <==> key == PAGE || key == PER_PAGE || (key == SEARCH && definition.searchable != [])
                 || (key == SORT && definition.sortable != []) || Documents(definition, key)
  {
    hide Names, DocumentedKey, FilterParameters;
    NamesOfConcat(FixedParameters(definition), FilterParameters(definition.filters, |definition.filters|), key);
    NamesOfFilters(definition.filters, |definition.filters|, key);
    var page := Parameter(PAGE, Schema("integer", "", Some(1), None));
    var perPage := Parameter(PER_PAGE, Schema("integer", "", Some(1), Some(definition.maxPerPage)));
    var search := Parameter(SEARCH, Plain("string", ""));
    var sort := Parameter(SORT, Plain("string", ""));
    var a, b := [page, perPage], if definition.searchable == [] then [] else [search];
    var c := if definition.sortable == [] then [] else [sort];
    NamesOfConcat(a + b, c, key);
    NamesOfConcat(a, b, key);
    NamesOfConcat([page], [perPage], key);
    assert [page] + [perPage] == [page, perPage];
    NamesOfOne(page, key);
    NamesOfOne(perPage, key);
    NamesOfOne(search, key);
    NamesOfOne(sort, key);
    NamesOfNone(key);
  }

  // ------------------------------------------------------------------------------ accepted keys are documented

  /** Some request with this parameter is accepted. */
  ghost predicate Acceptable(parsers: Parsers, definition: Definition, key: string) {
    exists values: Values, keys: seq<string> ::
      AreKeys(keys, values) && key in values && Parsed(parsers, values, keys, definition).Ok?
  }

  lemma FilterKeyIsDocumented(parsers: Parsers, definition: Definition, key: string, rawValues: seq<string>)
    requires FilterOf(parsers, definition.filters, key, rawValues).Ok?
    ensures Documents(definition, key) || ExplicitEq(definition, key)
  {
    hide MatchFilter, FilterValue, FieldNamed, IsApiName, IsLowerWord;
    ReadKeyIsWritten(key);
    var (name, suffix) := MatchFilter(key).value;
    FieldNamedIs(definition.filters, name);
    var field := FieldNamed(definition.filters, name).value;
    var i :| 0 <= i < |definition.filters| && definition.filters[i] == field;
    var operator := if suffix != "" then suffix else EQ;
    var k :| 0 <= k < |field.operators| && field.operators[k] == operator;
    if suffix != EQ {
      assert key == DocumentedKey(field, operator);
      assert DocumentsField(field, |field.operators|, key);
    }
  }

  lemma {:induction false} FilterKeyOf(keys: seq<string>, key: string)
    requires key in keys && !IsReserved(key)
    ensures exists k :: 0 <= k < |FilterKeys(keys)| && FilterKeys(keys)[k] == key
    decreases |keys|
  {
    if keys[0] == key {
      assert FilterKeys(keys)[0] == key;
    } else {
      FilterKeyOf(keys[1..], key);
      var k :| 0 <= k < |FilterKeys(keys[1..])| && FilterKeys(keys[1..])[k] == key;
      var before := if IsReserved(keys[0]) then [] else [keys[0]];
      assert FilterKeys(keys)[|before| + k] == key;
    }
  }

  lemma AcceptedKeyIsDocumented(parsers: Parsers, values: Values, keys: seq<string>, definition: Definition, key: string)
    requires AreKeys(keys, values) && key in values
    ensures Parsed(parsers, values, keys, definition).Ok? ==> Documented(definition, key) || ExplicitEq(definition, key)
  {
    hide FirstFault, FiltersOf, FilterOf, Documented, Documents, ExplicitEq, SortOf, FilterKeys, ParamsFit, ValidFilters, ValidDefault,
      PositiveInteger, DefaultOrder, Columns;
    AcceptedRequestFits(parsers, values, keys, definition);
    DocumentedMeans(definition, key);
    if Parsed(parsers, values, keys, definition).Err? {
    } else if key == SORT {
      var raw := First(values, SORT).value;
      SortParsesExactlyPrinted(raw, SortOf(raw, definition.sortable).value, definition.sortable);
      assert definition.sortable != [];
    } else if !IsReserved(key) {
      FilterKeyOf(keys, key);
      FilterKeyIsDocumented(parsers, definition, key, values[key]);
    }
  }

  // ------------------------------------------------------------------------------ documented keys are accepted

  predicate Sample<T>(parse: string -> Option<T>, raw: string) {
    parse(raw).Some? && raw != "" && ',' !in raw
  }

  /** Each library parser accepts some text without a comma. */
  ghost predicate Productive(parsers: Parsers) {
    && (exists raw :: Sample(parsers.float, raw)) && (exists raw :: Sample(parsers.uuid, raw))
    && (exists raw :: Sample(parsers.date, raw)) && (exists raw :: Sample(parsers.timestamp, raw))
  }

  lemma OneIsRead()
    ensures Numbers.ParseInt64("1") == Some(1)
  {
    assert "1"[..0] == "";
    assert Numbers.DecimalValue("1") == 1;
  }

  lemma ScalarSample(parsers: Parsers, valueType: ValueType) returns (raw: string)
    requires Productive(parsers) && KnownType(valueType)
    ensures raw != "" && ',' !in raw && ParseScalar(parsers, valueType, raw).Ok?
  {
    if valueType == FLOAT {
      raw :| Sample(parsers.float, raw);
    } else if valueType == UUID {
      raw :| Sample(parsers.uuid, raw);
    } else if valueType == DATE {
      raw :| Sample(parsers.date, raw);
    } else if valueType == TIMESTAMP {
      raw :| Sample(parsers.timestamp, raw);
    } else if valueType == BOOL {
      raw := "true";
    } else {
      OneIsRead();
      raw := "1";
    }
  }

  lemma ValueSample(parsers: Parsers, valueType: ValueType, operator: Operator) returns (raw: string)
    requires Productive(parsers) && KnownType(valueType)
    ensures FilterValue(parsers, valueType, operator, [raw]).Ok?
  {
    hide ParseScalar, KnownType, SplitOn;
    raw := ScalarSample(parsers, valueType);
    SplitOnPart(raw, ',', "");
    assert [raw][..0] == [];
    assert Items([raw]) == [raw];
    assert ParseItems(parsers, valueType, [raw], 1) == Ok([]);
  }

  lemma FieldKeyIsAcceptable(parsers: Parsers, definition: Definition, i: nat, operator: Operator, suffix: string)
    requires ValidDefinition(definition) && Productive(parsers)
    requires i < |definition.filters| && operator in definition.filters[i].operators
    requires suffix == operator || (suffix == "" && operator == EQ)
    ensures Acceptable(parsers, definition, FilterKey(definition.filters[i].name, suffix))
  {
    hide MatchFilter, FieldNamed, FilterValue, IsColumn, KnownType, Productive, IsLowerWord, IsApiName, OperatorAllowed, FilterKey,
      ValidSortable, ValidDefault, Acceptable;
    var field := definition.filters[i];
    assert ValidField(field);
    var k :| 0 <= k < |field.operators| && field.operators[k] == operator;
    AllowedIsLowerWord(field.valueType, operator);
    KeyIsRead(field.name, suffix);
    FieldNamedFinds(definition.filters, i);
    var raw := ValueSample(parsers, field.valueType, operator);
    var key := FilterKey(field.name, suffix);
    AllowedIsNotEmpty(field.valueType, operator);
    assert FilterOf(parsers, definition.filters, key, [raw]).Ok?;
    FilterKeyIsNotReserved(field.name, suffix);
    OneFilterIsAccepted(parsers, definition, key, raw);
  }

  lemma AllowedIsLowerWord(valueType: ValueType, operator: Operator)
    requires OperatorAllowed(valueType, operator)
    ensures IsLowerWord(operator)
  {
  }

  lemma AllowedIsNotEmpty(valueType: ValueType, operator: Operator)
    requires OperatorAllowed(valueType, operator)
    ensures operator != ""
  {
  }

  lemma FilterKeyIsNotReserved(name: string, operator: string)
    ensures !IsReserved(FilterKey(name, operator))
  {
    KeyParts(name, operator);
    assert FilterKey(name, operator)[0] == OPEN[0] == 'f';
  }

  lemma OneKey(key: string, raw: string)
    ensures AreKeys([key], map[key := [raw]])
  {
  }

  lemma OneFilterIsAccepted(parsers: Parsers, definition: Definition, key: string, raw: string)
    requires ValidDefinition(definition) && !IsReserved(key) && FilterOf(parsers, definition.filters, key, [raw]).Ok?
    ensures Acceptable(parsers, definition, key)
  {
    hide FirstFault, FilterOf, ValidFilters, ValidSortable, ValidDefault, AreKeys, DefaultOrder, Columns, SortOf, PositiveInteger;
    NoFaultIsValid(definition);
    var values: Values := map[key := [raw]];
    OneKey(key, raw);
    assert FiltersOf(parsers, definition.filters, values, [key], 1) == Ok([]);
    assert FiltersOf(parsers, definition.filters, values, [key], 0).Ok?;
    assert Parsed(parsers, values, [key], definition).Ok?;
  }

  lemma ReservedIsAccepted(parsers: Parsers, definition: Definition, key: string, raw: string)
    requires ValidDefinition(definition) && IsReserved(key)
    requires (key == PAGE || key == PER_PAGE) ==> raw == "1"
    requires key == SEARCH ==> definition.searchable != []
    requires key == SORT ==> SortOf(raw, definition.sortable).Ok?
    ensures Acceptable(parsers, definition, key)
  {
    hide FirstFault, FilterOf, ValidFilters, ValidSortable, ValidDefault, AreKeys, DefaultOrder, Columns, SortOf;
    NoFaultIsValid(definition);
    OneIsRead();
    var values: Values := map[key := [raw]];
    OneKey(key, raw);
    assert FiltersOf(parsers, definition.filters, values, [key], 1) == Ok([]);
    assert FiltersOf(parsers, definition.filters, values, [key], 0).Ok?;
    assert Parsed(parsers, values, [key], definition).Ok?;
  }

  lemma SortKeyIsAcceptable(parsers: Parsers, definition: Definition)
    requires ValidDefinition(definition) && definition.sortable != []
    ensures Acceptable(parsers, definition, SORT)
  {
    hide ValidFilters, ValidDefault, IsApiName, IsColumn, SortOf, PrintSorts, Acceptable;
    var first := definition.sortable[0];
    var sorts := [Sort(first.name, first.column, false)];
    assert SortField(first.name, first.column) == first;
    SortParsesExactlyPrinted(PrintSorts(sorts), sorts, definition.sortable);
    ReservedIsAccepted(parsers, definition, SORT, PrintSorts(sorts));
  }

  lemma DocumentedKeyIsAcceptable(parsers: Parsers, definition: Definition, key: string)
    requires ValidDefinition(definition) && Productive(parsers)
    requires Documented(definition, key) || ExplicitEq(definition, key)
    ensures Acceptable(parsers, definition, key)
  {
    hide Documented, Acceptable, Productive, ValidDefinition, FilterKey;
    DocumentedMeans(definition, key);
    if ExplicitEq(definition, key) {
      var i :| 0 <= i < |definition.filters| && EQ in definition.filters[i].operators
               && key == FilterKey(definition.filters[i].name, EQ);
      FieldKeyIsAcceptable(parsers, definition, i, EQ, EQ);
    } else if Documents(definition, key) {
      var i :| 0 <= i < |definition.filters|
               && DocumentsField(definition.filters[i], |definition.filters[i].operators|, key);
      var k :| 0 <= k < |definition.filters[i].operators| &&
        key == DocumentedKey(definition.filters[i], definition.filters[i].operators[k]);
      var operator := definition.filters[i].operators[k];
      var suffix := if operator == EQ then "" else operator;
      DocumentedKeyIs(definition, i, k);
      FieldKeyIsAcceptable(parsers, definition, i, operator, suffix);
    } else if key == SORT {
      SortKeyIsAcceptable(parsers, definition);
    } else {
      ReservedIsAccepted(parsers, definition, key, "1");
    }
  }

  lemma DocumentedKeyIs(definition: Definition, i: nat, k: nat)
    requires ValidDefinition(definition) && i < |definition.filters| && k < |definition.filters[i].operators|
    ensures var operator := definition.filters[i].operators[k];
            DocumentedKey(definition.filters[i], operator)
            == FilterKey(definition.filters[i].name, if operator == EQ then "" else operator)
  {
    hide IsApiName, IsColumn, KnownType, OperatorAllowed, ValidSortable, ValidDefault;
    var field := definition.filters[i];
    assert ValidField(field);
    assert OperatorAllowed(field.valueType, field.operators[k]);
    AllowedIsNotEmpty(field.valueType, field.operators[k]);
  }

  /** The parameters some request can use are exactly the documented ones and the explicit form of equality. */
  lemma AcceptedIsDocumented(parsers: Parsers, definition: Definition, key: string)
    requires ValidDefinition(definition) && Productive(parsers)
    ensures Acceptable(parsers, definition, key) <==> Documented(definition, key) || ExplicitEq(definition, key)
  {
    hide Documented, ExplicitEq, Productive, ValidDefinition, Parsed, AreKeys;
    if Acceptable(parsers, definition, key) {
      var values: Values, keys: seq<string> :|
        AreKeys(keys, values) && key in values && Parsed(parsers, values, keys, definition).Ok?;
      AcceptedKeyIsDocumented(parsers, values, keys, definition, key);
    }
    if Documented(definition, key) || ExplicitEq(definition, key) {
      DocumentedKeyIsAcceptable(parsers, definition, key);
    }
  }

  /** The documented bounds of `per_page` are the accepted ones. */
  lemma PerPageBoundsAreDocumented(values: Values, definition: Definition, raw: string)
    requires ValidDefinition(definition) && PER_PAGE in values && values[PER_PAGE] == [raw]
    ensures var parameter := DocumentedParameters(definition)[1];
            var number := Numbers.ParseInt64(raw);
            parameter.name == PER_PAGE && parameter.schema.minimum.Some? && parameter.schema.maximum.Some?
            && (PerPageOf(values, definition).Ok?
                <==> number.Some? && parameter.schema.minimum.value <= number.value <= parameter.schema.maximum.value)
            && (PerPageOf(values, definition).Ok? ==> PerPageOf(values, definition) == Ok(number.value))
  {
    hide ValidFilters, ValidSortable, ValidDefault, FilterParameters;
  }

  /** The documented schema of a filter tells its type. */
  lemma SchemaTellsTheType(valueType: ValueType, operator: Operator)
    requires KnownType(valueType) && operator != "in"
    ensures var schema := QuerySchema(valueType, operator);
            && (schema.kind == "boolean" <==> valueType == "bool")
            && (schema.kind == "integer" <==> valueType == "int")
            && (schema.kind == "number" <==> valueType == "float")
            && (schema.format == "uuid" <==> valueType == "uuid")
            && (schema.format == "date" <==> valueType == "date")
            && (schema.format == "date-time" <==> valueType == "timestamp")
            && (schema.kind == "string" <==> valueType in ["string", "uuid", "date", "timestamp"])
  {
  }
}
