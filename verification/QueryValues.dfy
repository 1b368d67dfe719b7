/** Which values a request's texts stand for: integers in decimal, flags as words, text as itself, lists by their commas. */
module QueryValues {
  import opened Text
  import opened QueryDefinition
  import opened QueryFilter
  import opened QueryParse
  import opened QueryLaws
  import Numbers

  // -------------------------------------------------------------------------------------------- decimals

  function DigitOf(d: nat): char
    requires d < 10
  {
    "0123456789"[d]
  }

  /** The decimal numeral of a number. */
  function PrintNat(n: nat): string {
    if n < 10 then [DigitOf(n)] else PrintNat(n / 10) + [DigitOf(n % 10)]
  }

  function PrintInt(n: int): string {
    if n < 0 then "-" + PrintNat(-n) else PrintNat(n)
  }

  /** Without leading zeros, but for the last digit. */
  function WithoutZeros(s: string): string {
    if |s| > 1 && s[0] == '0' then WithoutZeros(s[1..]) else s
  }

  /** The usual way to write a signed numeral: no plus sign, no leading zeros, no negative zero. */
  function Usual(s: string): string {
    if s != "" && s[0] == '-' then (if WithoutZeros(s[1..]) == "0" then "0" else "-" + WithoutZeros(s[1..]))
    else if s != "" && s[0] == '+' then WithoutZeros(s[1..])
    else WithoutZeros(s)
  }

  lemma DigitIs(d: nat)
    requires d < 10
    ensures '0' <= DigitOf(d) <= '9' && DigitOf(d) as int - '0' as int == d
    ensures DigitOf(d) == '0' <==> d == 0
  {
  }

  lemma DigitBack(c: char)
    requires '0' <= c <= '9'
    ensures DigitOf(c as int - '0' as int) == c
  {
    DigitIs(c as int - '0' as int);
  }

  /** A numeral is read as its number. */
  lemma {:induction false} NumeralIsRead(n: nat)
    ensures Numbers.IsDecimal(PrintNat(n)) && Numbers.DecimalValue(PrintNat(n)) == n
    ensures PrintNat(n) == "0" <==> n == 0
    decreases n
  {
    hide DigitOf;
    DigitIs(n % 10);
    if n < 10 {
      var s := PrintNat(n);
      assert s[..0] == "" && s[0] == DigitOf(n);
    } else {
      NumeralIsRead(n / 10);
      var s := PrintNat(n);
      assert s[..|s| - 1] == PrintNat(n / 10) && |s| > 1;
    }
  }

  lemma {:induction false} ZerosAppend(s: string, c: char)
    requires s != ""
    ensures WithoutZeros(s + [c]) == if WithoutZeros(s) == "0" then [c] else WithoutZeros(s) + [c]
    decreases |s|
  {
    var t := s + [c];
    assert t[0] == s[0] && t[1..] == s[1..] + [c];
    if |s| == 1 {
      assert t[1..] == [c];
      assert s[0] == '0' ==> s == "0";
    } else if s[0] == '0' {
      ZerosAppend(s[1..], c);
    }
  }

  /** The numeral of the number that digits are read as is these digits without leading zeros. */
  lemma {:induction false} ReadIsNumeral(s: string)
    requires Numbers.IsDecimal(s)
    ensures PrintNat(Numbers.DecimalValue(s)) == WithoutZeros(s)
    decreases |s|
  {
    hide DigitOf;
    var n := |s| - 1;
    var c, v := s[n], Numbers.DecimalValue(s);
    DigitBack(c);
    assert s == s[..n] + [c];
    if n == 0 {
      assert s[..0] == "" && v == c as int - '0' as int;
    } else {
      var u := Numbers.DecimalValue(s[..n]);
      ReadIsNumeral(s[..n]);
      NumeralIsRead(u);
      ZerosAppend(s[..n], c);
      assert v / 10 == u && v % 10 == c as int - '0' as int;
    }
  }

  /** A text with an optional sign and digits. */
  predicate IsNumeral(s: string) {
    Numbers.IsDecimal(if Numbers.IsSigned(s) then s[1..] else s)
  }

  predicate InRange(n: int) {
    -0x8000_0000_0000_0000 <= n < 0x8000_0000_0000_0000
  }

  /** A number is read from exactly the numerals that, written the usual way, are its own. */
  lemma IntegerIsRead(s: string, n: int)
    ensures Numbers.ParseInt64(s) == Some(n) <==> IsNumeral(s) && Usual(s) == PrintInt(n) && InRange(n)
  {
    hide PrintNat, WithoutZeros, Numbers.DecimalValue;
    if IsNumeral(s) {
      var digits := if Numbers.IsSigned(s) then s[1..] else s;
      var v := Numbers.DecimalValue(digits);
      var m: nat := if n < 0 then -n else n;
      ReadIsNumeral(digits);
      NumeralIsRead(v);
      SameNumeral(v, m);
    }
  }

  /** Numerals tell numbers and signs apart. */
  lemma SameNumeral(a: nat, b: nat)
    ensures PrintNat(a) == PrintNat(b) <==> a == b
    ensures "-" + PrintNat(a) == "-" + PrintNat(b) <==> a == b
    ensures "-" + PrintNat(a) != PrintNat(b) && "-" + PrintNat(b) != PrintNat(a) && "-" + PrintNat(b) != "0"
  {
    hide PrintNat;
    NumeralIsRead(a);
    NumeralIsRead(b);
    NumeralHasNoSign(a);
    NumeralHasNoSign(b);
    assert ("-" + PrintNat(a))[1..] == PrintNat(a) && ("-" + PrintNat(b))[1..] == PrintNat(b);
    assert ("-" + PrintNat(a))[0] == '-' == ("-" + PrintNat(b))[0] && "0"[0] == '0';
  }

  lemma NumeralHasNoSign(n: nat)
    ensures PrintNat(n) != "" && PrintNat(n)[0] != '-'
  {
    NumeralIsRead(n);
  }

  lemma PrintedIntegerIsRead(n: int)
    requires InRange(n)
    ensures Numbers.ParseInt64(PrintInt(n)) == Some(n)
  {
    var m: nat := if n < 0 then -n else n;
    NumeralIsRead(m);
    ReadIsNumeral(PrintNat(m));
    NumeralHasNoSign(m);
    assert ("-" + PrintNat(m))[1..] == PrintNat(m);
    hide PrintNat;
    IntegerIsRead(PrintInt(n), n);
  }

  // --------------------------------------------------------------------------------------------- scalars

  /** The value that a text stands for as a value of the type. */
  predicate StandsFor(parsers: Parsers, valueType: ValueType, raw: string, value: Value) {
    || (valueType == "string" && value == Str(raw))
    || (valueType == "bool" && raw == "true" && value == Boolean(true))
    || (valueType == "bool" && raw == "false" && value == Boolean(false))
    || (valueType == "int" && value.Integer? && IsNumeral(raw) && Usual(raw) == PrintInt(value.number) && InRange(value.number))
    || (valueType == "float" && value.Floating? && parsers.float(raw) == Some(value.bits))
    || (valueType == "uuid" && value.Uuid? && parsers.uuid(raw) == Some(value.id))
    || (valueType == "date" && value.Date? && parsers.date(raw) == Some(value.day))
    || (valueType == "timestamp" && value.Timestamp? && parsers.timestamp(raw) == Some(value.instant))
  }

  /** A text is read as exactly the value it stands for. */
  lemma ScalarIsRead(parsers: Parsers, valueType: ValueType, raw: string, value: Value)
    ensures ParseScalar(parsers, valueType, raw) == Ok(value) <==> StandsFor(parsers, valueType, raw, value)
  {
    hide Usual, PrintInt, IsNumeral, Numbers.ParseInt64, InRange;
    if value.Integer? {
      IntegerIsRead(raw, value.number);
    }
    if valueType == INT && Numbers.ParseInt64(raw).Some? {
      IntegerIsRead(raw, Numbers.ParseInt64(raw).value);
    }
  }

  predicate IsOwn(value: Value) {
    value.Str? || value.Boolean? || value.Integer?
  }

  /** How the program's own types are written. */
  function PrintScalar(value: Value): string
    requires IsOwn(value)
  {
    match value
    case Str(text) => text
    case Boolean(flag) => if flag then "true" else "false"
    case Integer(number) => PrintInt(number)
  }

  predicate Printable(valueType: ValueType, value: Value) {
    || (valueType == "string" && value.Str?)
    || (valueType == "bool" && value.Boolean?)
    || (valueType == "int" && value.Integer? && InRange(value.number))
  }

  /** Every printed value is read back. */
  lemma PrintedScalarIsRead(parsers: Parsers, valueType: ValueType, value: Value)
    requires Printable(valueType, value)
    ensures ParseScalar(parsers, valueType, PrintScalar(value)) == Ok(value)
  {
    hide PrintInt, Numbers.ParseInt64;
    if value.Integer? {
      PrintedIntegerIsRead(value.number);
    }
  }

  // ----------------------------------------------------------------------------------------------- lists

  predicate NoCommas(texts: seq<string>) {
    forall i :: 0 <= i < |texts| ==> ',' !in texts[i]
  }

  lemma {:induction false} JoinAppend(a: seq<string>, b: seq<string>, separator: string)
    requires a != [] && b != []
    ensures Join(a + b, separator) == Join(a, separator) + separator + Join(b, separator)
    decreases |a|
  {
    assert (a + b)[0] == a[0] && (a + b)[1..] == a[1..] + b;
    if |a| > 1 {
      JoinAppend(a[1..], b, separator);
      assert a[0] + separator + (Join(a[1..], separator) + separator + Join(b, separator))
          == a[0] + separator + Join(a[1..], separator) + separator + Join(b, separator);
    } else {
      assert a[1..] + b == b;
    }
  }

  /** The items of several parameters are the parts of all of them together, at the commas. */
  lemma {:induction false} ItemsAreParts(rawValues: seq<string>)
    requires rawValues != []
    ensures Items(rawValues) != [] && NoCommas(Items(rawValues)) && Join(Items(rawValues), ",") == Join(rawValues, ",")
    decreases |rawValues|
  {
    hide SplitOn, Join;
    var n := |rawValues| - 1;
    var last := SplitOn(rawValues[n], ',');
    JoinSplitOn(rawValues[n], ',');
    assert rawValues == rawValues[..n] + [rawValues[n]];
    JoinOne(rawValues[n]);
    if n == 0 {
      assert Items(rawValues[..0]) == [] && [] + last == last && rawValues == [rawValues[n]];
    } else {
      ItemsAreParts(rawValues[..n]);
      JoinAppend(Items(rawValues[..n]), last, ",");
      JoinAppend(rawValues[..n], [rawValues[n]], ",");
    }
  }

  lemma JoinOne(text: string)
    ensures Join([text], ",") == text
  {
  }

  /** Texts, one for each value, not empty and standing for it. */
  predicate AllStandFor(parsers: Parsers, valueType: ValueType, texts: seq<string>, values: seq<Value>) {
    |texts| == |values| && forall i :: 0 <= i < |texts| ==> texts[i] != "" && StandsFor(parsers, valueType, texts[i], values[i])
  }

  lemma {:induction false} ItemsAreRead(parsers: Parsers, valueType: ValueType, items: seq<string>, i: nat, values: seq<Value>)
    requires i <= |items|
    ensures ParseItems(parsers, valueType, items, i) == Ok(values) <==> AllStandFor(parsers, valueType, items[i..], values)
    decreases |items| - i
  {
    hide ParseScalar, StandsFor;
    if i < |items| {
      var parsed := ParseScalar(parsers, valueType, items[i]);
      var rest := ParseItems(parsers, valueType, items, i + 1);
      assert items[i..][0] == items[i] && items[i..][1..] == items[i + 1..];
      if values != [] {
        ScalarIsRead(parsers, valueType, items[i], values[0]);
        ItemsAreRead(parsers, valueType, items, i + 1, values[1..]);
        StandStep(parsers, valueType, items[i..], values);
        if items[i] != "" && parsed.Ok? && rest.Ok? {
          assert ([parsed.value] + rest.value)[0] == parsed.value && ([parsed.value] + rest.value)[1..] == rest.value;
          assert [parsed.value] + rest.value == values ==> rest.value == values[1..] && parsed.value == values[0];
          assert values == [values[0]] + values[1..];
        }
      }
    } else {
      assert items[i..] == [];
    }
  }

  lemma StandStep(parsers: Parsers, valueType: ValueType, texts: seq<string>, values: seq<Value>)
    requires texts != [] && values != []
    ensures AllStandFor(parsers, valueType, texts, values)
            <==> texts[0] != "" && StandsFor(parsers, valueType, texts[0], values[0])
                 && AllStandFor(parsers, valueType, texts[1..], values[1..])
  {
    hide StandsFor;
    if AllStandFor(parsers, valueType, texts[1..], values[1..]) && texts[0] != "" && StandsFor(parsers, valueType, texts[0], values[0]) {
      forall i | 0 <= i < |texts| ensures texts[i] != "" && StandsFor(parsers, valueType, texts[i], values[i]) {
        assert i > 0 ==> texts[i] == texts[1..][i - 1] && values[i] == values[1..][i - 1];
      }
    }
  }

  /** What the parameters of one filter stand for: for `in` a list of what the parts between the commas stand for, and
      otherwise one value, given once. */
  ghost predicate FilterStandsFor(parsers: Parsers, valueType: ValueType, operator: Operator, rawValues: seq<string>, value: Value) {
    if operator == "in" then
      rawValues != [] && value.List?
      && exists texts :: NoCommas(texts) && texts != [] && Join(texts, ",") == Join(rawValues, ",")
                         && AllStandFor(parsers, valueType, texts, value.items)
    else |rawValues| == 1 && rawValues[0] != "" && StandsFor(parsers, valueType, rawValues[0], value)
  }

  lemma PartsAreUnique(a: seq<string>, b: seq<string>)
    requires NoCommas(a) && NoCommas(b) && a != [] && b != [] && Join(a, ",") == Join(b, ",")
    ensures a == b
  {
    SplitOnJoin(a, ',');
    SplitOnJoin(b, ',');
  }

  /** A filter's parameters are read as exactly the value they stand for. */
  lemma FilterIsRead(parsers: Parsers, valueType: ValueType, operator: Operator, rawValues: seq<string>, value: Value)
    ensures FilterValue(parsers, valueType, operator, rawValues) == Ok(value)
            <==> FilterStandsFor(parsers, valueType, operator, rawValues, value)
  {
    hide ParseScalar, StandsFor, Join, ParseItems, Items, AllStandFor, NoCommas;
    if operator == IN {
      if rawValues == [] {
        NoItems();
      } else {
        ItemsAreParts(rawValues);
        var items := Items(rawValues);
        assert items[0..] == items;
        if value.List? {
          ItemsAreRead(parsers, valueType, items, 0, value.items);
          forall texts | NoCommas(texts) && texts != [] && Join(texts, ",") == Join(rawValues, ",") ensures texts == items {
            PartsAreUnique(texts, items);
          }
        }
      }
    } else if |rawValues| == 1 {
      ScalarIsRead(parsers, valueType, rawValues[0], value);
    }
  }

  lemma NoItems()
    ensures Items([]) == []
  {
  }

  function PrintAll(values: seq<Value>): (texts: seq<string>)
    requires forall i :: 0 <= i < |values| ==> IsOwn(values[i])
    ensures |texts| == |values| && forall i :: 0 <= i < |texts| ==> texts[i] == PrintScalar(values[i])
  {
    seq(|values|, i requires 0 <= i < |values| => PrintScalar(values[i]))
  }

  /** A list written with commas is read back, if no text in it is empty or has a comma. */
  lemma PrintedListIsRead(parsers: Parsers, valueType: ValueType, values: seq<Value>)
    requires values != [] && forall i :: 0 <= i < |values| ==> IsOwn(values[i]) && Printable(valueType, values[i])
    requires forall i :: 0 <= i < |values| ==> PrintScalar(values[i]) != "" && ',' !in PrintScalar(values[i])
    ensures FilterValue(parsers, valueType, "in", [Join(PrintAll(values), ",")]) == Ok(List(values))
  {
    hide ParseScalar, StandsFor, FilterValue, PrintScalar, Join;
    var texts := PrintAll(values);
    forall i | 0 <= i < |values| ensures StandsFor(parsers, valueType, texts[i], values[i]) {
      PrintedScalarIsRead(parsers, valueType, values[i]);
      ScalarIsRead(parsers, valueType, texts[i], values[i]);
    }
    JoinOne(Join(texts, ","));
    assert NoCommas(texts) && AllStandFor(parsers, valueType, texts, values);
    FilterIsRead(parsers, valueType, "in", [Join(texts, ",")], List(values));
  }

  // -------------------------------------------------------------------------------------------- requests

  /** A number parameter of the request: the one written, when it is given, and otherwise the default. */
  predicate NumberGiven(values: Values, parameter: string, default: int, number: int) {
    if parameter in values then
      |values[parameter]| == 1 && IsNumeral(values[parameter][0]) && Usual(values[parameter][0]) == PrintInt(number) && 1 <= number
    else number == default
  }

  lemma PositiveIsRead(name: string, raw: string)
    ensures var parsed := PositiveInteger(name, raw);
            parsed.Ok? ==> IsNumeral(raw) && Usual(raw) == PrintInt(parsed.value) && 1 <= parsed.value
  {
    hide Usual, PrintInt, IsNumeral, Numbers.ParseInt64;
    if Numbers.ParseInt64(raw).Some? {
      IntegerIsRead(raw, Numbers.ParseInt64(raw).value);
    }
  }

  lemma NumbersAreRead(values: Values, definition: Definition)
    ensures PageOf(values, definition).Ok? ==> NumberGiven(values, "page", definition.defaultPage, PageOf(values, definition).value)
    ensures PerPageOf(values, definition).Ok? ==> NumberGiven(values, "per_page", definition.defaultPerPage, PerPageOf(values, definition).value)
  {
    hide Usual, PrintInt, IsNumeral, PositiveInteger;
    EmptyIsNoNumeral();
    if First(values, PAGE).Some? {
      PositiveIsRead(PAGE, First(values, PAGE).value);
    }
    if First(values, PER_PAGE).Some? {
      PositiveIsRead(PER_PAGE, First(values, PER_PAGE).value);
    }
  }

  lemma EmptyIsNoNumeral()
    ensures !IsNumeral("")
  {
  }

  /** The filter of a key: the key is its field's name and its operator as they are written, and the value is the one that
      the parameters stand for. */
  ghost predicate FilterWritten(parsers: Parsers, key: string, rawValues: seq<string>, filter: Filter) {
    && (key == "filter[" + filter.field.name + "][" + filter.operator + "]"
        || (filter.operator == "eq" && key == "filter[" + filter.field.name + "]"))
    && FilterStandsFor(parsers, filter.field.valueType, filter.operator, rawValues, filter.value)
  }

  lemma FilterOfIsWritten(parsers: Parsers, filters: seq<Field>, key: string, rawValues: seq<string>)
    ensures var parsed := FilterOf(parsers, filters, key, rawValues);
            parsed.Ok? ==> FilterWritten(parsers, key, rawValues, parsed.value)
  {
    hide MatchFilter, FilterValue, FieldNamed, FilterStandsFor, IsApiName, IsLowerWord;
    var parsed := FilterOf(parsers, filters, key, rawValues);
    if parsed.Ok? {
      ReadKeyIsWritten(key);
      var (name, suffix) := MatchFilter(key).value;
      FieldNamedIs(filters, name);
      var filter := parsed.value;
      FilterIsRead(parsers, filter.field.valueType, filter.operator, rawValues, filter.value);
      assert OPEN == "filter[";
      if suffix == "" {
        assert key == "filter[" + name + "]" + "";
      } else {
        assert "filter[" + name + "]" + ("[" + suffix + "]") == "filter[" + name + "][" + suffix + "]";
      }
    }
  }

  /** In an accepted request everything is what its text says: the page and the page size are the numbers written or the
      defaults, the search is the text given, and each filter key's filter has the field, the operator and the value that
      key and parameters stand for. */
  lemma AcceptedRequestMeansItsText(parsers: Parsers, values: Values, keys: seq<string>, definition: Definition)
    requires AreKeys(keys, values)
    ensures var parsed := Parsed(parsers, values, keys, definition);
            parsed.Ok? ==>
              && NumberGiven(values, "page", definition.defaultPage, parsed.value.page)
              && NumberGiven(values, "per_page", definition.defaultPerPage, parsed.value.perPage)
              && (if "search" in values then values["search"] == [parsed.value.search] else parsed.value.search == "")
              && |parsed.value.filters| == |FilterKeys(keys)|
              && forall k :: 0 <= k < |FilterKeys(keys)| ==>
                   FilterKeys(keys)[k] in values
                   && FilterWritten(parsers, FilterKeys(keys)[k], values[FilterKeys(keys)[k]], parsed.value.filters[k])
  {
    hide FirstFault, PageOf, PerPageOf, OrderOf, FiltersOf, FilterOf, FilterWritten, NumberGiven, FilterKeys, ParamsFit, ValidDefinition;
    var parsed := Parsed(parsers, values, keys, definition);
    if parsed.Ok? {
      NumbersAreRead(values, definition);
      AcceptedRequestFits(parsers, values, keys, definition);
      forall k | 0 <= k < |FilterKeys(keys)|
        ensures FilterKeys(keys)[k] in values
                && FilterWritten(parsers, FilterKeys(keys)[k], values[FilterKeys(keys)[k]], parsed.value.filters[k])
      {
        FilterOfIsWritten(parsers, definition.filters, FilterKeys(keys)[k], values[FilterKeys(keys)[k]]);
      }
    }
  }

  /** The documented defaults: page 1 of 25 rows, and never more than 100 rows a page. */
  lemma DocumentedDefaults(parsers: Parsers, values: Values, keys: seq<string>, declared: Definition)
    requires AreKeys(keys, values) && declared.defaultPage == 0 && declared.defaultPerPage == 0 && declared.maxPerPage == 0
    ensures var parsed := Parsed(parsers, values, keys, Defaulted(declared));
            parsed.Ok? ==>
              && ("page" !in values ==> parsed.value.page == 1)
              && ("per_page" !in values ==> parsed.value.perPage == 25)
              && parsed.value.perPage <= 100
  {
    hide Parsed, FilterWritten, FilterKeys, FilterOf, FilterFits, OrderFits, ValidDefinition, Usual, PrintInt, FieldsWithDefaults;
    AcceptedRequestMeansItsText(parsers, values, keys, Defaulted(declared));
    AcceptedRequestFits(parsers, values, keys, Defaulted(declared));
  }

  /** A filter declared without operators has equality, and any other the ones declared. */
  lemma UndeclaredOperatorIsEquality(declared: Definition, i: nat)
    requires i < |declared.filters|
    ensures |Defaulted(declared).filters| == |declared.filters|
    ensures Defaulted(declared).filters[i]
            == declared.filters[i].(operators := if declared.filters[i].operators == [] then ["eq"] else declared.filters[i].operators)
  {
  }

  /** The operators that a value type has. */
  predicate OperatorOf(valueType: ValueType, operator: Operator) {
    || operator in ["eq", "neq", "in"]
    || (operator == "contains" && valueType == "string")
    || (operator in ["gt", "gte", "lt", "lte"] && valueType in ["string", "int", "float", "date", "timestamp"])
  }

  lemma AllowedIsOperator(valueType: ValueType, operator: Operator)
    requires KnownType(valueType)
    ensures OperatorAllowed(valueType, operator) <==> OperatorOf(valueType, operator)
  {
  }

  /** A definition is accepted only if every operator of every filter is one of its type, and so is that of every filter of an
      accepted request. */
  lemma AcceptedOperatorsFitTheirTypes(parsers: Parsers, values: Values, keys: seq<string>, definition: Definition)
    requires AreKeys(keys, values)
    ensures var parsed := Parsed(parsers, values, keys, definition);
            parsed.Ok? ==> forall i :: 0 <= i < |parsed.value.filters| ==>
                             var filter := parsed.value.filters[i];
                             filter.operator in filter.field.operators
                             && forall k :: 0 <= k < |filter.field.operators| ==>
                                  OperatorOf(filter.field.valueType, filter.field.operators[k])
  {
    hide Parsed, FilterKeys, FilterOf, OrderFits, TypedFor, OperatorAllowed, OperatorOf, IsApiName, IsColumn, KnownType;
    var parsed := Parsed(parsers, values, keys, definition);
    AcceptedRequestFits(parsers, values, keys, definition);
    if parsed.Ok? {
      forall i, k | 0 <= i < |parsed.value.filters| && 0 <= k < |parsed.value.filters[i].field.operators|
        ensures OperatorOf(parsed.value.filters[i].field.valueType, parsed.value.filters[i].field.operators[k])
      {
        var field := parsed.value.filters[i].field;
        assert FilterFits(parsed.value.filters[i], definition.filters);
        var j :| 0 <= j < |definition.filters| && definition.filters[j] == field;
        assert ValidField(field);
        AllowedIsOperator(field.valueType, field.operators[k]);
      }
      forall i | 0 <= i < |parsed.value.filters| ensures parsed.value.filters[i].operator in parsed.value.filters[i].field.operators {
        assert FilterFits(parsed.value.filters[i], definition.filters);
      }
    }
  }
}
