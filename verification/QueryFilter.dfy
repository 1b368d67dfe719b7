/** Filter keys and filter values of query/query.go. */
module QueryFilter {
  import opened Text
  import opened QueryDefinition
  import Numbers

  // ------------------------------------------------------------------------------------------------ keys

  predicate IsLowerWord(s: string) {
    s != "" && forall i :: 0 <= i < |s| ==> Lower(s[i])
  }

  const OPEN := "filter["

  /** The prefix of `s` before the first `]`, or all of `s`. */
  function UpToBracket(s: string): (k: nat)
    ensures k <= |s| && (forall i :: 0 <= i < k ==> s[i] != ']') && (k < |s| ==> s[k] == ']')
  {
    if s == "" || s[0] == ']' then 0 else 1 + UpToBracket(s[1..])
  }

  /** The submatches of `filterPattern`: the name, and the operator or "". */
  function MatchFilter(key: string): Option<(string, string)> {
    if |key| < |OPEN| || key[..|OPEN|] != OPEN then None
    else
      var rest := key[|OPEN|..];
      var k := UpToBracket(rest);
      if k == |rest| || !IsApiName(rest[..k]) then None
      else
        var tail := rest[k + 1..];
        if tail == "" then Some((rest[..k], ""))
        else if |tail| > 2 && tail[0] == '[' && tail[|tail| - 1] == ']' && IsLowerWord(tail[1..|tail| - 1]) then
          Some((rest[..k], tail[1..|tail| - 1]))
        else None
  }

  /** How a filter key is written. */
  function FilterKey(name: string, operator: string): string {
    OPEN + name + "]" + (if operator == "" then "" else "[" + operator + "]")
  }

  lemma {:induction false} BracketAt(name: string, tail: string)
    requires forall i :: 0 <= i < |name| ==> name[i] != ']'
    ensures UpToBracket(name + "]" + tail) == |name|
  {
    var s := name + "]" + tail;
    assert forall i :: 0 <= i < |name| ==> s[i] == name[i];
    assert s[|name|] == ']';
  }

  lemma KeyParts(name: string, operator: string)
    ensures var key := FilterKey(name, operator);
            var tail := if operator == "" then "" else "[" + operator + "]";
            |key| >= |OPEN| && key[..|OPEN|] == OPEN && key[|OPEN|..] == name + "]" + tail
  {
    var tail := if operator == "" then "" else "[" + operator + "]";
    assert FilterKey(name, operator) == OPEN + (name + "]" + tail);
  }

  lemma ApiNameHasNoBracket(name: string)
    requires IsApiName(name)
    ensures forall i :: 0 <= i < |name| ==> name[i] != ']'
  {
    assert forall i :: 0 <= i < |name| ==> NameChar(name[i]);
  }

  /** Reading a written key gives back its parts. */
  lemma KeyIsRead(name: string, operator: string)
    requires IsApiName(name) && (operator == "" || IsLowerWord(operator))
    ensures MatchFilter(FilterKey(name, operator)) == Some((name, operator))
  {
    hide IsApiName, IsLowerWord;
    KeyParts(name, operator);
    ApiNameHasNoBracket(name);
    var tail := if operator == "" then "" else "[" + operator + "]";
    BracketAt(name, tail);
    var rest := name + "]" + tail;
    assert rest[..|name|] == name && rest[|name| + 1..] == tail;
    if operator != "" {
      assert tail[1..|tail| - 1] == operator;
    }
  }

  /** A key that is read is written from its parts. */
  lemma ReadKeyIsWritten(key: string)
    requires MatchFilter(key).Some?
    ensures var (name, operator) := MatchFilter(key).value;
            IsApiName(name) && (operator == "" || IsLowerWord(operator)) && key == FilterKey(name, operator)
  {
    hide IsApiName, IsLowerWord;
    var rest := key[|OPEN|..];
    var k := UpToBracket(rest);
    var tail := rest[k + 1..];
    assert key == OPEN + rest && rest == rest[..k] + "]" + tail;
    if tail != "" {
      assert tail == "[" + tail[1..|tail| - 1] + "]";
      assert tail[1..|tail| - 1] != "";
    }
    KeyParts(rest[..k], if tail == "" then "" else tail[1..|tail| - 1]);
  }

  // ---------------------------------------------------------------------------------------------- values

  datatype Value =
    | Str(text: string)
    | Boolean(flag: bool)
    | Integer(number: int)
    | Floating(bits: nat)
    | Uuid(id: nat)
    | Date(day: int)
    | Timestamp(instant: int)
    | List(items: seq<Value>)

  /** The library parsers for floats, UUIDs, dates and timestamps. */
  datatype Parsers = Parsers(
    float: string -> Option<nat>, uuid: string -> Option<nat>, date: string -> Option<int>, timestamp: string -> Option<int>)

  datatype ValueError = NoValue | EmptyItem | NotExactlyOne | Malformed

  function ParseScalar(parsers: Parsers, valueType: ValueType, raw: string): Result<Value, ValueError> {
    if valueType == STRING then Ok(Str(raw))
    else if valueType == BOOL then
      if raw != "true" && raw != "false" then Err(Malformed) else Ok(Boolean(raw == "true"))
    else if valueType == INT then
      var number := Numbers.ParseInt64(raw);
      if number.Some? then Ok(Integer(number.value)) else Err(Malformed)
    else if valueType == FLOAT then
      var bits := parsers.float(raw);
      if bits.Some? then Ok(Floating(bits.value)) else Err(Malformed)
    else if valueType == UUID then
      var id := parsers.uuid(raw);
      if id.Some? then Ok(Uuid(id.value)) else Err(Malformed)
    else if valueType == DATE then
      var day := parsers.date(raw);
      if day.Some? then Ok(Date(day.value)) else Err(Malformed)
    else if valueType == TIMESTAMP then
      var instant := parsers.timestamp(raw);
      if instant.Some? then Ok(Timestamp(instant.value)) else Err(Malformed)
    else Err(Malformed)
  }

  /** All comma-separated parts of all the values, in order. */
  function Items(rawValues: seq<string>): seq<string> {
    if rawValues == [] then [] else Items(rawValues[..|rawValues| - 1]) + SplitOn(rawValues[|rawValues| - 1], ',')
  }

  function ParseItems(parsers: Parsers, valueType: ValueType, items: seq<string>, i: nat): Result<seq<Value>, ValueError>
    requires i <= |items|
    decreases |items| - i
  {
    if i == |items| then Ok([])
    else if items[i] == "" then Err(EmptyItem)
    else
      match ParseScalar(parsers, valueType, items[i])
      case Err(error) => Err(error)
      case Ok(value) =>
        match ParseItems(parsers, valueType, items, i + 1)
        case Err(error) => Err(error)
        case Ok(rest) => Ok([value] + rest)
  }

  function FilterValue(parsers: Parsers, valueType: ValueType, operator: Operator, rawValues: seq<string>): Result<Value, ValueError> {
    if operator == IN then
      var items := Items(rawValues);
      if items == [] then Err(NoValue)
      else
        match ParseItems(parsers, valueType, items, 0)
        case Err(error) => Err(error)
        case Ok(values) => Ok(List(values))
    else if |rawValues| != 1 || rawValues[0] == "" then Err(NotExactlyOne)
    else ParseScalar(parsers, valueType, rawValues[0])
  }

  lemma PrependedStep(parsers: Parsers, valueType: ValueType, items: seq<string>, i: nat, done: seq<Value>, value: Value)
    requires i < |items| && items[i] != "" && ParseScalar(parsers, valueType, items[i]) == Ok(value)
    ensures Prepended(done, ParseItems(parsers, valueType, items, i))
            == Prepended(done + [value], ParseItems(parsers, valueType, items, i + 1))
  {
    hide ParseScalar;
    var rest := ParseItems(parsers, valueType, items, i + 1);
    assert rest.Ok? ==> done + ([value] + rest.value) == (done + [value]) + rest.value;
  }

  method ParseFilterValue(parsers: Parsers, valueType: ValueType, operator: Operator, rawValues: seq<string>)
    returns (outcome: Result<Value, ValueError>)
    ensures outcome == FilterValue(parsers, valueType, operator, rawValues)
  {
    hide ParseScalar, SplitOn;
    if operator == IN {
      var parts: seq<string> := [];
      for i := 0 to |rawValues|
        invariant parts == Items(rawValues[..i])
      {
        parts := parts + SplitOn(rawValues[i], ',');
        assert rawValues[..i + 1][..i] == rawValues[..i];
      }
      assert rawValues[..|rawValues|] == rawValues;
      if |parts| == 0 {
        return Err(NoValue);
      }
      var parsed := ParseParts(parsers, valueType, parts);
      if parsed.Err? {
        return Err(parsed.error);
      }
      return Ok(List(parsed.value));
    }
    if |rawValues| != 1 || rawValues[0] == "" {
      return Err(NotExactlyOne);
    }
    outcome := ParseScalar(parsers, valueType, rawValues[0]);
  }

  method ParseParts(parsers: Parsers, valueType: ValueType, parts: seq<string>)
    returns (outcome: Result<seq<Value>, ValueError>)
    ensures outcome == ParseItems(parsers, valueType, parts, 0)
  {
    hide ParseScalar;
    var parsed: seq<Value> := [];
    PrependedNothing(ParseItems(parsers, valueType, parts, 0));
    for i := 0 to |parts|
      invariant ParseItems(parsers, valueType, parts, 0) == Prepended(parsed, ParseItems(parsers, valueType, parts, i))
    {
      if parts[i] == "" {
        return Err(EmptyItem);
      }
      var value := ParseScalar(parsers, valueType, parts[i]);
      if value.Err? {
        return Err(value.error);
      }
      PrependedStep(parsers, valueType, parts, i, parsed, value.value);
      parsed := parsed + [value.value];
    }
    assert parsed + [] == parsed;
    outcome := Ok(parsed);
  }

  // ---------------------------------------------------------------------------------------- typed values

  predicate ScalarOf(valueType: ValueType, value: Value) {
    && (valueType == STRING ==> value.Str?)
    && (valueType == BOOL ==> value.Boolean?)
    && (valueType == INT ==> value.Integer? && Numbers.MIN_INT64 <= value.number <= Numbers.MAX_INT64)
    && (valueType == FLOAT ==> value.Floating?)
    && (valueType == UUID ==> value.Uuid?)
    && (valueType == DATE ==> value.Date?)
    && (valueType == TIMESTAMP ==> value.Timestamp?)
  }

  /** A value of the field's type, or a non-empty list of them for `in`. */
  predicate TypedFor(valueType: ValueType, operator: Operator, value: Value) {
    if operator == IN then
      value.List? && value.items != [] && forall i :: 0 <= i < |value.items| ==> ScalarOf(valueType, value.items[i])
    else ScalarOf(valueType, value)
  }

  lemma {:induction false} ItemsAreTyped(parsers: Parsers, valueType: ValueType, items: seq<string>, i: nat)
    requires i <= |items|
    ensures var parsed := ParseItems(parsers, valueType, items, i);
            parsed.Ok? ==> |parsed.value| == |items| - i
                           && forall k :: 0 <= k < |parsed.value| ==> ScalarOf(valueType, parsed.value[k])
    decreases |items| - i
  {
    hide ParseScalar, ScalarOf;
    if i < |items| {
      ItemsAreTyped(parsers, valueType, items, i + 1);
      ScalarIsTyped(parsers, valueType, items[i]);
    }
  }

  lemma ScalarIsTyped(parsers: Parsers, valueType: ValueType, raw: string)
    ensures ParseScalar(parsers, valueType, raw).Ok? ==> ScalarOf(valueType, ParseScalar(parsers, valueType, raw).value)
  {
  }

  lemma ValueIsTyped(parsers: Parsers, valueType: ValueType, operator: Operator, rawValues: seq<string>)
    ensures var parsed := FilterValue(parsers, valueType, operator, rawValues);
            parsed.Ok? ==> TypedFor(valueType, operator, parsed.value)
  {
    hide ParseScalar, ScalarOf, Items;
    if operator == IN {
      if Items(rawValues) != [] {
        ItemsAreTyped(parsers, valueType, Items(rawValues), 0);
      }
    } else if |rawValues| == 1 {
      ScalarIsTyped(parsers, valueType, rawValues[0]);
    }
  }
}
