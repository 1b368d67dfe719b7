/** The field grammar of generate/schema.go: `name:type[:option...]` and the SQL default of a field. */
module Fields {
  import opened Text
  import opened Names
  import opened Numbers

  datatype FieldType = StringField | TextField | BoolField | UuidField | IntField | FloatField | TimeField | JsonField

  datatype Field = Field(name: string, goName: string, kind: FieldType,
                         index: bool, unique: bool, nullable: bool, default: Option<string>)

  datatype FieldError =
    | BadSpecification | BadName | UnsupportedType | RepeatedOption(key: string) | DefaultMissing
    | UnsupportedOption(option: string) | NullConflict | BadDefault
    | DuplicateField(name: string) | ReservedField(name: string) | DuplicateGoName(name: string)

  /** The texts `strconv.ParseFloat` accepts; only the shape below is relied on. */
  type Floats = string -> bool

  /** The characters of a float, and the only places where Go's float syntax has a sign. */
  predicate FloatShape(s: string) {
    s != "" &&
    forall i :: 0 <= i < |s| ==>
      (IsWordChar(s[i]) || s[i] == '_' || s[i] == '.' || s[i] == '+' || s[i] == '-') &&
      (s[i] == '+' || s[i] == '-' ==> i == 0 || s[i - 1] in "eEpP")
  }

  ghost predicate FloatsAreShaped(floats: Floats) {
    forall s :: floats(s) ==> FloatShape(s)
  }

  /** `^[a-z][a-z0-9_]*$`. */
  predicate IsFieldName(s: string) {
    s != "" && IsLower(s[0]) && forall i :: 0 <= i < |s| ==> IsSnakeChar(s[i])
  }

  predicate HasDoubleUnderscore(s: string) {
    exists i :: 0 <= i < |s| - 1 && s[i] == '_' && s[i + 1] == '_'
  }

  function ParseType(s: string): Option<FieldType> {
    if s == "string" then Some(StringField) else if s == "text" then Some(TextField)
    else if s == "bool" then Some(BoolField) else if s == "uuid" then Some(UuidField)
    else if s == "int" then Some(IntField) else if s == "float" then Some(FloatField)
    else if s == "time" then Some(TimeField) else if s == "json" then Some(JsonField)
    else None
  }

  /** `strings.Cut(option, "=")`: the text before the first equals sign. */
  function OptionKey(option: string): string {
    SplitOn(option, '=')[0]
  }

  const DEFAULT_PREFIX := "default="

  /** One option; a repeated key has already been ruled out. */
  function ApplyOption(field: Field, option: string): Result<Field, FieldError> {
    var key := OptionKey(option);
    if key == "index" then Ok(field.(index := true))
    else if key == "unique" then Ok(field.(unique := true))
    else if key == "null" then Ok(field.(nullable := true))
    else if key == "default" then
      if !(DEFAULT_PREFIX <= option) || option == DEFAULT_PREFIX then Err(DefaultMissing)
      else Ok(field.(default := Some(option[|DEFAULT_PREFIX|..])))
    else Err(UnsupportedOption(option))
  }

  function ApplyOptions(field: Field, options: seq<string>, seen: set<string>): Result<Field, FieldError>
    decreases |options|
  {
    if options == [] then Ok(field)
    else if OptionKey(options[0]) in seen then Err(RepeatedOption(OptionKey(options[0])))
    else
      match ApplyOption(field, options[0])
      case Err(error) => Err(error)
      case Ok(changed) => ApplyOptions(changed, options[1..], seen + {OptionKey(options[0])})
  }

  /** `strings.ReplaceAll(s, "'", "''")`. */
  function DoubleQuotes(s: string): string {
    if s == "" then "" else (if s[0] == '\'' then "''" else [s[0]]) + DoubleQuotes(s[1..])
  }

  /** Case-insensitive `now`. */
  predicate IsNow(s: string) {
    |s| == 3 && s[0] in "nN" && s[1] in "oO" && s[2] in "wW"
  }

  /** `SQLDefault`; `None` is its error. */
  function SqlDefault(floats: Floats, kind: FieldType, value: string): Option<string> {
    match kind
    case BoolField => if value == "true" then Some("TRUE") else if value == "false" then Some("FALSE") else None
    case IntField => if ParseInt64(value).Some? then Some(value) else None
    case FloatField => if floats(value) then Some(value) else None
    case TimeField => if IsNow(value) then Some("NOW()") else None
    case UuidField => None
    case JsonField => if value == "{}" then Some("'{}'::jsonb") else None
    case StringField | TextField =>
      if '\0' in value || '\n' in value || '\r' in value then None else Some("'" + DoubleQuotes(value) + "'")
  }

  /** What `ParseField` makes of one specification. */
  function FieldOf(floats: Floats, specification: string): Result<Field, FieldError> {
    var parts := SplitOn(specification, ':');
    if |parts| < 2 || !IsFieldName(parts[0]) || HasDoubleUnderscore(parts[0]) then Err(BadSpecification)
    else
      var name := ParseName(parts[0]);
      if name.None? then Err(BadName)
      else if ParseType(parts[1]).None? then Err(UnsupportedType)
      else
        var field := Field(parts[0], name.value.singular, ParseType(parts[1]).value, false, false, false, None);
        match ApplyOptions(field, parts[2..], {})
        case Err(error) => Err(error)
        case Ok(changed) => CheckField(floats, changed)
  }

  /** The checks that follow the options. */
  function CheckField(floats: Floats, field: Field): Result<Field, FieldError> {
    if field.nullable && (field.unique || field.default.Some?) then Err(NullConflict)
    else if field.default.Some? && SqlDefault(floats, field.kind, field.default.value).None? then Err(BadDefault)
    else Ok(field)
  }

  method ParseField(floats: Floats, specification: string) returns (result: Result<Field, FieldError>)
    ensures result == FieldOf(floats, specification)
  {
    var parts := SplitOn(specification, ':');
    if |parts| < 2 || !IsFieldName(parts[0]) || HasDoubleUnderscore(parts[0]) {
      return Err(BadSpecification);
    }
    var name := ParseName(parts[0]);
    if name.None? {
      return Err(BadName);
    }
    var kind := ParseType(parts[1]);
    if kind.None? {
      return Err(UnsupportedType);
    }
    var field := Field(parts[0], name.value.singular, kind.value, false, false, false, None);
    ghost var start := field;
    var seen: set<string> := {};
    var options := parts[2..];
    hide OptionKey, CheckField, FieldOf, ApplyOption;
    for i := 0 to |options|
      invariant ApplyOptions(start, options, {}) == ApplyOptions(field, options[i..], seen)
    {
      var option := options[i];
      assert options[i..][0] == option && options[i..][1..] == options[i + 1..];
      var key := OptionKey(option);
      if key in seen {
        FieldFails(floats, specification, RepeatedOption(key));
        return Err(RepeatedOption(key));
      }
      seen := seen + {key};
      var applied := ApplyOption(field, option);
      if applied.Err? {
        FieldFails(floats, specification, applied.error);
        return Err(applied.error);
      }
      field := applied.value;
    }
    FieldSucceeds(floats, specification, field);
    result := CheckField(floats, field);
  }

  lemma FieldFails(floats: Floats, specification: string, error: FieldError)
    requires var parts := SplitOn(specification, ':');
             |parts| >= 2 && IsFieldName(parts[0]) && !HasDoubleUnderscore(parts[0]) &&
             ParseName(parts[0]).Some? && ParseType(parts[1]).Some? &&
             ApplyOptions(Field(parts[0], ParseName(parts[0]).value.singular, ParseType(parts[1]).value,
                                false, false, false, None), parts[2..], {}) == Err(error)
    ensures FieldOf(floats, specification) == Err(error)
  {
  }

  lemma FieldSucceeds(floats: Floats, specification: string, field: Field)
    requires var parts := SplitOn(specification, ':');
             |parts| >= 2 && IsFieldName(parts[0]) && !HasDoubleUnderscore(parts[0]) &&
             ParseName(parts[0]).Some? && ParseType(parts[1]).Some? &&
             ApplyOptions(Field(parts[0], ParseName(parts[0]).value.singular, ParseType(parts[1]).value,
                                false, false, false, None), parts[2..], {}) == Ok(field)
    ensures FieldOf(floats, specification) == CheckField(floats, field)
  {
  }

  // ---- Field lists

  const BASE_FIELDS: set<string> :=
    {"id", "name", "description", "metadata", "created_at", "updated_at", "deleted_at",
     "created_by", "updated_by", "deleted_by"}

  /** The laws of one accepted field. */
  predicate ValidField(floats: Floats, field: Field) {
    && IsFieldName(field.name) && !HasDoubleUnderscore(field.name)
    && !(field.nullable && (field.unique || field.default.Some?))
    && (field.default.Some? ==> SqlDefault(floats, field.kind, field.default.value).Some?)
  }

  /** The laws of an accepted list of fields. */
  predicate ValidFields(floats: Floats, fields: seq<Field>) {
    && (forall i :: 0 <= i < |fields| ==> ValidField(floats, fields[i]) && fields[i].name !in BASE_FIELDS)
    && (forall i, j :: 0 <= i < j < |fields| ==> fields[i].name != fields[j].name)
    && (forall i, j :: 0 <= i < j < |fields| ==> fields[i].goName != fields[j].goName)
  }

  lemma {:induction false} OptionsKeepName(field: Field, options: seq<string>, seen: set<string>)
    requires ApplyOptions(field, options, seen).Ok?
    ensures ApplyOptions(field, options, seen).value.name == field.name
    decreases |options|
  {
    if options != [] {
      OptionsKeepName(ApplyOption(field, options[0]).value, options[1..], seen + {OptionKey(options[0])});
    }
  }

  lemma FieldIsValid(floats: Floats, specification: string)
    ensures FieldOf(floats, specification).Ok? ==> ValidField(floats, FieldOf(floats, specification).value)
  {
    if FieldOf(floats, specification).Ok? {
      var parts := SplitOn(specification, ':');
      var field := Field(parts[0], ParseName(parts[0]).value.singular, ParseType(parts[1]).value, false, false, false, None);
      OptionsKeepName(field, parts[2..], {});
    }
  }

  function NamesIn(fields: seq<Field>): (names: set<string>)
    ensures forall name :: name in names <==> exists i :: 0 <= i < |fields| && fields[i].name == name
  {
    set i | 0 <= i < |fields| :: fields[i].name
  }

  function GoNamesIn(fields: seq<Field>): (names: set<string>)
    ensures forall name :: name in names <==> exists i :: 0 <= i < |fields| && fields[i].goName == name
  {
    set i | 0 <= i < |fields| :: fields[i].goName
  }

  lemma NamesAppend(fields: seq<Field>, field: Field)
    ensures NamesIn(fields + [field]) == NamesIn(fields) + {field.name}
    ensures GoNamesIn(fields + [field]) == GoNamesIn(fields) + {field.goName}
  {
    var all := fields + [field];
    assert all[|fields|] == field;
    assert forall i :: 0 <= i < |fields| ==> all[i] == fields[i];
  }

  function FieldsFrom(floats: Floats, specifications: seq<string>, fields: seq<Field>): Result<seq<Field>, FieldError>
    decreases |specifications|
  {
    if specifications == [] then Ok(fields)
    else
      match FieldOf(floats, specifications[0])
      case Err(error) => Err(error)
      case Ok(field) =>
        if field.name in NamesIn(fields) then Err(DuplicateField(field.name))
        else if field.name in BASE_FIELDS then Err(ReservedField(field.name))
        else if field.goName in GoNamesIn(fields) then Err(DuplicateGoName(field.name))
        else FieldsFrom(floats, specifications[1..], fields + [field])
  }

  method ParseFields(floats: Floats, specifications: seq<string>) returns (result: Result<seq<Field>, FieldError>)
    ensures result == FieldsFrom(floats, specifications, [])
  {
    var fields: seq<Field> := [];
    var seen, seenGo: set<string> := {}, {};
    assert NamesIn([]) == {} && GoNamesIn([]) == {};
    hide FieldOf, ValidField, NamesIn, GoNamesIn;
    for i := 0 to |specifications|
      invariant seen == NamesIn(fields) && seenGo == GoNamesIn(fields)
      invariant FieldsFrom(floats, specifications, []) == FieldsFrom(floats, specifications[i..], fields)
    {
      assert specifications[i..][0] == specifications[i] && specifications[i..][1..] == specifications[i + 1..];
      var parsed := ParseField(floats, specifications[i]);
      if parsed.Err? {
        return Err(parsed.error);
      }
      var field := parsed.value;
      if field.name in seen {
        return Err(DuplicateField(field.name));
      }
      if field.name in BASE_FIELDS {
        return Err(ReservedField(field.name));
      }
      if field.goName in seenGo {
        return Err(DuplicateGoName(field.name));
      }
      NamesAppend(fields, field);
      seen, seenGo := seen + {field.name}, seenGo + {field.goName};
      fields := fields + [field];
    }
    result := Ok(fields);
  }

  /** An accepted list has one field for each specification, in order, and obeys every law. */
  lemma {:induction false} FieldsAreValid(floats: Floats, specifications: seq<string>, fields: seq<Field>)
    requires ValidFields(floats, fields)
    ensures FieldsFrom(floats, specifications, fields).Ok? ==>
              var all := FieldsFrom(floats, specifications, fields).value;
              ValidFields(floats, all) && |all| == |fields| + |specifications| && fields <= all &&
              forall i :: 0 <= i < |specifications| ==> FieldOf(floats, specifications[i]) == Ok(all[|fields| + i])
    decreases |specifications|
  {
    hide FieldOf, ValidField;
    if specifications != [] && FieldsFrom(floats, specifications, fields).Ok? {
      var field := FieldOf(floats, specifications[0]).value;
      FieldIsValid(floats, specifications[0]);
      FieldsAreValid(floats, specifications[1..], fields + [field]);
      assert forall i :: 0 < i < |specifications| ==> specifications[i] == specifications[1..][i - 1];
    }
  }

  /** The name of a field always parses, so `BadName` is never reported. */
  lemma FieldNamesParse(name: string)
    requires IsFieldName(name)
    ensures ParseName(name).Some?
  {
    assert "" + name + "" == name;
    TrimUnique("", name, "");
    NextWord([], ' ', name, "");
    var c := [ToLower(name[0])];
    WordsFirst(name[0], name[1..], c);
    var words := WordsOf(name);
    assert words == Words(name[0], name[1..], "" + c) && "" + c == c;
    WordsAreWords(name[0], name[1..], c);
    ExportedIsGoName(words);
  }

  lemma {:induction false} WordsFirst(previous: char, s: string, current: string)
    requires current != ""
    ensures Words(previous, s, current) != [] && current <= Words(previous, s, current)[0]
    decreases |s|
  {
    if s != "" {
      NextWord([], previous, s, current);
      if IsWordChar(s[0]) && !Breaks(previous, s) {
        WordsFirst(s[0], s[1..], current + [ToLower(s[0])]);
      }
    }
  }

  lemma ExportedIsGoName(words: seq<string>)
    requires AllWords(words) && words != [] && IsLower(words[0][0])
    ensures IsGoName(Exported(words))
  {
    ExportedChars(words);
  }
}
