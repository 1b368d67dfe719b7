/** The sort parameter of query/query.go: comma-separated fields, each descending when prefixed with `-`. */
module QuerySort {
  import opened Text
  import opened QueryDefinition

  datatype SortError = EmptySort | UnsupportedSort(name: string) | RepeatedSort(name: string)

  predicate IsDescending(part: string) {
    part != "" && part[0] == '-'
  }

  function SortName(part: string): string {
    if IsDescending(part) then part[1..] else part
  }

  function SortNames(parts: seq<string>): (names: seq<string>)
    ensures |names| == |parts| && forall i :: 0 <= i < |parts| ==> names[i] == SortName(parts[i])
  {
    seq(|parts|, i requires 0 <= i < |parts| => SortName(parts[i]))
  }

  function SortFrom(parts: seq<string>, columns: map<string, string>, i: nat): Result<seq<Sort>, SortError>
    requires i <= |parts|
    decreases |parts| - i
  {
    if i == |parts| then Ok([])
    else
      var name := SortName(parts[i]);
      if name !in columns || name == "" then Err(UnsupportedSort(name))
      else if name in SortNames(parts)[..i] then Err(RepeatedSort(name))
      else
        match SortFrom(parts, columns, i + 1)
        case Err(error) => Err(error)
        case Ok(rest) => Ok([Sort(name, columns[name], IsDescending(parts[i]))] + rest)
  }

  function SortOf(raw: string, sortable: seq<SortField>): Result<seq<Sort>, SortError> {
    if raw == "" then Err(EmptySort) else SortFrom(SplitOn(raw, ','), Columns(sortable), 0)
  }

  lemma PrependedStep(parts: seq<string>, columns: map<string, string>, i: nat, done: seq<Sort>, sort: Sort)
    requires i < |parts| && SortName(parts[i]) in columns && SortName(parts[i]) != ""
    requires SortName(parts[i]) !in SortNames(parts)[..i]
    requires sort == Sort(SortName(parts[i]), columns[SortName(parts[i])], IsDescending(parts[i]))
    ensures Prepended(done, SortFrom(parts, columns, i)) == Prepended(done + [sort], SortFrom(parts, columns, i + 1))
  {
    hide SortName, IsDescending;
    var rest := SortFrom(parts, columns, i + 1);
    assert rest.Ok? ==> done + ([sort] + rest.value) == (done + [sort]) + rest.value;
  }

  method AllowedColumns(sortable: seq<SortField>) returns (columns: map<string, string>)
    ensures columns == Columns(sortable)
  {
    columns := map[];
    for i := 0 to |sortable|
      invariant columns == Columns(sortable[..i])
    {
      columns := columns[sortable[i].name := sortable[i].column];
      assert sortable[..i + 1][..i] == sortable[..i];
    }
    assert sortable[..|sortable|] == sortable;
  }

  method ParseSort(raw: string, sortable: seq<SortField>) returns (outcome: Result<seq<Sort>, SortError>)
    ensures outcome == SortOf(raw, sortable)
  {
    hide SplitOn, Columns, SortName, IsDescending;
    if raw == "" {
      return Err(EmptySort);
    }
    var allowed := AllowedColumns(sortable);
    var parts := SplitOn(raw, ',');
    var sorts: seq<Sort> := [];
    var seen: set<string> := {};
    PrependedNothing(SortFrom(parts, allowed, 0));
    for i := 0 to |parts|
      invariant SortFrom(parts, allowed, 0) == Prepended(sorts, SortFrom(parts, allowed, i))
      invariant forall name :: name in seen <==> name in SortNames(parts)[..i]
    {
      var descending := IsDescending(parts[i]);
      var name := SortName(parts[i]);
      if name !in allowed || name == "" {
        return Err(UnsupportedSort(name));
      }
      if name in seen {
        return Err(RepeatedSort(name));
      }
      seen := seen + {name};
      assert SortNames(parts)[..i + 1] == SortNames(parts)[..i] + [name];
      var sort := Sort(name, allowed[name], descending);
      PrependedStep(parts, allowed, i, sorts, sort);
      sorts := sorts + [sort];
    }
    outcome := Ok(sorts);
    assert sorts + [] == sorts;
  }

  /** The order used when a request names none. */
  function DefaultOrder(defaults: seq<Sort>, columns: map<string, string>): seq<Sort> {
    seq(|defaults|, i requires 0 <= i < |defaults| =>
      defaults[i].(column := if defaults[i].field in columns then columns[defaults[i].field] else ""))
  }

  method ResolveDefaultSort(defaults: seq<Sort>, sortable: seq<SortField>) returns (sorts: seq<Sort>)
    ensures sorts == DefaultOrder(defaults, Columns(sortable))
  {
    var columns := AllowedColumns(sortable);
    sorts := [];
    for i := 0 to |defaults|
      invariant |sorts| == i
      invariant forall j :: 0 <= j < i ==> sorts[j] == DefaultOrder(defaults, columns)[j]
    {
      var configured := defaults[i];
      configured := configured.(column := if configured.field in columns then columns[configured.field] else "");
      sorts := sorts + [configured];
    }
  }

  // ------------------------------------------------------------------------------- the parser and its printer

  function PrintSort(sort: Sort): string {
    (if sort.descending then "-" else "") + sort.field
  }

  function PrintedParts(sorts: seq<Sort>): (parts: seq<string>)
    ensures |parts| == |sorts| && forall i :: 0 <= i < |sorts| ==> parts[i] == PrintSort(sorts[i])
  {
    seq(|sorts|, i requires 0 <= i < |sorts| => PrintSort(sorts[i]))
  }

  function PrintSorts(sorts: seq<Sort>): string {
    Join(PrintedParts(sorts), ",")
  }

  /** Sorts over declared fields, with their columns, each field once. */
  predicate Permitted(sorts: seq<Sort>, sortable: seq<SortField>) {
    && (forall i :: 0 <= i < |sorts| ==> SortField(sorts[i].field, sorts[i].column) in sortable)
    && (forall i, j :: 0 <= i < j < |sorts| ==> sorts[i].field != sorts[j].field)
  }

  lemma PrintedName(sort: Sort)
    requires IsApiName(sort.field)
    ensures SortName(PrintSort(sort)) == sort.field && IsDescending(PrintSort(sort)) == sort.descending
    ensures ',' !in PrintSort(sort)
  {
    assert PrintSort(sort) == if sort.descending then "-" + sort.field else sort.field;
  }

  lemma NameIsPrinted(part: string, column: string)
    ensures PrintSort(Sort(SortName(part), column, IsDescending(part))) == part
  {
    if IsDescending(part) {
      assert "-" + part[1..] == part;
    }
  }

  predicate Reads(sorts: seq<Sort>, parts: seq<string>, columns: map<string, string>, i: nat)
    requires i < |sorts| && i < |parts|
  {
    var name := SortName(parts[i]);
    && name in columns && name != "" && name !in SortNames(parts)[..i]
    && sorts[i] == Sort(name, columns[name], IsDescending(parts[i]))
  }

  lemma {:induction false} SortFromReads(parts: seq<string>, columns: map<string, string>, i: nat, sorts: seq<Sort>)
    requires i <= |parts| == |sorts|
    ensures SortFrom(parts, columns, i) == Ok(sorts[i..]) <==> forall k :: i <= k < |parts| ==> Reads(sorts, parts, columns, k)
    decreases |parts| - i
  {
    if i < |parts| {
      SortFromReads(parts, columns, i + 1, sorts);
      SortFromStep(parts, columns, i, sorts);
    } else {
      assert sorts[i..] == [];
    }
  }

  lemma SortFromStep(parts: seq<string>, columns: map<string, string>, i: nat, sorts: seq<Sort>)
    requires i < |parts| == |sorts|
    ensures SortFrom(parts, columns, i) == Ok(sorts[i..])
            <==> Reads(sorts, parts, columns, i) && SortFrom(parts, columns, i + 1) == Ok(sorts[i + 1..])
  {
    hide SortName, IsDescending;
    assert sorts[i..] == [sorts[i]] + sorts[i + 1..];
    var rest := SortFrom(parts, columns, i + 1);
    if SortFrom(parts, columns, i) == Ok(sorts[i..]) {
      var sort := Sort(SortName(parts[i]), columns[SortName(parts[i])], IsDescending(parts[i]));
      assert [sort] + rest.value == sorts[i..];
      assert ([sort] + rest.value)[1..] == rest.value && ([sort] + rest.value)[0] == sort;
      assert sorts[i..][1..] == sorts[i + 1..] && sorts[i..][0] == sorts[i];
    }
  }

  lemma {:induction false} SortFromLength(parts: seq<string>, columns: map<string, string>, i: nat)
    requires i <= |parts|
    ensures SortFrom(parts, columns, i).Ok? ==> |SortFrom(parts, columns, i).value| == |parts| - i
    decreases |parts| - i
  {
    if i < |parts| {
      SortFromLength(parts, columns, i + 1);
    }
  }

  lemma {:induction false} DeclaredColumn(sortable: seq<SortField>, name: string, column: string)
    requires ValidSortable(sortable)
    ensures SortField(name, column) in sortable <==> name in Columns(sortable) && Columns(sortable)[name] == column
  {
    hide IsApiName, IsColumn, Columns;
    ColumnsAre(sortable);
  }

  lemma ParsedIsPrinted(raw: string, sorts: seq<Sort>, sortable: seq<SortField>)
    requires ValidSortable(sortable) && SortOf(raw, sortable) == Ok(sorts)
    ensures sorts != [] && raw == PrintSorts(sorts) && Permitted(sorts, sortable)
  {
    hide SplitOn, Columns, ValidSortable, SortFrom, SortName, PrintSort, Join, IsDescending;
    var parts, columns := SplitOn(raw, ','), Columns(sortable);
    SortFromLength(parts, columns, 0);
    assert sorts[0..] == sorts;
    SortFromReads(parts, columns, 0, sorts);
    forall i | 0 <= i < |parts|
      ensures Reads(sorts, parts, columns, i) && PrintSort(sorts[i]) == parts[i]
      ensures SortField(sorts[i].field, sorts[i].column) in sortable
    {
      NameIsPrinted(parts[i], sorts[i].column);
      DeclaredColumn(sortable, sorts[i].field, sorts[i].column);
    }
    assert PrintedParts(sorts) == parts;
    JoinSplitOn(raw, ',');
    forall i, j | 0 <= i < j < |sorts| ensures sorts[i].field != sorts[j].field {
      assert Reads(sorts, parts, columns, i) && Reads(sorts, parts, columns, j);
      assert SortNames(parts)[..j][i] == sorts[i].field;
    }
  }

  lemma DeclaredName(sortable: seq<SortField>, name: string, column: string)
    requires ValidSortable(sortable) && SortField(name, column) in sortable
    ensures IsApiName(name)
  {
  }

  lemma PrintedIsParsed(sorts: seq<Sort>, sortable: seq<SortField>)
    requires ValidSortable(sortable) && sorts != [] && Permitted(sorts, sortable)
    ensures SortOf(PrintSorts(sorts), sortable) == Ok(sorts)
  {
    hide SplitOn, Columns, ValidSortable, SortFrom, SortName, PrintSort, Join, IsDescending, IsApiName;
    var parts, columns := PrintedParts(sorts), Columns(sortable);
    forall i | 0 <= i < |sorts|
      ensures SortName(parts[i]) == sorts[i].field && IsDescending(parts[i]) == sorts[i].descending && ',' !in parts[i]
      ensures sorts[i].field in columns && columns[sorts[i].field] == sorts[i].column && sorts[i].field != ""
    {
      DeclaredName(sortable, sorts[i].field, sorts[i].column);
      ApiNameIsNotEmpty(sorts[i].field);
      PrintedName(sorts[i]);
      DeclaredColumn(sortable, sorts[i].field, sorts[i].column);
    }
    SplitOnJoin(parts, ',');
    SplitOfEmpty();
    assert PrintSorts(sorts) == "" ==> SortName(parts[0]) == sorts[0].field by {
      assert 0 < |sorts|;
    }
    NotEmptyPrinted(sorts);
    forall i | 0 <= i < |parts| ensures Reads(sorts, parts, columns, i) {
      forall j | 0 <= j < i ensures SortNames(parts)[..i][j] != sorts[i].field {
      }
    }
    SortFromReads(parts, columns, 0, sorts);
    assert sorts[0..] == sorts;
  }

  lemma ApiNameIsNotEmpty(name: string)
    requires IsApiName(name)
    ensures name != ""
  {
  }

  lemma SplitOfEmpty()
    ensures SplitOn("", ',') == [""]
  {
  }

  lemma NotEmptyPrinted(sorts: seq<Sort>)
    requires sorts != [] && sorts[0].field != ""
    ensures PrintSorts(sorts) != ""
  {
  }

  /** On a valid definition the parser accepts exactly the printed lists of permitted sorts, and returns the list
      that was printed. */
  lemma SortParsesExactlyPrinted(raw: string, sorts: seq<Sort>, sortable: seq<SortField>)
    requires ValidSortable(sortable)
    ensures SortOf(raw, sortable) == Ok(sorts) <==> sorts != [] && raw == PrintSorts(sorts) && Permitted(sorts, sortable)
  {
    hide *;
    if SortOf(raw, sortable) == Ok(sorts) {
      ParsedIsPrinted(raw, sorts, sortable);
    }
    if sorts != [] && raw == PrintSorts(sorts) && Permitted(sorts, sortable) {
      PrintedIsParsed(sorts, sortable);
    }
  }
}
