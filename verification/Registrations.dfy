/** `resourceRegistrations` of generate/render.go: the list of resources, rebuilt from the marker comments in the
    generated files. */
module Registrations {
  import opened Text
  import opened Names
  import Ordering

  const MARKER := "// soro:resource "
  const SUFFIX := "_resource.go"

  /** A directory entry; `contents` is `None` when the file cannot be read. */
  datatype Entry = Entry(name: string, isDirectory: bool, contents: Option<Ascii>)

  datatype Failure = Unreadable(name: string) | BadName(name: string)

  predicate IsResourceFile(entry: Entry) {
    !entry.isDirectory && EndsWith(entry.name, SUFFIX)
  }

  predicate IsMarker(line: string) {
    |line| >= |MARKER| && line[..|MARKER|] == MARKER
  }

  /** What the first marker among the lines says. */
  function FirstMarker(lines: seq<string>): Option<string> {
    if lines == [] then None
    else if IsMarker(lines[0]) then Some(lines[0][|MARKER|..])
    else FirstMarker(lines[1..])
  }

  function MarkerOf(contents: string): Option<string> {
    FirstMarker(SplitOn(contents, '\n'))
  }

  lemma {:induction false} MarkerIsAscii(lines: seq<string>)
    requires forall i :: 0 <= i < |lines| ==> IsAscii(lines[i])
    ensures FirstMarker(lines).Some? ==> IsAscii(FirstMarker(lines).value)
  {
    if lines != [] && !IsMarker(lines[0]) {
      MarkerIsAscii(lines[1..]);
    }
  }

  lemma {:induction false} LinesAreAscii(s: string)
    requires IsAscii(s)
    ensures forall i :: 0 <= i < |SplitOn(s, '\n')| ==> IsAscii(SplitOn(s, '\n')[i])
  {
    if s != "" {
      LinesAreAscii(s[1..]);
      var parts := SplitOn(s[1..], '\n');
      assert IsAscii([s[0]] + parts[0]) by {
        assert IsAscii(parts[0]);
      }
    }
  }

  lemma ContentsMarkerIsAscii(contents: string)
    requires IsAscii(contents)
    ensures MarkerOf(contents).Some? ==> IsAscii(MarkerOf(contents).value)
  {
    LinesAreAscii(contents);
    MarkerIsAscii(SplitOn(contents, '\n'));
  }

  /** What one directory entry contributes. */
  function Contribution(entry: Entry): Result<Option<Name>, Failure> {
    if !IsResourceFile(entry) then Ok(None)
    else if entry.contents.None? then Err(Unreadable(entry.name))
    else
      ContentsMarkerIsAscii(entry.contents.value);
      match MarkerOf(entry.contents.value)
      case None => Ok(None)
      case Some(marked) =>
        match ParseName(marked)
        case None => Err(BadName(marked))
        case Some(name) => Ok(Some(name))
  }

  type ByName = map<string, Name>

  function With(byName: ByName, name: Option<Name>): ByName {
    if name.Some? then byName[name.value.singular := name.value] else byName
  }

  /** The map after reading the entries from `i` on. */
  function Gathered(entries: seq<Entry>, byName: ByName, i: nat): Result<ByName, Failure>
    requires i <= |entries|
    decreases |entries| - i
  {
    if i == |entries| then Ok(byName)
    else
      match Contribution(entries[i])
      case Err(failure) => Err(failure)
      case Ok(name) => Gathered(entries, With(byName, name), i + 1)
  }

  function Singulars(names: seq<Name>): (singulars: seq<string>)
    ensures |singulars| == |names| && forall i :: 0 <= i < |names| ==> singulars[i] == names[i].singular
  {
    seq(|names|, i requires 0 <= i < |names| => names[i].singular)
  }

  /** The values of the map, in the order of their singular names, each once. */
  predicate Lists(names: seq<Name>, byName: ByName) {
    Ordering.StrictlySorted(Singulars(names))
    && (forall i :: 0 <= i < |names| ==> names[i].singular in byName && byName[names[i].singular] == names[i])
    && (forall singular :: singular in byName ==> singular in Singulars(names))
  }

  method ReadEntry(entry: Entry) returns (outcome: Result<Option<Name>, Failure>)
    ensures outcome == Contribution(entry)
  {
    hide SplitOn, ParseName, IsAscii;
    if entry.isDirectory || !EndsWith(entry.name, SUFFIX) {
      return Ok(None);
    }
    if entry.contents.None? {
      return Err(Unreadable(entry.name));
    }
    var lines := SplitOn(entry.contents.value, '\n');
    LinesAreAscii(entry.contents.value);
    assert lines[0..] == lines;
    for i := 0 to |lines|
      invariant FirstMarker(lines) == FirstMarker(lines[i..])
    {
      assert lines[i..][0] == lines[i] && lines[i..][1..] == lines[i + 1..];
      if |lines[i]| >= |MARKER| && lines[i][..|MARKER|] == MARKER {
        ContentsMarkerIsAscii(entry.contents.value);
        var marked := lines[i][|MARKER|..];
        var parsed := ParseName(marked);
        if parsed.None? {
          return Err(BadName(marked));
        }
        return Ok(parsed);
      }
    }
    assert lines[|lines|..] == [];
    outcome := Ok(None);
  }

  /** The map's values in any order, then sorted by singular name. */
  method Listed(byName: ByName) returns (names: seq<Name>)
    requires forall singular :: singular in byName ==> byName[singular].singular == singular
    ensures Lists(names, byName)
  {
    var sorted := Ordering.SortedKeys(byName.Keys);
    forall i | 0 <= i < |sorted| ensures sorted[i] in byName {
      assert sorted[i] in sorted;
    }
    names := [];
    for i := 0 to |sorted|
      invariant |names| == i
      invariant forall k :: 0 <= k < i ==> names[k] == byName[sorted[k]]
    {
      names := names + [byName[sorted[i]]];
    }
    assert Singulars(names) == sorted;
  }

  method ResourceRegistrations(entries: seq<Entry>, current: Name) returns (outcome: Result<seq<Name>, Failure>)
    ensures match Gathered(entries, map[current.singular := current], 0)
            case Err(failure) => outcome == Err(failure)
            case Ok(byName) => outcome.Ok? && Lists(outcome.value, byName)
  {
    hide Contribution, Lists;
    var byName: ByName := map[current.singular := current];
    for i := 0 to |entries|
      invariant Gathered(entries, map[current.singular := current], 0) == Gathered(entries, byName, i)
      invariant forall singular :: singular in byName ==> byName[singular].singular == singular
    {
      var name := ReadEntry(entries[i]);
      if name.Err? {
        return Err(name.error);
      }
      byName := With(byName, name.value);
    }
    var names := Listed(byName);
    outcome := Ok(names);
  }

  // ------------------------------------------------------------------------------------------------- laws

  /** The file that is generated for a name: the marker comes first. */
  function Rendered(name: Name, rest: string): string {
    MARKER + name.singular + "\n" + rest
  }

  predicate HoldsMarker(entry: Entry, name: Name, rest: string) {
    IsResourceFile(entry) && entry.contents.Some? && entry.contents.value == Rendered(name, rest)
  }

  lemma MarkerIsRead(name: Name, rest: string)
    requires '\n' !in name.singular
    ensures MarkerOf(Rendered(name, rest)) == Some(name.singular)
  {
    var line := MARKER + name.singular;
    assert '\n' !in MARKER by {
      assert forall i :: 0 <= i < |MARKER| ==> MARKER[i] != '\n';
    }
    SplitOnPart(line, '\n', rest);
    assert Rendered(name, rest) == line + ['\n'] + rest;
    assert line[..|MARKER|] == MARKER && line[|MARKER|..] == name.singular;
    assert ([line] + SplitOn(rest, '\n'))[0] == line;
  }

  lemma GoNameHasNoNewline(raw: Ascii)
    requires ParseName(raw).Some?
    ensures '\n' !in ParseName(raw).value.singular
  {
    hide WordsOf, Pluralize, Exported;
    WordsAreWords(' ', Trim(raw), "");
    assert IsGoName(ParseName(raw).value.singular);
  }

  /** A generated file gives back the name it was generated for exactly when the words of the name stay apart. */
  lemma FileRestoresItsName(raw: Ascii, entry: Entry, rest: string)
    requires ParseName(raw).Some? && HoldsMarker(entry, ParseName(raw).value, rest)
    ensures AllWords(WordsOf(raw))
    ensures Contribution(entry) == Ok(ParseName(raw)) <==> Separable(WordsOf(raw))
  {
    hide ParseName, WordsOf, Separable, MarkerOf, Rendered;
    ParseSingular(raw);
    GoNameHasNoNewline(raw);
    MarkerIsRead(ParseName(raw).value, rest);
  }

  /** Reading the name's marker gives the name again. */
  predicate Restorable(name: Name) {
    IsAscii(name.singular) && ParseName(name.singular) == Some(name)
  }

  lemma {:induction false} RegroupIsSeparable(before: string, current: string, words: seq<string>)
    requires AllWords(words) && IsWord(before) && IsWord(current)
    requires |before| <= |current| && (|before| == |current| ==> before == current)
    ensures AllWords(Regroup(before, current, words)) && Separable(Regroup(before, current, words))
    ensures var groups := Regroup(before, current, words);
            groups != [] && current <= groups[0]
    decreases |words|
  {
    if words != [] {
      var w := words[0];
      if Apart(before, w) {
        RegroupIsSeparable(w, w, words[1..]);
        var rest := Regroup(w, w, words[1..]);
        assert Apart(current, w) && Apart(current, rest[0]);
        SeparableStep(current, rest);
      } else {
        RegroupIsSeparable(w, current + w, words[1..]);
      }
    }
  }

  lemma {:induction false} ExportedStart(words: seq<string>)
    requires AllWords(words) && words != []
    ensures Exported(words) != "" && Exported(words)[0] == ToUpper(words[0][0])
  {
  }

  lemma GroupsAreAName(groups: seq<string>, word: string)
    requires AllWords(groups) && groups != [] && IsWord(word) && word <= groups[0] && IsUpper(ToUpper(word[0]))
    ensures IsGoName(Exported(groups))
  {
    ExportedStart(groups);
    ExportedChars(groups);
  }

  /** Whatever accepted name a file was generated for, reading its marker gives a name, and that name is read back as
      itself from then on. */
  lemma GeneratedFilesAreRestorable(raw: Ascii, entry: Entry, rest: string)
    requires ParseName(raw).Some? && HoldsMarker(entry, ParseName(raw).value, rest)
    ensures Contribution(entry).Ok? && Contribution(entry).value.Some? && Restorable(Contribution(entry).value.value)
  {
    hide Words, Exported, Pluralize, Regroup, Separable, MarkerOf, Rendered, IsGoName;
    ParseSingular(raw);
    GoNameHasNoNewline(raw);
    MarkerIsRead(ParseName(raw).value, rest);
    TrimAscii(raw);
    WordsAreWords(' ', Trim(raw), "");
    var words := WordsOf(raw);
    var singular := Exported(words);
    GoNameIsAscii(singular);
    ExportedWords(words);
    ExportedStart(words);
    WordsAreWords(' ', Trim(singular), "");
    var groups := WordsOf(singular);
    RegroupIsSeparable(words[0], words[0], words[1..]);
    GoNameStart(singular);
    GroupsAreAName(groups, words[0]);
    ParseSingular(singular);
  }

  lemma GoNameStart(s: string)
    requires IsGoName(s)
    ensures s != "" && IsUpper(s[0])
  {
  }

  /** A directory entry that is no resource file, such as the generated `routes.go`, contributes nothing. */
  lemma RoutesContributeNothing(contents: Option<Ascii>)
    ensures Contribution(Entry("routes.go", false, contents)) == Ok(None)
  {
    assert |"routes.go"| < |SUFFIX|;
  }

  /** The map holds the contributed names of the first `n` entries and the initial one. */
  predicate Holds(byName: ByName, names: seq<Option<Name>>, n: nat, current: Name)
    requires n <= |names|
  {
    && current.singular in byName && byName[current.singular] == current
    && (forall i :: 0 <= i < n && names[i].Some? ==>
          names[i].value.singular in byName && byName[names[i].value.singular] == names[i].value)
    && (forall singular :: singular in byName ==> byName[singular] == current || Some(byName[singular]) in names[..n])
  }

  predicate OnePerSingular(names: seq<Option<Name>>, current: Name) {
    && (forall i :: 0 <= i < |names| && names[i].Some? && names[i].value.singular == current.singular ==> names[i].value == current)
    && (forall i, j ::
          0 <= i < |names| && 0 <= j < |names| && names[i].Some? && names[j].Some?
          && names[i].value.singular == names[j].value.singular ==>
            names[i] == names[j])
  }

  /** The contributions of the entries, none of which fails. */
  predicate Contributed(entries: seq<Entry>, names: seq<Option<Name>>) {
    |entries| == |names| && forall k :: 0 <= k < |entries| ==> Contribution(entries[k]) == Ok(names[k])
  }

  predicate AllRestorable(names: seq<Option<Name>>) {
    forall i :: 0 <= i < |names| && names[i].Some? ==> Restorable(names[i].value)
  }

  /** Restorable names, as those of generated files are, are told apart by their singulars. */
  lemma RestorableNamesDiffer(names: seq<Option<Name>>, current: Name)
    requires Restorable(current) && AllRestorable(names)
    ensures OnePerSingular(names, current)
  {
    hide ParseName;
  }

  lemma {:induction false} GatheredHolds(entries: seq<Entry>, names: seq<Option<Name>>, current: Name, byName: ByName, i: nat)
    requires Contributed(entries, names) && i <= |names| && OnePerSingular(names, current)
    requires Holds(byName, names, i, current)
    ensures Gathered(entries, byName, i).Ok? && Holds(Gathered(entries, byName, i).value, names, |names|, current)
    decreases |entries| - i
  {
    hide Contribution;
    if i < |entries| {
      var next := With(byName, names[i]);
      HoldsStep(byName, names, current, i);
      GatheredHolds(entries, names, current, next, i + 1);
    }
  }

  lemma HoldsStep(byName: ByName, names: seq<Option<Name>>, current: Name, i: nat)
    requires i < |names| && OnePerSingular(names, current) && Holds(byName, names, i, current)
    ensures Holds(With(byName, names[i]), names, i + 1, current)
  {
    var next := With(byName, names[i]);
    assert names[..i + 1] == names[..i] + [names[i]];
    forall singular | singular in next ensures next[singular] == current || Some(next[singular]) in names[..i + 1] {
      if names[i].Some? && singular == names[i].value.singular {
        assert names[..i + 1][i] == Some(next[singular]);
      }
    }
  }

  lemma HeldNames(byName: ByName, names: seq<Option<Name>>, current: Name, result: seq<Name>)
    requires Holds(byName, names, |names|, current) && Lists(result, byName)
    ensures forall name :: name in result <==> name == current || Some(name) in names
  {
    assert names[..|names|] == names;
    forall name ensures name in result <==> name == current || Some(name) in names {
      if name in result {
        var i :| 0 <= i < |result| && result[i] == name;
        assert byName[result[i].singular] == name;
      }
      if Some(name) in names {
        var k :| 0 <= k < |names| && names[k] == Some(name);
        assert byName[name.singular] == name;
      }
      if name == current || Some(name) in names {
        var i :| 0 <= i < |result| && Singulars(result)[i] == name.singular;
        assert result[i] == name;
      }
    }
  }

  /** From any directory whose markers give names of different singulars, as restorable ones are, and whatever other
      files it holds, the rebuilt registry holds exactly those names and the current one, sorted by singular name and each
      once. */
  lemma RegistryIsRebuilt(entries: seq<Entry>, names: seq<Option<Name>>, current: Name, result: seq<Name>)
    requires Contributed(entries, names) && OnePerSingular(names, current)
    ensures Gathered(entries, map[current.singular := current], 0).Ok?
    ensures Lists(result, Gathered(entries, map[current.singular := current], 0).value) ==>
              Ordering.StrictlySorted(Singulars(result)) && forall name :: name in result <==> name == current || Some(name) in names
  {
    hide Contribution, Gathered;
    var start: ByName := map[current.singular := current];
    GatheredHolds(entries, names, current, start, 0);
    var byName := Gathered(entries, start, 0).value;
    if Lists(result, byName) {
      HeldNames(byName, names, current, result);
    }
  }

  /** Two sorted registries of the same names are the same list. */
  lemma RegistriesAgree(a: seq<Name>, b: seq<Name>)
    requires Ordering.StrictlySorted(Singulars(a)) && Ordering.StrictlySorted(Singulars(b))
    requires forall name :: name in a <==> name in b
    ensures a == b
  {
    hide Ordering.Less;
    SingularsOf(a, b);
    SingularsOf(b, a);
    Ordering.StrictlySortedUnique(Singulars(a), Singulars(b));
    Ordering.StrictIsSortedDistinct(Singulars(b));
    forall i | 0 <= i < |a| ensures a[i] == b[i] {
      assert a[i] in b;
      var j :| 0 <= j < |b| && b[j] == a[i];
      assert Singulars(b)[j] == Singulars(a)[i] == Singulars(b)[i];
    }
  }

  lemma SingularsOf(a: seq<Name>, b: seq<Name>)
    requires forall name :: name in a ==> name in b
    ensures forall singular :: singular in Singulars(a) ==> singular in Singulars(b)
  {
    forall singular | singular in Singulars(a) ensures singular in Singulars(b) {
      var i :| 0 <= i < |a| && Singulars(a)[i] == singular;
      assert a[i] in b;
      var j :| 0 <= j < |b| && b[j] == a[i];
      assert Singulars(b)[j] == singular;
    }
  }

  lemma SameContributions(a: seq<Entry>, b: seq<Entry>, x: seq<Option<Name>>, y: seq<Option<Name>>, name: Name)
    requires Contributed(a, x) && Contributed(b, y) && (forall entry :: entry in a ==> entry in b) && Some(name) in x
    ensures Some(name) in y
  {
    hide Contribution;
    var i :| 0 <= i < |x| && x[i] == Some(name);
    assert a[i] in b;
    var j :| 0 <= j < |b| && b[j] == a[i];
    assert y[j] == x[i];
  }

  /** The rebuilt registry does not depend on the order in which the directory lists its entries. */
  lemma DirectoryOrderDoesNotMatter(a: seq<Entry>, b: seq<Entry>, x: seq<Option<Name>>, y: seq<Option<Name>>, current: Name,
                                    first: seq<Name>, second: seq<Name>)
    requires (forall entry :: entry in a <==> entry in b) && Contributed(a, x) && Contributed(b, y)
    requires OnePerSingular(x, current) && OnePerSingular(y, current)
    ensures var start: ByName := map[current.singular := current];
            Gathered(a, start, 0).Ok? && Gathered(b, start, 0).Ok?
            && (Lists(first, Gathered(a, start, 0).value) && Lists(second, Gathered(b, start, 0).value) ==> first == second)
  {
    hide Contribution, Gathered, Contributed, OnePerSingular, Lists;
    var start: ByName := map[current.singular := current];
    RegistryIsRebuilt(a, x, current, first);
    RegistryIsRebuilt(b, y, current, second);
    if Lists(first, Gathered(a, start, 0).value) && Lists(second, Gathered(b, start, 0).value) {
      forall name ensures name in first <==> name in second {
        if Some(name) in x {
          SameContributions(a, b, x, y, name);
        }
        if Some(name) in y {
          SameContributions(b, a, y, x, name);
        }
      }
      RegistriesAgree(first, second);
    }
  }
}
