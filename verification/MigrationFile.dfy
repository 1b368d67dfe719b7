/** `LoadFile` of migrate/files.go: the line scanner, the Up/Down section machine, and the
    statement split of each section. Opening and reading the file are left to the caller,
    who passes its base name and contents. */
module MigrationFile {
  import opened Text
  import opened SqlLexer
  import SqlSplitter

  const UP_MARKER := "-- +soro Up"
  const DOWN_MARKER := "-- +soro Down"

  /** `bufio.MaxScanTokenSize`: the scanner's buffer, in bytes, which must hold a line and its newline. */
  const MAX_SCAN_TOKEN_SIZE := 65536

  datatype Migration = Migration(name: string, up: seq<string>, down: seq<string>)

  datatype LoadError =
    | MisplacedUp | MisplacedDown | ContentBeforeUp | LineTooLong | MissingMarker
    | UpSection(outcome: Outcome) | DownSection(outcome: Outcome) | EmptySection

  // ---- bufio.Scanner over lines

  function Utf8Width(c: char): nat {
    if c < '\U{0080}' then 1 else if c < '\U{0800}' then 2 else if c < '\U{10000}' then 3 else 4
  }

  function Utf8Length(s: string): nat {
    if s == "" then 0 else Utf8Width(s[0]) + Utf8Length(s[1..])
  }

  /** The length of the first line, without its newline. */
  function LineLength(s: string): (n: nat)
    ensures n <= |s| && (n < |s| ==> s[n] == '\n')
    ensures forall i :: 0 <= i < n ==> s[i] != '\n'
  {
    if s == "" || s[0] == '\n' then 0 else 1 + LineLength(s[1..])
  }

  function DropReturn(line: string): string {
    if line != "" && line[|line| - 1] == '\r' then line[..|line| - 1] else line
  }

  function AfterLine(s: string): (rest: string)
    requires s != ""
    ensures |rest| < |s|
  {
    if LineLength(s) < |s| then s[LineLength(s) + 1..] else ""
  }

  predicate Fits(line: string) {
    Utf8Length(line) < MAX_SCAN_TOKEN_SIZE
  }

  /** What one call of `Scan` delivers. */
  datatype Scanned = Line(text: string) | TooLong

  function Scan(s: string): (first: Scanned)
    requires s != ""
  {
    var raw := s[..LineLength(s)];
    if Fits(raw) then Line(DropReturn(raw)) else TooLong
  }

  /** Every line the scanner delivers; it stops at a line that does not fit its buffer. */
  function ScanAll(s: string): seq<Scanned>
    decreases |s|
  {
    if s == "" then []
    else if Scan(s).TooLong? then [TooLong]
    else [Scan(s)] + ScanAll(AfterLine(s))
  }

  // ---- The section machine

  datatype Section = Before | InUp | InDown

  datatype Sections = Sections(up: string, down: string)

  /** What the section machine makes of the lines still to come. */
  function Read(lines: seq<Scanned>, section: Section, up: string, down: string): Result<Sections, LoadError> {
    if lines == [] then
      if section.InDown? then Ok(Sections(up, down)) else Err(MissingMarker)
    else if lines[0].TooLong? then Err(LineTooLong)
    else
      var text, rest := lines[0].text, lines[1..];
      if Trim(text) == UP_MARKER then
        if section.Before? then Read(rest, InUp, up, down) else Err(MisplacedUp)
      else if Trim(text) == DOWN_MARKER then
        if section.InUp? then Read(rest, InDown, up, down) else Err(MisplacedDown)
      else
        match section
        case InUp => Read(rest, section, up + text + "\n", down)
        case InDown => Read(rest, section, up, down + text + "\n")
        case Before => if Trim(text) != "" then Err(ContentBeforeUp) else Read(rest, section, up, down)
  }

  function TrimSuffix(s: string, suffix: string): string {
    if |suffix| <= |s| && s[|s| - |suffix|..] == suffix then s[..|s| - |suffix|] else s
  }

  /** The result of loading a file. */
  function Load(base: string, contents: string): Result<Migration, LoadError> {
    match Read(ScanAll(contents), Before, "", "")
    case Err(error) => Err(error)
    case Ok(Sections(up, down)) =>
      var upOutcome, downOutcome := SplitAll(up), SplitAll(down);
      if !upOutcome.Statements? then Err(UpSection(upOutcome))
      else if !downOutcome.Statements? then Err(DownSection(downOutcome))
      else if upOutcome.list == [] || downOutcome.list == [] then Err(EmptySection)
      else Ok(Migration(TrimSuffix(base, ".sql"), upOutcome.list, downOutcome.list))
  }

  method LoadFile(base: string, contents: string) returns (result: Result<Migration, LoadError>)
    ensures result == Load(base, contents)
  {
    var up, down := "", "";
    var section := Before;
    var seenUp, seenDown := false, false;
    var remaining := contents;
    while remaining != ""
      invariant seenUp <==> !section.Before?
      invariant seenDown <==> section.InDown?
      invariant Read(ScanAll(contents), Before, "", "") == Read(ScanAll(remaining), section, up, down)
      decreases |remaining|
    {
      hide Trim, Fits, LineLength, AfterLine;
      var line := Scan(remaining);
      assert ScanAll(remaining)[0] == line;
      if line.TooLong? {
        return Err(LineTooLong);
      }
      assert ScanAll(remaining)[1..] == ScanAll(AfterLine(remaining));
      remaining := AfterLine(remaining);
      var text := line.text;
      if Trim(text) == UP_MARKER {
        if seenUp || seenDown {
          return Err(MisplacedUp);
        }
        seenUp, section := true, InUp;
        continue;
      }
      if Trim(text) == DOWN_MARKER {
        if !seenUp || seenDown {
          return Err(MisplacedDown);
        }
        seenDown, section := true, InDown;
        continue;
      }
      match section
      case InUp => up := up + text + "\n";
      case InDown => down := down + text + "\n";
      case Before =>
        if Trim(text) != "" {
          return Err(ContentBeforeUp);
        }
    }
    if !seenUp || !seenDown {
      return Err(MissingMarker);
    }
    var upOutcome := SqlSplitter.SplitStatements(up);
    if !upOutcome.Statements? {
      return Err(UpSection(upOutcome));
    }
    var downOutcome := SqlSplitter.SplitStatements(down);
    if !downOutcome.Statements? {
      return Err(DownSection(downOutcome));
    }
    if upOutcome.list == [] || downOutcome.list == [] {
      return Err(EmptySection);
    }
    return Ok(Migration(TrimSuffix(base, ".sql"), upOutcome.list, downOutcome.list));
  }

  // ---- What a well-formed file is

  predicate IsMarker(text: string) {
    Trim(text) == UP_MARKER || Trim(text) == DOWN_MARKER
  }

  /** Lines that are neither a marker nor too long. */
  predicate Plain(lines: seq<Scanned>) {
    forall i :: 0 <= i < |lines| ==> lines[i].Line? && !IsMarker(lines[i].text)
  }

  predicate BlankLines(lines: seq<Scanned>) {
    forall i :: 0 <= i < |lines| ==> lines[i].Line? && Trim(lines[i].text) == ""
  }

  function Unlines(lines: seq<Scanned>): string
    requires forall i :: 0 <= i < |lines| ==> lines[i].Line?
  {
    if lines == [] then "" else lines[0].text + "\n" + Unlines(lines[1..])
  }

  /** `lines` are blank lines, an Up marker, the lines of `up`, a Down marker and the lines of `down`. */
  ghost predicate Sectioned(lines: seq<Scanned>, blanks: seq<Scanned>, upLine: string, up: seq<Scanned>,
                            downLine: string, down: seq<Scanned>) {
    && lines == blanks + [Line(upLine)] + up + [Line(downLine)] + down
    && BlankLines(blanks) && Trim(upLine) == UP_MARKER && Trim(downLine) == DOWN_MARKER
    && Plain(up) && Plain(down)
  }

  lemma {:induction false} ReadPlain(section: Section, body: seq<Scanned>, rest: seq<Scanned>, up: string, down: string)
    requires Plain(body) && !section.Before?
    ensures Read(body + rest, section, up, down)
            == if section.InUp? then Read(rest, section, up + Unlines(body), down)
               else Read(rest, section, up, down + Unlines(body))
  {
    hide Trim;
    if body == [] {
      assert body + rest == rest && up + "" == up && down + "" == down;
    } else {
      assert (body + rest)[0] == body[0] && (body + rest)[1..] == body[1..] + rest;
      var added := body[0].text + "\n";
      if section.InUp? {
        ReadPlain(section, body[1..], rest, up + body[0].text + "\n", down);
        assert up + body[0].text + "\n" + Unlines(body[1..]) == up + (added + Unlines(body[1..]));
      } else {
        ReadPlain(section, body[1..], rest, up, down + body[0].text + "\n");
        assert down + body[0].text + "\n" + Unlines(body[1..]) == down + (added + Unlines(body[1..]));
      }
    }
  }

  lemma {:induction false} ReadBlanks(blanks: seq<Scanned>, rest: seq<Scanned>, up: string, down: string)
    requires BlankLines(blanks)
    ensures Read(blanks + rest, Before, up, down) == Read(rest, Before, up, down)
  {
    hide Trim;
    if blanks == [] {
      assert blanks + rest == rest;
    } else {
      assert (blanks + rest)[0] == blanks[0] && (blanks + rest)[1..] == blanks[1..] + rest;
      ReadBlanks(blanks[1..], rest, up, down);
    }
  }

  lemma ReadSectioned(lines: seq<Scanned>, blanks: seq<Scanned>, upLine: string, up: seq<Scanned>,
                      downLine: string, down: seq<Scanned>)
    requires Sectioned(lines, blanks, upLine, up, downLine, down)
    ensures Read(lines, Before, "", "") == Ok(Sections(Unlines(up), Unlines(down)))
  {
    hide Trim;
    var tail := [Line(downLine)] + down;
    assert lines == blanks + ([Line(upLine)] + (up + tail));
    ReadBlanks(blanks, [Line(upLine)] + (up + tail), "", "");
    assert ([Line(upLine)] + (up + tail))[1..] == up + tail;
    ReadPlain(InUp, up, tail, "", "");
    assert tail[1..] == down && "" + Unlines(up) == Unlines(up);
    assert down + [] == down;
    ReadPlain(InDown, down, [], Unlines(up), "");
    assert "" + Unlines(down) == Unlines(down);
  }

  lemma {:induction false} ReadDownIsPlain(lines: seq<Scanned>, up: string, down: string)
    requires Read(lines, InDown, up, down).Ok?
    ensures Plain(lines)
  {
    hide Trim;
    if lines != [] {
      ReadDownIsPlain(lines[1..], up, down + lines[0].text + "\n");
      assert forall i :: 0 < i < |lines| ==> lines[i] == lines[1..][i - 1];
    }
  }

  lemma {:induction false} ReadUpParts(lines: seq<Scanned>, up: string, down: string)
    returns (body: seq<Scanned>, downLine: string, rest: seq<Scanned>)
    requires Read(lines, InUp, up, down).Ok?
    ensures lines == body + [Line(downLine)] + rest && Trim(downLine) == DOWN_MARKER && Plain(body) && Plain(rest)
  {
    hide Trim;
    if Trim(lines[0].text) == DOWN_MARKER {
      body, downLine, rest := [], lines[0].text, lines[1..];
      ReadDownIsPlain(rest, up, down);
    } else {
      body, downLine, rest := ReadUpParts(lines[1..], up + lines[0].text + "\n", down);
      assert Plain([lines[0]]);
      body := [lines[0]] + body;
    }
  }

  lemma {:induction false} ReadParts(lines: seq<Scanned>)
    returns (blanks: seq<Scanned>, upLine: string, up: seq<Scanned>, downLine: string, down: seq<Scanned>)
    requires Read(lines, Before, "", "").Ok?
    ensures Sectioned(lines, blanks, upLine, up, downLine, down)
  {
    hide Trim;
    if Trim(lines[0].text) == UP_MARKER {
      blanks, upLine := [], lines[0].text;
      up, downLine, down := ReadUpParts(lines[1..], "", "");
      assert lines == [] + [Line(upLine)] + up + [Line(downLine)] + down;
    } else {
      blanks, upLine, up, downLine, down := ReadParts(lines[1..]);
      assert BlankLines([lines[0]]);
      blanks := [lines[0]] + blanks;
      assert lines == blanks + [Line(upLine)] + up + [Line(downLine)] + down;
    }
  }

  /** The statements that a sectioned file holds. */
  ghost predicate Holds(contents: string, upList: seq<string>, downList: seq<string>) {
    exists blanks, upLine, up, downLine, down ::
      Sectioned(ScanAll(contents), blanks, upLine, up, downLine, down) &&
      SplitAll(Unlines(up)) == Statements(upList) && SplitAll(Unlines(down)) == Statements(downList)
  }

  /** A file loads exactly when it is blank lines, one Up marker, marker-free lines, one Down marker and
      marker-free lines, and both bodies split into at least one statement; those are the statements loaded. */
  lemma LoadsExactlySections(base: string, contents: string, upList: seq<string>, downList: seq<string>)
    ensures Load(base, contents) == Ok(Migration(TrimSuffix(base, ".sql"), upList, downList))
            <==> upList != [] && downList != [] && Holds(contents, upList, downList)
  {
    hide Trim, SplitAll, Sectioned, Read;
    var lines := ScanAll(contents);
    if Load(base, contents) == Ok(Migration(TrimSuffix(base, ".sql"), upList, downList)) {
      var blanks, upLine, up, downLine, down := ReadParts(lines);
      ReadSectioned(lines, blanks, upLine, up, downLine, down);
      PlainLines(lines, blanks, upLine, up, downLine, down);
    }
    if upList != [] && downList != [] && Holds(contents, upList, downList) {
      forall blanks, upLine, up, downLine, down | Sectioned(lines, blanks, upLine, up, downLine, down)
        ensures PlainParts(up, down) && Read(lines, Before, "", "") == Ok(Sections(Unlines(up), Unlines(down)))
      {
        PlainLines(lines, blanks, upLine, up, downLine, down);
        ReadSectioned(lines, blanks, upLine, up, downLine, down);
      }
    }
  }

  predicate PlainParts(up: seq<Scanned>, down: seq<Scanned>) {
    Plain(up) && Plain(down)
  }

  lemma PlainLines(lines: seq<Scanned>, blanks: seq<Scanned>, upLine: string, up: seq<Scanned>,
                   downLine: string, down: seq<Scanned>)
    requires Sectioned(lines, blanks, upLine, up, downLine, down)
    ensures PlainParts(up, down)
  {
  }
}
