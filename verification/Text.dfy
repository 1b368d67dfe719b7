/** Optional values, results, and the Go library text helpers the repository relies on. A string is a sequence
    of code points, the valid UTF-8 reading of a Go string. */
module Text {

  datatype Option<+T> = None | Some(value: T)

  datatype Result<+T, +E> = Ok(value: T) | Err(error: E)

  /** The items read so far, followed by the outcome of reading the rest. */
  function Prepended<T, E>(done: seq<T>, outcome: Result<seq<T>, E>): Result<seq<T>, E> {
    match outcome
    case Err(error) => Err(error)
    case Ok(rest) => Ok(done + rest)
  }

  lemma PrependedNothing<T, E>(outcome: Result<seq<T>, E>)
    ensures Prepended([], outcome) == outcome
  {
    assert outcome.Ok? ==> [] + outcome.value == outcome.value;
  }

  /** `unicode.IsSpace`. */
  predicate IsSpace(c: char) {
    || '\t' <= c <= '\r' || c == ' ' || c == '\U{0085}' || c == '\U{00A0}' || c == '\U{1680}'
    || '\U{2000}' <= c <= '\U{200A}' || c == '\U{2028}' || c == '\U{2029}' || c == '\U{202F}'
    || c == '\U{205F}' || c == '\U{3000}'
  }

  predicate Blank(s: string) {
    forall i :: 0 <= i < |s| ==> IsSpace(s[i])
  }

  /** What `strings.TrimSpace` returns unchanged. */
  predicate Trimmed(s: string) {
    s == "" || (!IsSpace(s[0]) && !IsSpace(s[|s| - 1]))
  }

  function TrimLeft(s: string): string {
    if s != "" && IsSpace(s[0]) then TrimLeft(s[1..]) else s
  }

  function TrimRight(s: string): string {
    if s != "" && IsSpace(s[|s| - 1]) then TrimRight(s[..|s| - 1]) else s
  }

  /** `strings.TrimSpace`. */
  function Trim(s: string): string {
    TrimRight(TrimLeft(s))
  }

  lemma {:induction false} TrimLeftSplit(s: string) returns (left: string)
    ensures Blank(left) && s == left + TrimLeft(s)
    ensures TrimLeft(s) != "" ==> !IsSpace(TrimLeft(s)[0])
  {
    if s != "" && IsSpace(s[0]) {
      var rest := TrimLeftSplit(s[1..]);
      left := s[..1] + rest;
    } else {
      left := "";
    }
  }

  lemma {:induction false} TrimRightSplit(s: string) returns (right: string)
    ensures Blank(right) && s == TrimRight(s) + right
    ensures TrimRight(s) != "" ==> !IsSpace(TrimRight(s)[|TrimRight(s)| - 1])
  {
    if s != "" && IsSpace(s[|s| - 1]) {
      var rest := TrimRightSplit(s[..|s| - 1]);
      right := rest + s[|s| - 1..];
    } else {
      right := "";
    }
  }

  /** Trimming removes blanks at both ends and nothing else. */
  lemma TrimSplit(s: string) returns (left: string, right: string)
    ensures Blank(left) && Blank(right) && s == left + Trim(s) + right
    ensures Trimmed(Trim(s))
  {
    left := TrimLeftSplit(s);
    right := TrimRightSplit(TrimLeft(s));
    assert Trim(s) != "" ==> TrimLeft(s)[0] == Trim(s)[0];
  }

  lemma {:induction false} TrimLeftBlank(left: string, s: string)
    requires Blank(left)
    ensures TrimLeft(left + s) == TrimLeft(s)
  {
    if left == "" {
      assert left + s == s;
    } else {
      assert (left + s)[0] == left[0] && (left + s)[1..] == left[1..] + s;
      TrimLeftBlank(left[1..], s);
    }
  }

  lemma {:induction false} TrimRightBlank(s: string, right: string)
    requires Blank(right)
    ensures TrimRight(s + right) == TrimRight(s)
  {
    if right == "" {
      assert s + right == s;
    } else {
      assert (s + right)[|s + right| - 1] == right[|right| - 1];
      assert (s + right)[..|s + right| - 1] == s + right[..|right| - 1];
      TrimRightBlank(s, right[..|right| - 1]);
    }
  }

  /** The trimmed text is the only trimmed core between two blanks. */
  lemma TrimUnique(left: string, core: string, right: string)
    requires Blank(left) && Blank(right) && Trimmed(core)
    ensures Trim(left + core + right) == core
  {
    assert left + core + right == left + (core + right);
    TrimLeftBlank(left, core + right);
    if core == "" {
      assert core + right == right + "";
      TrimLeftBlank(right, "");
    } else {
      assert TrimLeft(core + right) == core + right;
      TrimRightBlank(core, right);
    }
  }

  lemma TrimBlank(left: string, s: string, right: string)
    requires Blank(left) && Blank(right)
    ensures Trim(left + s + right) == Trim(s)
  {
    var l, r := TrimSplit(s);
    assert left + s + right == (left + l) + Trim(s) + (r + right);
    TrimUnique(left + l, Trim(s), r + right);
  }

  lemma TrimFirst(s: string)
    requires s != "" && !IsSpace(s[0])
    ensures Trim(s) != "" && Trim(s)[0] == s[0]
  {
    var right := TrimRightSplit(s);
    assert TrimLeft(s) == s;
    assert TrimRight(s) == "" ==> s == right;
  }

  /** `strings.Join`. */
  function Join(parts: seq<string>, separator: string): string {
    if parts == [] then "" else if |parts| == 1 then parts[0]
    else parts[0] + separator + Join(parts[1..], separator)
  }

  /** `strings.Split` at a single character. */
  function SplitOn(s: string, separator: char): (parts: seq<string>)
    ensures parts != []
  {
    if s == "" then [""]
    else
      var parts := SplitOn(s[1..], separator);
      if s[0] == separator then [""] + parts else [[s[0]] + parts[0]] + parts[1..]
  }

  lemma {:induction false} SplitOnPart(part: string, separator: char, rest: string)
    requires separator !in part
    ensures SplitOn(part, separator) == [part]
    ensures SplitOn(part + [separator] + rest, separator) == [part] + SplitOn(rest, separator)
  {
    var s := part + [separator] + rest;
    if part == "" {
      assert s[1..] == rest;
    } else {
      assert s[1..] == part[1..] + [separator] + rest;
      SplitOnPart(part[1..], separator, rest);
      assert [part[0]] + part[1..] == part;
    }
  }

  /** Splitting undoes joining, for parts without the separator. */
  lemma {:induction false} SplitOnJoin(parts: seq<string>, separator: char)
    requires parts != [] && forall i :: 0 <= i < |parts| ==> separator !in parts[i]
    ensures SplitOn(Join(parts, [separator]), separator) == parts
  {
    if |parts| == 1 {
      SplitOnPart(parts[0], separator, "");
    } else {
      SplitOnPart(parts[0], separator, Join(parts[1..], [separator]));
      SplitOnJoin(parts[1..], separator);
      assert [parts[0]] + parts[1..] == parts;
    }
  }

  /** Joining undoes splitting, for every text. */
  lemma {:induction false} JoinSplitOn(s: string, separator: char)
    ensures Join(SplitOn(s, separator), [separator]) == s
    ensures forall i :: 0 <= i < |SplitOn(s, separator)| ==> separator !in SplitOn(s, separator)[i]
  {
    if s != "" {
      JoinSplitOn(s[1..], separator);
      var parts := SplitOn(s[1..], separator);
      var all := SplitOn(s, separator);
      if s[0] == separator {
        assert all[1..] == parts && "" + [separator] + s[1..] == s;
      } else {
        assert all[1..] == parts[1..] && [s[0]] + s[1..] == s;
        if |parts| > 1 {
          assert [s[0]] + parts[0] + [separator] + Join(parts[1..], [separator])
              == [s[0]] + (parts[0] + [separator] + Join(parts[1..], [separator]));
        }
        assert separator !in all[0] by { assert separator !in parts[0]; }
        assert forall i :: 0 < i < |all| ==> all[i] == parts[i];
      }
    }
  }
}
