/** `writeFiles` of generate/generator.go: every file is prepared and checked before the first one is written. */
module GeneratorWrites {
  import opened Text

  type Path = string
  type Content = string

  datatype GeneratedFile = GeneratedFile(path: Path, content: Content, goFile: bool, managed: bool)

  datatype Transformed = Failed | NilContent | Replaced(content: Content)

  datatype Failure =
    | TransformerFailed(path: Path, position: nat)
    | TransformerReturnedNil(path: Path, position: nat)
    | MarkerLost(path: Path)
    | BadSource(path: Path)
    | DuplicatePath(path: Path)
    | WouldOverwrite(path: Path)
    | WouldOverwriteUnmanaged(path: Path)
    | StatFailed(path: Path)
    | ReadFailed(path: Path)
    | WriteFailed(path: Path)

  /** The generator, and what it does not control: how a path is joined to the root, the Go formatter, and which
      paths cannot be examined, read or written. A write goes to a temporary file that is renamed at the end, so that
      one that fails leaves its target alone. */
  datatype Generator = Generator(
    force: bool,
    transformers: seq<(Path, Content) -> Transformed>,
    absolute: Path -> Path,
    format: Content -> Option<Content>,
    statFails: Path -> bool,
    readFails: Path -> bool,
    writeFails: Path -> bool)

  const MANAGED := "// Code generated by Soro. DO NOT EDIT."

  predicate HasMarker(content: Content) {
    |content| >= |MANAGED| && content[..|MANAGED|] == MANAGED
  }

  type Files = map<Path, Content>

  // ------------------------------------------------------------------------------------------- preflight

  /** The content after the transformers from `t` on. */
  function Transform(generator: Generator, path: Path, content: Content, t: nat): Result<Content, Failure>
    requires t <= |generator.transformers|
    decreases |generator.transformers| - t
  {
    if t == |generator.transformers| then Ok(content)
    else
      match generator.transformers[t](path, content)
      case Failed => Err(TransformerFailed(path, t + 1))
      case NilContent => Err(TransformerReturnedNil(path, t + 1))
      case Replaced(next) => Transform(generator, path, next, t + 1)
  }

  /** The file with its final content. */
  function Prepared(generator: Generator, file: GeneratedFile): Result<GeneratedFile, Failure> {
    match Transform(generator, file.path, file.content, 0)
    case Err(failure) => Err(failure)
    case Ok(content) =>
      if file.managed && !HasMarker(content) then Err(MarkerLost(file.path))
      else if !file.goFile then Ok(file.(content := content))
      else
        match generator.format(content)
        case None => Err(BadSource(file.path))
        case Some(source) => Ok(file.(content := source))
  }

  /** Whether the file may take its place on the disk. */
  function Obstacle(generator: Generator, disk: Files, file: GeneratedFile): Option<Failure> {
    var absolute := generator.absolute(file.path);
    if generator.statFails(absolute) then Some(StatFailed(file.path))
    else if absolute !in disk || generator.force then None
    else if !file.managed then Some(WouldOverwrite(file.path))
    else if generator.readFails(absolute) then Some(ReadFailed(file.path))
    else if !HasMarker(disk[absolute]) then Some(WouldOverwriteUnmanaged(file.path))
    else None
  }

  function Absolutes(generator: Generator, files: seq<GeneratedFile>): (paths: seq<Path>)
    ensures |paths| == |files| && forall i :: 0 <= i < |files| ==> paths[i] == generator.absolute(files[i].path)
  {
    seq(|files|, i requires 0 <= i < |files| => generator.absolute(files[i].path))
  }

  /** The prepared files from `i` on, or the first failure. */
  function Preflight(generator: Generator, disk: Files, files: seq<GeneratedFile>, i: nat): Result<seq<GeneratedFile>, Failure>
    requires i <= |files|
    decreases |files| - i
  {
    if i == |files| then Ok([])
    else
      match Prepared(generator, files[i])
      case Err(failure) => Err(failure)
      case Ok(file) =>
        if generator.absolute(files[i].path) in Absolutes(generator, files)[..i] then Err(DuplicatePath(file.path))
        else if Obstacle(generator, disk, file).Some? then Err(Obstacle(generator, disk, file).value)
        else Text.Prepended([file], Preflight(generator, disk, files, i + 1))
  }

  // ---------------------------------------------------------------------------------------------- commit

  function Stored(generator: Generator, disk: Files, files: seq<GeneratedFile>): Files {
    if files == [] then disk
    else
      var last := files[|files| - 1];
      Stored(generator, disk, files[..|files| - 1])[generator.absolute(last.path) := last.content]
  }

  /** How many files, from `i` on, are written before the first write that fails. */
  function Writable(generator: Generator, files: seq<GeneratedFile>, i: nat): (n: nat)
    requires i <= |files|
    ensures i + n <= |files|
    decreases |files| - i
  {
    if i == |files| || generator.writeFails(generator.absolute(files[i].path)) then 0
    else 1 + Writable(generator, files, i + 1)
  }

  function Paths(files: seq<GeneratedFile>): (paths: seq<Path>)
    ensures |paths| == |files| && forall i :: 0 <= i < |files| ==> paths[i] == files[i].path
  {
    seq(|files|, i requires 0 <= i < |files| => files[i].path)
  }

  class Session {
    const generator: Generator
    var disk: Files

    constructor (generator: Generator, disk: Files)
      ensures this.generator == generator && this.disk == disk
    {
      this.generator := generator;
      this.disk := disk;
    }

    method TransformContent(path: Path, content: Content) returns (outcome: Result<Content, Failure>)
      ensures outcome == Transform(generator, path, content, 0)
    {
      var current := content;
      for t := 0 to |generator.transformers|
        invariant Transform(generator, path, content, 0) == Transform(generator, path, current, t)
      {
        match generator.transformers[t](path, current)
        case Failed => return Err(TransformerFailed(path, t + 1));
        case NilContent => return Err(TransformerReturnedNil(path, t + 1));
        case Replaced(next) => current := next;
      }
      outcome := Ok(current);
    }

    /** The preparation of one file, in place. */
    method PrepareFile(files: array<GeneratedFile>, index: nat) returns (failure: Option<Failure>)
      requires index < files.Length
      modifies files
      ensures forall j :: 0 <= j < files.Length && j != index ==> files[j] == old(files[j])
      ensures match Prepared(generator, old(files[index]))
              case Err(f) => failure == Some(f)
              case Ok(file) => failure == None && files[index] == file
    {
      hide HasMarker, Transform;
      var file := files[index];
      var content := TransformContent(file.path, file.content);
      if content.Err? {
        return Some(content.error);
      }
      files[index] := file.(content := content.value);
      if file.managed && !HasMarker(files[index].content) {
        return Some(MarkerLost(file.path));
      }
      if file.goFile {
        var source := generator.format(files[index].content);
        if source.None? {
          return Some(BadSource(file.path));
        }
        files[index] := file.(content := source.value);
      }
      failure := None;
    }

    method CheckDestination(file: GeneratedFile, seen: set<Path>) returns (failure: Option<Failure>)
      ensures failure == if generator.absolute(file.path) in seen then Some(DuplicatePath(file.path))
                         else Obstacle(generator, disk, file)
    {
      hide HasMarker;
      var absolute := generator.absolute(file.path);
      if absolute in seen {
        return Some(DuplicatePath(file.path));
      }
      var statFails := generator.statFails(absolute);
      var present := !statFails && absolute in disk;
      if present && !generator.force && !file.managed {
        return Some(WouldOverwrite(file.path));
      } else if present && !generator.force && file.managed {
        if generator.readFails(absolute) {
          return Some(ReadFailed(file.path));
        }
        if !HasMarker(disk[absolute]) {
          return Some(WouldOverwriteUnmanaged(file.path));
        }
      } else if statFails {
        return Some(StatFailed(file.path));
      }
      failure := None;
    }

    method RunPreflight(files: array<GeneratedFile>) returns (failure: Option<Failure>)
      modifies files
      ensures match Preflight(generator, disk, old(files[..]), 0)
              case Err(f) => failure == Some(f)
              case Ok(prepared) => failure == None && files[..] == prepared
    {
      hide Prepared, Obstacle;
      ghost var given := files[..];
      var seen: set<Path> := {};
      PrependedNothing(Preflight(generator, disk, given, 0));
      assert files[..0] == [];
      for index := 0 to files.Length
        invariant forall j :: index <= j < files.Length ==> files[j] == given[j]
        invariant forall path :: path in seen <==> path in Absolutes(generator, given)[..index]
        invariant Preflight(generator, disk, given, 0) == Text.Prepended(files[..index], Preflight(generator, disk, given, index))
      {
        ghost var done := files[..index];
        failure := PrepareFile(files, index);
        if failure.Some? {
          return;
        }
        PreparedKeepsPath(generator, given[index]);
        failure := CheckDestination(files[index], seen);
        if failure.Some? {
          return;
        }
        seen := seen + {generator.absolute(files[index].path)};
        PreflightStep(generator, disk, given, index, done, files[index]);
        assert files[..index + 1] == done + [files[index]];
        assert Absolutes(generator, given)[..index + 1] == Absolutes(generator, given)[..index] + [Absolutes(generator, given)[index]];
      }
      assert files[..files.Length] + [] == files[..];
      failure := None;
    }

    method WriteFiles(files: array<GeneratedFile>) returns (written: seq<Path>, failure: Option<Failure>)
      modifies this, files
      ensures match Preflight(generator, old(disk), old(files[..]), 0)
              case Err(f) => failure == Some(f) && written == [] && disk == old(disk)
              case Ok(prepared) =>
                files[..] == prepared
                && var n := Writable(generator, prepared, 0);
                   written == Paths(prepared[..n]) && disk == Stored(generator, old(disk), prepared[..n])
                   && failure == if n == |prepared| then None else Some(WriteFailed(prepared[n].path))
    {
      hide Preflight, Paths, Absolutes;
      failure := RunPreflight(files);
      written := [];
      if failure.Some? {
        return;
      }
      ghost var prepared := files[..];
      NoPaths();
      assert prepared[..0] == [];
      for index := 0 to files.Length
        invariant files[..] == prepared && failure == None
        invariant written == Paths(prepared[..index]) && disk == Stored(generator, old(disk), prepared[..index])
        invariant Writable(generator, prepared, 0) == index + Writable(generator, prepared, index)
      {
        var file := files[index];
        assert file == prepared[index];
        var absolute := generator.absolute(file.path);
        if generator.writeFails(absolute) {
          return written, Some(WriteFailed(file.path));
        }
        disk := disk[absolute := file.content];
        written := written + [file.path];
        assert prepared[..index + 1][..index] == prepared[..index];
        PathsStep(prepared, index);
      }
      assert prepared[..files.Length] == prepared;
    }
  }

  lemma NoPaths()
    ensures Paths([]) == []
  {
  }

  lemma PathsStep(files: seq<GeneratedFile>, index: nat)
    requires index < |files|
    ensures Paths(files[..index + 1]) == Paths(files[..index]) + [files[index].path]
  {
  }

  lemma PreparedKeepsPath(generator: Generator, file: GeneratedFile)
    ensures Prepared(generator, file).Ok? ==>
              Prepared(generator, file).value.path == file.path && Prepared(generator, file).value.managed == file.managed
  {
  }

  lemma PreflightStep(generator: Generator, disk: Files, files: seq<GeneratedFile>, i: nat, done: seq<GeneratedFile>, file: GeneratedFile)
    requires i < |files| && Prepared(generator, files[i]) == Ok(file) && file.path == files[i].path
    requires generator.absolute(file.path) !in Absolutes(generator, files)[..i] && Obstacle(generator, disk, file) == None
    ensures Text.Prepended(done, Preflight(generator, disk, files, i))
            == Text.Prepended(done + [file], Preflight(generator, disk, files, i + 1))
  {
    hide Obstacle, Prepared;
    var rest := Preflight(generator, disk, files, i + 1);
    assert rest.Ok? ==> done + ([file] + rest.value) == (done + [file]) + rest.value;
  }

  // ------------------------------------------------------------------------------------------------ laws

  /** What the preflight demands of one file. */
  predicate Clears(generator: Generator, disk: Files, files: seq<GeneratedFile>, i: nat)
    requires i < |files|
  {
    && Prepared(generator, files[i]).Ok?
    && generator.absolute(files[i].path) !in Absolutes(generator, files)[..i]
    && Obstacle(generator, disk, Prepared(generator, files[i]).value).None?
  }

  lemma {:induction false} PreflightMeans(generator: Generator, disk: Files, files: seq<GeneratedFile>, i: nat)
    requires i <= |files|
    ensures var outcome := Preflight(generator, disk, files, i);
            (outcome.Ok? <==> forall k :: i <= k < |files| ==> Clears(generator, disk, files, k))
            && (outcome.Ok? ==> |outcome.value| == |files| - i
                                && forall k :: i <= k < |files| ==> Prepared(generator, files[k]) == Ok(outcome.value[k - i]))
    decreases |files| - i
  {
    hide Prepared, Obstacle;
    if i < |files| {
      PreflightMeans(generator, disk, files, i + 1);
      var rest := Preflight(generator, disk, files, i + 1);
      assert Preflight(generator, disk, files, i).Ok? <==> Clears(generator, disk, files, i) && rest.Ok?;
      if Preflight(generator, disk, files, i).Ok? {
        var all := Preflight(generator, disk, files, i).value;
        assert all == [Prepared(generator, files[i]).value] + rest.value;
        forall k | i <= k < |files| ensures Prepared(generator, files[k]) == Ok(all[k - i]) {
          assert k > i ==> all[k - i] == rest.value[k - (i + 1)];
        }
      }
    }
  }

  lemma {:induction false} StoredHolds(generator: Generator, disk: Files, files: seq<GeneratedFile>, path: Path)
    requires forall i, j :: 0 <= i < j < |files| ==> generator.absolute(files[i].path) != generator.absolute(files[j].path)
    ensures forall i :: 0 <= i < |files| && generator.absolute(files[i].path) == path ==>
              path in Stored(generator, disk, files) && Stored(generator, disk, files)[path] == files[i].content
    ensures (forall i :: 0 <= i < |files| ==> generator.absolute(files[i].path) != path) ==>
              (path in Stored(generator, disk, files) <==> path in disk)
              && (path in disk ==> Stored(generator, disk, files)[path] == disk[path])
    decreases |files|
  {
    if files != [] {
      var n := |files| - 1;
      StoredHolds(generator, disk, files[..n], path);
      assert forall i :: 0 <= i < n ==> files[..n][i] == files[i];
    }
  }

  /** `disk` after `written`: the listed files hold their contents, and nothing else changed. */
  predicate Replaces(generator: Generator, before: Files, files: seq<GeneratedFile>, after: Files) {
    && (forall i :: 0 <= i < |files| ==>
          generator.absolute(files[i].path) in after && after[generator.absolute(files[i].path)] == files[i].content)
    && (forall path :: path in before && path !in Absolutes(generator, files) ==> path in after && after[path] == before[path])
    && (forall path :: path in after && path !in Absolutes(generator, files) ==> path in before)
  }

  /** After a successful preflight, the files written before a failure hold exactly their final contents, and every
      other path is as it was. */
  lemma ExactlyTheWrittenFilesChange(generator: Generator, disk: Files, files: seq<GeneratedFile>, n: nat)
    requires Preflight(generator, disk, files, 0).Ok? && n <= |files|
    ensures var prepared := Preflight(generator, disk, files, 0).value;
            |prepared| == |files| && Replaces(generator, disk, prepared[..n], Stored(generator, disk, prepared[..n]))
  {
    hide Prepared, Obstacle, Preflight, Stored;
    PreflightMeans(generator, disk, files, 0);
    var prepared := Preflight(generator, disk, files, 0).value;
    forall i | 0 <= i < |files| ensures prepared[i].path == files[i].path {
      assert Prepared(generator, files[i]) == Ok(prepared[i - 0]);
      PreparedKeepsPath(generator, files[i]);
    }
    var some := prepared[..n];
    forall i, j | 0 <= i < j < |some| ensures generator.absolute(some[i].path) != generator.absolute(some[j].path) {
      assert Clears(generator, disk, files, j);
      assert Absolutes(generator, files)[..j][i] == generator.absolute(files[i].path);
    }
    forall i | 0 <= i < |some|
      ensures generator.absolute(some[i].path) in Stored(generator, disk, some)
              && Stored(generator, disk, some)[generator.absolute(some[i].path)] == some[i].content
    {
      StoredHolds(generator, disk, some, generator.absolute(some[i].path));
    }
    forall path | path !in Absolutes(generator, some)
      ensures (path in Stored(generator, disk, some) <==> path in disk)
              && (path in disk ==> Stored(generator, disk, some)[path] == disk[path])
    {
      StoredHolds(generator, disk, some, path);
      assert forall i :: 0 <= i < |some| ==> Absolutes(generator, some)[i] != path;
    }
  }

  /** Without force, a preflight succeeds only if every existing destination is a managed file that still carries the
      marker: no other existing file is ever replaced. */
  lemma OnlyManagedFilesAreReplaced(generator: Generator, disk: Files, files: seq<GeneratedFile>, i: nat)
    requires Preflight(generator, disk, files, 0).Ok? && !generator.force && i < |files|
    requires generator.absolute(files[i].path) in disk
    ensures files[i].managed && HasMarker(disk[generator.absolute(files[i].path)])
  {
    hide Prepared, Preflight, HasMarker;
    PreflightMeans(generator, disk, files, 0);
    assert Clears(generator, disk, files, i);
    PreparedKeepsPath(generator, files[i]);
  }

  // ------------------------------------------------------------------------------------- final contents

  /** The contents between the transformers: the file's own, and then what each transformer makes of the one before. */
  predicate Chain(generator: Generator, path: Path, contents: seq<Content>, from: nat)
    requires from <= |generator.transformers|
  {
    && |contents| == |generator.transformers| - from + 1
    && forall t :: from <= t < |generator.transformers| ==>
         generator.transformers[t](path, contents[t - from]) == Replaced(contents[t - from + 1])
  }

  lemma {:induction false} TransformIsChain(generator: Generator, path: Path, content: Content, from: nat, result: Content)
    requires from <= |generator.transformers|
    ensures Transform(generator, path, content, from) == Ok(result)
            <==> exists contents :: Chain(generator, path, contents, from) && contents[0] == content && contents[|contents| - 1] == result
    decreases |generator.transformers| - from
  {
    if from == |generator.transformers| {
      assert content == result ==> Chain(generator, path, [content], from);
    } else {
      var first := generator.transformers[from](path, content);
      if first.Replaced? {
        TransformIsChain(generator, path, first.content, from + 1, result);
        if Transform(generator, path, content, from) == Ok(result) {
          var rest :| Chain(generator, path, rest, from + 1) && rest[0] == first.content && rest[|rest| - 1] == result;
          ChainCons(generator, path, content, rest, from);
        }
      }
      forall contents | Chain(generator, path, contents, from) && contents[0] == content && contents[|contents| - 1] == result
        ensures Transform(generator, path, content, from) == Ok(result)
      {
        ChainTail(generator, path, contents, from);
        assert contents[1..][|contents| - 2] == result;
      }
    }
  }

  lemma ChainCons(generator: Generator, path: Path, content: Content, rest: seq<Content>, from: nat)
    requires from < |generator.transformers| && Chain(generator, path, rest, from + 1)
    requires generator.transformers[from](path, content) == Replaced(rest[0])
    ensures Chain(generator, path, [content] + rest, from)
    ensures ([content] + rest)[0] == content && ([content] + rest)[|rest|] == rest[|rest| - 1]
  {
    var all := [content] + rest;
    assert forall i :: 0 < i < |all| ==> all[i] == rest[i - 1];
  }

  lemma ChainTail(generator: Generator, path: Path, contents: seq<Content>, from: nat)
    requires from < |generator.transformers| && Chain(generator, path, contents, from)
    ensures Chain(generator, path, contents[1..], from + 1)
    ensures generator.transformers[from](path, contents[0]) == Replaced(contents[1..][0])
  {
    assert forall i :: 0 <= i < |contents[1..]| ==> contents[1..][i] == contents[i + 1];
  }

  /** The content that a file must end up with: its own through every transformer in turn, with the marker at its front if the
      file is managed, and formatted if it is Go. */
  ghost predicate FinalContent(generator: Generator, file: GeneratedFile, content: Content) {
    exists contents ::
      && Chain(generator, file.path, contents, 0) && contents[0] == file.content
      && (file.managed ==> "// Code generated by Soro. DO NOT EDIT." <= contents[|contents| - 1])
      && (if file.goFile then generator.format(contents[|contents| - 1]) == Some(content) else content == contents[|contents| - 1])
  }

  /** A file is prepared exactly when it can have a final content, and that is the one it gets; nothing else changes. */
  lemma PreparedIsFinal(generator: Generator, file: GeneratedFile, prepared: GeneratedFile)
    ensures Prepared(generator, file) == Ok(prepared)
            <==> prepared == file.(content := prepared.content) && FinalContent(generator, file, prepared.content)
  {
    hide Transform;
    var last := Transform(generator, file.path, file.content, 0);
    if last.Ok? {
      TransformIsChain(generator, file.path, file.content, 0, last.value);
      assert HasMarker(last.value) <==> "// Code generated by Soro. DO NOT EDIT." <= last.value;
    }
    hide HasMarker;
    forall contents | Chain(generator, file.path, contents, 0) && contents[0] == file.content
      ensures |contents| > 0 && last == Ok(contents[|contents| - 1])
    {
      TransformIsChain(generator, file.path, file.content, 0, contents[|contents| - 1]);
    }
  }

  /** What is on the disk after the first `n` writes: each of these files with its final content. */
  lemma WrittenFilesAreFinal(generator: Generator, disk: Files, files: seq<GeneratedFile>, n: nat, i: nat)
    requires Preflight(generator, disk, files, 0).Ok? && i < n <= |files|
    ensures var prepared := Preflight(generator, disk, files, 0).value;
            |prepared| == |files|
            && var after := Stored(generator, disk, prepared[..n]);
               generator.absolute(files[i].path) in after && FinalContent(generator, files[i], after[generator.absolute(files[i].path)])
  {
    hide Prepared, Preflight, Stored, FinalContent, Obstacle;
    PreflightMeans(generator, disk, files, 0);
    ExactlyTheWrittenFilesChange(generator, disk, files, n);
    var prepared := Preflight(generator, disk, files, 0).value;
    assert Prepared(generator, files[i]) == Ok(prepared[i - 0]);
    PreparedIsFinal(generator, files[i], prepared[i]);
    assert prepared[..n][i] == prepared[i];
  }
}
