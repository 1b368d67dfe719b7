/** The order in which `LoadDir` of migrate/files.go presents migrations: by file name. `Apply` demands the
    order by migration name, and the two are not always the same. */
module LoadOrder {
  import opened Ordering

  const EXTENSION := ".sql"

  /** `short` comes before `long` by name, but its file comes after the file of `long`. */
  predicate Swapped(short: string, long: string) {
    |short| < |long| && long[..|short|] == short && Less(long[|short|..] + EXTENSION, EXTENSION)
  }

  lemma {:induction false} FileOrder(a: string, b: string)
    requires Less(a, b)
    ensures Less(a + EXTENSION, b + EXTENSION) <==> !Swapped(a, b)
    decreases |a|
  {
    if a == "" {
      assert a + EXTENSION == EXTENSION && b[..0] == "" && b[0..] == b;
      LessTotal(EXTENSION, b + EXTENSION);
      assert |b + EXTENSION| > |EXTENSION|;
    } else {
      var x, y := a + EXTENSION, b + EXTENSION;
      assert x[0] == a[0] && y[0] == b[0] && x[1..] == a[1..] + EXTENSION && y[1..] == b[1..] + EXTENSION;
      if a[0] == b[0] {
        FileOrder(a[1..], b[1..]);
        assert |a| < |b| ==> b[1..][..|a| - 1] == b[..|a|][1..] && b[1..][|a| - 1..] == b[|a|..];
        assert a == [a[0]] + a[1..];
        assert |a| < |b| ==> b[..|a|] == [b[0]] + b[..|a|][1..];
      } else {
        assert |a| < |b| ==> b[..|a|][0] == b[0];
      }
    }
  }

  function Files(names: seq<string>): (files: seq<string>)
    ensures |files| == |names| && forall i :: 0 <= i < |names| ==> files[i] == names[i] + EXTENSION
  {
    seq(|names|, i requires 0 <= i < |names| => names[i] + EXTENSION)
  }

  lemma {:induction false} PrefixIsLess(a: string, b: string)
    requires |a| < |b| && b[..|a|] == a
    ensures Less(a, b)
    decreases |a|
  {
    if a != "" {
      assert b[..|a|][0] == b[0] && b[1..][..|a| - 1] == b[..|a|][1..];
      PrefixIsLess(a[1..], b[1..]);
    }
  }

  lemma {:induction false} SwappedIsLess(a: string, b: string)
    ensures Swapped(a, b) ==> Less(a, b)
  {
    if Swapped(a, b) {
      PrefixIsLess(a, b);
    }
  }

  /** Migrations listed in file order are in name order exactly when no name continues another with a text that
      sorts before the extension. */
  lemma FileOrderIsNameOrder(names: seq<string>)
    requires StrictlySorted(Files(names))
    ensures StrictlySorted(names) <==> forall i, j :: 0 <= i < |names| && 0 <= j < |names| ==> !Swapped(names[i], names[j])
  {
    var files := Files(names);
    if forall i, j :: 0 <= i < |names| && 0 <= j < |names| ==> !Swapped(names[i], names[j]) {
      forall i, j | 0 <= i < j < |names| ensures Less(names[i], names[j]) {
        assert Less(files[i], files[j]);
        LessTotal(names[i], names[j]);
        LessTotal(files[i], files[j]);
        if Less(names[j], names[i]) {
          FileOrder(names[j], names[i]);
        }
      }
    }
    if StrictlySorted(names) {
      forall i, j | 0 <= i < |names| && 0 <= j < |names| ensures !Swapped(names[i], names[j]) {
        LessTotal(names[i], names[j]);
        LessTotal(names[i], names[i]);
        if Less(names[i], names[j]) {
          FileOrder(names[i], names[j]);
        }
        if i < j {
          assert Less(files[i], files[j]);
        }
        SwappedIsLess(names[i], names[j]);
      }
    }
  }

  /** `LoadDir` refuses a directory that holds `a.sql` and `a-b.sql`: it lists `a-b` first. */
  lemma DashedNamesAreRefused()
    ensures StrictlySorted(Files(["a-b", "a"])) && !StrictlySorted(["a-b", "a"])
  {
    var names := ["a-b", "a"];
    assert names[1] == "a" && names[0] == "a-b";
    assert "a-b"[..1] == "a" && "a-b"[1..] == "-b" && "-b" + EXTENSION == "-b.sql";
    assert Swapped("a", "a-b");
    PrefixIsLess("a", "a-b");
    FileOrder("a", "a-b");
    LessTotal("a", "a-b");
    LessTotal("a" + EXTENSION, "a-b" + EXTENSION);
    assert "a" + EXTENSION != "a-b" + EXTENSION by {
      assert |"a" + EXTENSION| != |"a-b" + EXTENSION|;
    }
  }
}
