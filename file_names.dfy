/**
 * Files as the checker sees them, and the file-name tests it applies: the
 * filters of the three directory walks, the package name of a find module,
 * and the PHP path helpers it derives module names with.
 */
module FileNames {
  import opened CMakeText

  /**
   * A CMake file: the path it is reported by, the name of its (real) parent
   * directory, its own file name, and its text.
   */
  datatype SourceFile = SourceFile(path: string, dir: string, name: string, content: string)

  /** No two files share a path, as for the files of one directory walk. */
  predicate DistinctPaths(files: seq<SourceFile>) {
    forall i, j :: 0 <= i < j < |files| ==> files[i].path != files[j].path
  }

  /** The files whose names pass `keep`, in walk order: the filter callback of a directory walk. */
  function Select(files: seq<SourceFile>, keep: string -> bool): (r: seq<SourceFile>)
    ensures forall f :: f in r <==> f in files && keep(f.name)
  {
    if files == [] then []
    else Select(files[..|files| - 1], keep) +
         (if keep(files[|files| - 1].name) then [files[|files| - 1]] else [])
  }

  /** Filtering keeps the walk order: filtering two walks one after the other filters each in turn. */
  lemma {:induction false} SelectAppend(a: seq<SourceFile>, b: seq<SourceFile>, keep: string -> bool)
    ensures Select(a + b, keep) == Select(a, keep) + Select(b, keep)
    decreases |b|
  {
    if b == [] {
      assert a + b == a;
    } else {
      var init := b[..|b| - 1];
      assert (a + b)[..|a + b| - 1] == a + init;
      assert (a + b)[|a + b| - 1] == b[|b| - 1];
      SelectAppend(a, init, keep);
    }
  }

  /** Filtering a walk whose paths are distinct leaves them distinct. */
  lemma {:induction false} SelectDistinct(files: seq<SourceFile>, keep: string -> bool)
    requires DistinctPaths(files)
    ensures DistinctPaths(Select(files, keep))
    decreases |files|
  {
    if files != [] {
      var init := files[..|files| - 1];
      var last := files[|files| - 1];
      assert DistinctPaths(init);
      SelectDistinct(init, keep);
      var r := Select(files, keep);
      var front := Select(init, keep);
      if keep(last.name) {
        forall i | 0 <= i < |front|
          ensures front[i].path != last.path
        {
          assert front[i] in init;
          var k :| 0 <= k < |init| && init[k] == front[i];
          assert files[k] == front[i];
        }
        assert r == front + [last];
      }
    }
  }

  /** The position of the last `.` in `n`. */
  function LastDot(n: string): (r: Option<nat>)
    ensures r.Some? ==> r.value < |n| && n[r.value] == '.'
    ensures r.Some? ==> forall k :: r.value < k < |n| ==> n[k] != '.'
    ensures r.None? ==> '.' !in n
  {
    if n == [] then None
    else if n[|n| - 1] == '.' then Some(|n| - 1)
    else
      LastDot(n[..|n| - 1])
  }

  /** `pathinfo($n, PATHINFO_FILENAME)`: the name without its last extension. */
  function Stem(n: string): string {
    match LastDot(n)
    case None => n
    case Some(i) => n[..i]
  }

  /** The stem of `base.ext` is `base` whenever the extension holds no dot. */
  lemma StemDropsExtension(base: string, ext: string)
    requires '.' !in ext
    ensures Stem(base + "." + ext) == base
  {
    var n := base + "." + ext;
    var r := LastDot(n);
    assert n[|base|] == '.';
    assert forall k :: |base| < k < |n| ==> n[k] == ext[k - |base| - 1];
    assert '.' in n;
    assert r.value >= |base|;
    assert n[r.value] == '.';
    assert r.value == |base|;
    assert n[..|base|] == base;
  }

  /** A name without any dot is its own stem. */
  lemma StemWithoutDot(n: string)
    requires '.' !in n
    ensures Stem(n) == n
  {
  }

  /**
   * `basename($n, $suffix)`: the suffix is cut off when the name ends with it
   * and is longer than it.
   */
  function BasenameWithout(n: string, suffix: string): (r: string)
    ensures EndsWith(n, suffix) && |suffix| < |n| ==> r + suffix == n
    ensures !(EndsWith(n, suffix) && |suffix| < |n|) ==> r == n
  {
    if |suffix| < |n| && EndsWith(n, suffix) then
      assert n == n[..|n| - |suffix|] + n[|n| - |suffix|..];
      n[..|n| - |suffix|]
    else n
  }

  /** `$` without the multi-line flag: at the end of the name, or before a final newline. */
  predicate EndsWithAnchored(n: string, suffix: string) {
    EndsWith(n, suffix) || EndsWith(n, suffix + "\n")
  }

  /** The filter of getAllCMakeFiles: `\.cmake$`, or one of the two CMakeLists names. */
  predicate IsCMakeFileName(n: string) {
    EndsWithAnchored(n, ".cmake") || n == "CMakeLists.txt" || n == "CMakeLists.txt.in"
  }

  /**
   * `^Find(.*)\.cmake$`: the captured package name. The `.*` does not cross
   * a newline, and `$` may stand before a final newline.
   */
  function FindPackageName(n: string): (r: Option<string>)
    ensures r.Some? ==> '\n' !in r.value
    ensures r.Some? ==> n == "Find" + r.value + ".cmake" || n == "Find" + r.value + ".cmake\n"
  {
    var core := if EndsWith(n, ".cmake\n") then n[..|n| - 1] else n;
    if |core| >= 10 && core[..4] == "Find" && EndsWith(core, ".cmake") && '\n' !in core[4..|core| - 6] then
      assert core == core[..4] + core[4..|core| - 6] + core[|core| - 6..];
      assert EndsWith(n, ".cmake\n") ==> n == core + "\n";
      Some(core[4..|core| - 6])
    else
      None
  }

  /** Every `Find<P>.cmake` with a one-line `P` yields exactly `P`. */
  lemma {:induction false} FindPackageNameRoundTrip(package: string)
    requires '\n' !in package
    ensures FindPackageName("Find" + package + ".cmake") == Some(package)
  {
    var n := "Find" + package + ".cmake";
    assert !EndsWith(n, ".cmake\n") by {
      assert n[|n| - 1] == 'e';
    }
    assert n[..4] == "Find";
    assert EndsWith(n, ".cmake");
    assert n[4..|n| - 6] == package;
  }

  /** The filter of getFindModules (line 357). */
  predicate IsFindModuleName(n: string) {
    FindPackageName(n).Some?
  }

  /** The filter of getModules (lines 422-426): every file that is not a find module. */
  predicate IsUtilityModuleName(n: string) {
    !IsFindModuleName(n)
  }

  /** Every find module passes the CMake-file filter too. */
  lemma FindModulesAreCMakeFiles(n: string)
    requires IsFindModuleName(n)
    ensures IsCMakeFileName(n)
    ensures !IsUtilityModuleName(n)
  {
    var p := FindPackageName(n).value;
    assert EndsWith("Find" + p + ".cmake", ".cmake");
    assert EndsWith("Find" + p + ".cmake\n", ".cmake\n");
  }
}
