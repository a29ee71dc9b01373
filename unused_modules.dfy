/**
 * The two unused-module checks. checkFindModules reports every local
 * `Find<P>.cmake` that no CMake file loads with `find_package(P ...)`;
 * checkModules reports every other local module file that no CMake file
 * includes by name or mentions by its file name. Both scan the files in
 * order and stop at the first one that uses the module.
 */
module UnusedModules {
  import opened CMakeText
  import opened CommentStripper
  import opened FileNames
  import opened Findings

  /** The class `[ \t\n\r)]` that must follow the name. */
  predicate IsArgEnd(c: char) {
    IsSpace(c) || c == ')'
  }

  /**
   * `[ \t\n\r]*NAME[ \t\n\r\)]` matched from `q`; the leading run is tried at
   * every length, as the regex engine backtracks over it.
   */
  predicate ArgFrom(code: string, q: nat, name: string)
    decreases |code| - q
  {
    q <= |code| &&
    ((StartsAt(code, q, name) && q + |name| < |code| && IsArgEnd(code[q + |name|])) ||
     (q < |code| && IsSpace(code[q]) && ArgFrom(code, q + 1, name)))
  }

  /** `KEYWORD[ \t]*\(` followed by the argument `name`, matched at `p` anywhere in the code. */
  predicate CallWithArgAt(code: string, p: nat, keyword: string, name: string) {
    StartsAt(code, p, keyword) &&
    var b := p + |keyword| + BlankRun(code, p + |keyword|);
    StartsAt(code, b, "(") && ArgFrom(code, b + 1, name)
  }

  // ---------------------------------------------------------------------
  // Find modules
  // ---------------------------------------------------------------------

  /** The package of a find module: the `P` of `Find<P>.cmake`, or empty when the name does not match. */
  function PackageOf(candidate: SourceFile): string {
    match FindPackageName(candidate.name)
    case Some(p) => p
    case None => ""
  }

  /** The package of `Find<P>.cmake`, for a one-line `P`, is `P`. */
  lemma PackageOfFindModule(candidate: SourceFile, package: string)
    requires '\n' !in package && candidate.name == "Find" + package + ".cmake"
    ensures PackageOf(candidate) == package
  {
    FindPackageNameRoundTrip(package);
  }

  /** `find_package[ \t]*\([ \t\n\r]*P[ \t\n\r\)]` occurs in the code. */
  predicate FindsPackage(code: string, package: string) {
    exists p :: 0 <= p <= |code| && CallWithArgAt(code, p, "find_package", package)
  }

  /** Some file, with its comments stripped, loads the package. */
  predicate PackageUsed(files: seq<SourceFile>, package: string) {
    exists i :: 0 <= i < |files| && FindsPackage(CMakeCode(files[i].content), package)
  }

  /** No file loads the package of the find module. */
  predicate FindModuleUnused(files: seq<SourceFile>, candidate: SourceFile) {
    !PackageUsed(files, PackageOf(candidate))
  }

  /** What checkFindModules reports, find module by find module. */
  function UnusedFindModules(findModules: seq<SourceFile>, files: seq<SourceFile>): seq<Finding> {
    if findModules == [] then []
    else
      var candidate := findModules[|findModules| - 1];
      UnusedFindModules(findModules[..|findModules| - 1], files) +
      (if FindModuleUnused(files, candidate) then [UnusedFindModule(candidate.path)] else [])
  }

  /** The inner loop of checkFindModules: scan the files until one loads the package. */
  method FindPackageFound(files: seq<SourceFile>, package: string) returns (found: bool)
    ensures found <==> PackageUsed(files, package)
  {
    found := false;
    var i := 0;
    while i < |files|
      invariant i <= |files|
      invariant !found
      invariant forall j :: 0 <= j < i ==> !FindsPackage(CMakeCode(files[j].content), package)
    {
      var content := CMakeCode(files[i].content);
      if FindsPackage(content, package) {
        found := true;
        break;
      }
      // The file just scanned does not load the package either.
      forall j | 0 <= j <= i
        ensures !FindsPackage(CMakeCode(files[j].content), package)
      {
        if j == i {
          assert files[j] == files[i];
        }
      }
      i := i + 1;
    }
  }

  /** checkFindModules: every find module whose package no file loads, and the status. */
  method CheckFindModules(findModules: seq<SourceFile>, files: seq<SourceFile>) returns (status: int, findings: seq<Finding>)
    ensures findings == UnusedFindModules(findModules, files)
    ensures status == StatusOf(findings)
  {
    status := 0;
    findings := [];
    for i := 0 to |findModules|
      invariant findings == UnusedFindModules(findModules[..i], files)
      invariant status == StatusOf(findings)
    {
      var candidate := findModules[i];
      assert findModules[..i + 1][..i] == findModules[..i];
      var package := PackageOf(candidate);
      var found := FindPackageFound(files, package);
      if !found {
        status := 1;
        findings := findings + [UnusedFindModule(candidate.path)];
      }
    }
    assert findModules[..|findModules|] == findModules;
  }

  /** Reporting the find modules before the last one is a prefix of reporting them all. */
  lemma UnusedFindModulesStep(findModules: seq<SourceFile>, files: seq<SourceFile>)
    requires findModules != []
    ensures var last := findModules[|findModules| - 1];
            FindModuleUnused(files, last) ==> UnusedFindModule(last.path) in UnusedFindModules(findModules, files)
    ensures forall x :: x in UnusedFindModules(findModules[..|findModules| - 1], files) ==> x in UnusedFindModules(findModules, files)
  {
  }

  /** A reported find module is one whose package no file loads. */
  lemma {:induction false} UnusedFindSource(findModules: seq<SourceFile>, files: seq<SourceFile>, path: string)
    returns (i: nat)
    requires UnusedFindModule(path) in UnusedFindModules(findModules, files)
    ensures i < |findModules| && findModules[i].path == path && FindModuleUnused(files, findModules[i])
    decreases |findModules|
  {
    var last := |findModules| - 1;
    if FindModuleUnused(files, findModules[last]) && findModules[last].path == path {
      i := last;
    } else {
      i := UnusedFindSource(findModules[..last], files, path);
    }
  }

  /** Every find module whose package no file loads is reported. */
  lemma {:induction false} UnusedFindReported(findModules: seq<SourceFile>, files: seq<SourceFile>, i: nat)
    requires i < |findModules| && FindModuleUnused(files, findModules[i])
    ensures UnusedFindModule(findModules[i].path) in UnusedFindModules(findModules, files)
    decreases |findModules|
  {
    UnusedFindModulesStep(findModules, files);
    if i < |findModules| - 1 {
      var init := findModules[..|findModules| - 1];
      assert init[i] == findModules[i];
      UnusedFindReported(init, files, i);
    }
  }

  /** A find module is reported exactly when no file loads its package. */
  lemma UnusedFindModuleReported(findModules: seq<SourceFile>, files: seq<SourceFile>, path: string)
    ensures UnusedFindModule(path) in UnusedFindModules(findModules, files) <==>
            exists i :: 0 <= i < |findModules| && findModules[i].path == path &&
              FindModuleUnused(files, findModules[i])
  {
    if UnusedFindModule(path) in UnusedFindModules(findModules, files) {
      var i := UnusedFindSource(findModules, files, path);
    }
    if exists i :: 0 <= i < |findModules| && findModules[i].path == path && FindModuleUnused(files, findModules[i]) {
      var i :| 0 <= i < |findModules| && findModules[i].path == path && FindModuleUnused(files, findModules[i]);
      UnusedFindReported(findModules, files, i);
    }
  }

  /** The find-module check reports only unused find modules, never more findings than find modules. */
  lemma {:induction false} UnusedFindModulesShape(findModules: seq<SourceFile>, files: seq<SourceFile>)
    ensures |UnusedFindModules(findModules, files)| <= |findModules|
    ensures forall x :: x in UnusedFindModules(findModules, files) ==> x.UnusedFindModule?
    decreases |findModules|
  {
    if findModules != [] {
      UnusedFindModulesShape(findModules[..|findModules| - 1], files);
    }
  }

  /** When the find modules have distinct paths, each path is reported at most once. */
  lemma {:induction false} UnusedFindAtMostOnce(findModules: seq<SourceFile>, files: seq<SourceFile>, path: string)
    requires DistinctPaths(findModules)
    ensures multiset(UnusedFindModules(findModules, files))[UnusedFindModule(path)] <= 1
    decreases |findModules|
  {
    if findModules != [] {
      var last := |findModules| - 1;
      var init := findModules[..last];
      assert DistinctPaths(init);
      UnusedFindAtMostOnce(init, files, path);
      UnusedFindModuleReported(init, files, path);
    }
  }

  /** A file holding `find_package(P)` keeps `Find<P>.cmake` from being reported. */
  lemma FindPackageCallUses(file: SourceFile, package: string)
    requires file.content == "find_package(" + package + ")"
    requires '#' !in package
    ensures FindsPackage(CMakeCode(file.content), package)
  {
    var code := file.content;
    assert '#' !in code by {
      assert forall k :: 0 <= k < |code| ==>
        code[k] == (if k < 13 then "find_package("[k] else if k < 13 + |package| then package[k - 13] else ')');
    }
    assert code[13 + |package|] == ')';
    assert code[13..13 + |package|] == package;
    assert BlankRun(code, 12) == 0;
    assert CallWithArgAt(code, 0, "find_package", package);
  }

  // ---------------------------------------------------------------------
  // Utility modules
  // ---------------------------------------------------------------------

  /**
   * The name a utility module is included by: its file name without
   * `.cmake`, under the stem of its parent directory unless that stem
   * contains `cmake` or `modules`.
   */
  function IncludeName(candidate: SourceFile): string {
    var dirStem := Stem(candidate.dir);
    var prefix := if Contains(dirStem, "cmake") || Contains(dirStem, "modules") then "" else dirStem + "/";
    prefix + BasenameWithout(candidate.name, ".cmake")
  }

  /**
   * The code uses the module: `include[ \t]*\([ \t\n\r]*NAME[ \t\n\r\)]`
   * occurs, or the module's file name occurs as it is.
   */
  predicate ModuleUsedIn(code: string, candidate: SourceFile) {
    IncludesModule(code, IncludeName(candidate)) || Contains(code, candidate.name)
  }

  /** `include[ \t]*\([ \t\n\r]*NAME[ \t\n\r\)]` occurs somewhere in the code. */
  predicate IncludesModule(code: string, name: string) {
    exists p :: 0 <= p <= |code| && CallWithArgAt(code, p, "include", name)
  }

  /** Some file, with its comments stripped, uses the candidate. */
  predicate ModuleUsed(files: seq<SourceFile>, candidate: SourceFile) {
    exists i :: 0 <= i < |files| && ModuleUsedIn(CMakeCode(files[i].content), candidate)
  }

  /** What checkModules reports, module by module. */
  function UnusedUtilityModules(modules: seq<SourceFile>, files: seq<SourceFile>): seq<Finding> {
    if modules == [] then []
    else
      var candidate := modules[|modules| - 1];
      UnusedUtilityModules(modules[..|modules| - 1], files) +
      (if ModuleUnused(files, candidate) then [UnusedUtilityModule(candidate.path)] else [])
  }

  /** The inner loop of checkModules: scan the files until one includes or names the candidate. */
  method ModuleFound(files: seq<SourceFile>, candidate: SourceFile) returns (found: bool)
    ensures found <==> ModuleUsed(files, candidate)
  {
    var includeName := IncludeName(candidate);
    found := false;
    var i := 0;
    while i < |files|
      invariant i <= |files|
      invariant !found
      invariant forall j :: 0 <= j < i ==> !ModuleUsedIn(CMakeCode(files[j].content), candidate)
    {
      var content := CMakeCode(files[i].content);
      // Included with include().
      if IncludesModule(content, includeName) {
        found := true;
        break;
      }
      // Named by its file name.
      if Contains(content, candidate.name) {
        found := true;
        break;
      }
      // The file just scanned does not use the module either.
      forall j | 0 <= j <= i
        ensures !ModuleUsedIn(CMakeCode(files[j].content), candidate)
      {
        if j == i {
          assert files[j] == files[i];
        }
      }
      i := i + 1;
    }
  }

  /** checkModules: every utility module that no file uses, and the status. */
  method CheckModules(modules: seq<SourceFile>, files: seq<SourceFile>) returns (status: int, findings: seq<Finding>)
    ensures findings == UnusedUtilityModules(modules, files)
    ensures status == StatusOf(findings)
  {
    status := 0;
    findings := [];
    for i := 0 to |modules|
      invariant findings == UnusedUtilityModules(modules[..i], files)
      invariant status == StatusOf(findings)
    {
      var candidate := modules[i];
      assert modules[..i + 1][..i] == modules[..i];
      var found := ModuleFound(files, candidate);
      if !found {
        status := 1;
        findings := findings + [UnusedUtilityModule(candidate.path)];
      }
    }
    assert modules[..|modules|] == modules;
  }

  /** No file includes or names the module. */
  predicate ModuleUnused(files: seq<SourceFile>, candidate: SourceFile) {
    !ModuleUsed(files, candidate)
  }

  /** Reporting the utility modules before the last one is a prefix of reporting them all. */
  lemma UnusedUtilityModulesStep(modules: seq<SourceFile>, files: seq<SourceFile>)
    requires modules != []
    ensures var last := modules[|modules| - 1];
            ModuleUnused(files, last) ==> UnusedUtilityModule(last.path) in UnusedUtilityModules(modules, files)
    ensures forall x :: x in UnusedUtilityModules(modules[..|modules| - 1], files) ==> x in UnusedUtilityModules(modules, files)
  {
  }

  /** A reported utility module is one that no file uses. */
  lemma {:induction false} UnusedUtilitySource(modules: seq<SourceFile>, files: seq<SourceFile>, path: string)
    returns (i: nat)
    requires UnusedUtilityModule(path) in UnusedUtilityModules(modules, files)
    ensures i < |modules| && modules[i].path == path && ModuleUnused(files, modules[i])
    decreases |modules|
  {
    var last := |modules| - 1;
    if ModuleUnused(files, modules[last]) && modules[last].path == path {
      i := last;
    } else {
      i := UnusedUtilitySource(modules[..last], files, path);
    }
  }

  /** Every utility module that no file uses is reported. */
  lemma {:induction false} UnusedUtilityReported(modules: seq<SourceFile>, files: seq<SourceFile>, i: nat)
    requires i < |modules| && ModuleUnused(files, modules[i])
    ensures UnusedUtilityModule(modules[i].path) in UnusedUtilityModules(modules, files)
    decreases |modules|
  {
    UnusedUtilityModulesStep(modules, files);
    if i < |modules| - 1 {
      var init := modules[..|modules| - 1];
      assert init[i] == modules[i];
      UnusedUtilityReported(init, files, i);
    }
  }

  /** A utility module is reported exactly when no file uses it. */
  lemma UnusedUtilityModuleReported(modules: seq<SourceFile>, files: seq<SourceFile>, path: string)
    ensures UnusedUtilityModule(path) in UnusedUtilityModules(modules, files) <==>
            exists i :: 0 <= i < |modules| && modules[i].path == path && ModuleUnused(files, modules[i])
  {
    if UnusedUtilityModule(path) in UnusedUtilityModules(modules, files) {
      var i := UnusedUtilitySource(modules, files, path);
    }
    if exists i :: 0 <= i < |modules| && modules[i].path == path && ModuleUnused(files, modules[i]) {
      var i :| 0 <= i < |modules| && modules[i].path == path && ModuleUnused(files, modules[i]);
      UnusedUtilityReported(modules, files, i);
    }
  }

  /** The utility-module check reports only unused utility modules, never more findings than module files. */
  lemma {:induction false} UnusedUtilityModulesShape(modules: seq<SourceFile>, files: seq<SourceFile>)
    ensures |UnusedUtilityModules(modules, files)| <= |modules|
    ensures forall x :: x in UnusedUtilityModules(modules, files) ==> x.UnusedUtilityModule?
    decreases |modules|
  {
    if modules != [] {
      UnusedUtilityModulesShape(modules[..|modules| - 1], files);
    }
  }

  /** When the module files have distinct paths, each path is reported at most once. */
  lemma {:induction false} UnusedUtilityAtMostOnce(modules: seq<SourceFile>, files: seq<SourceFile>, path: string)
    requires DistinctPaths(modules)
    ensures multiset(UnusedUtilityModules(modules, files))[UnusedUtilityModule(path)] <= 1
    decreases |modules|
  {
    if modules != [] {
      var last := |modules| - 1;
      var init := modules[..last];
      assert DistinctPaths(init);
      UnusedUtilityAtMostOnce(init, files, path);
      UnusedUtilityModuleReported(init, files, path);
    }
  }

  /** A module file is never reported when some file, itself included, names it in its code. */
  lemma NamedModuleUsed(files: seq<SourceFile>, candidate: SourceFile, i: nat)
    requires i < |files| && Contains(files[i].content, candidate.name) && '#' !in files[i].content
    ensures ModuleUsed(files, candidate)
  {
    assert ModuleUsedIn(CMakeCode(files[i].content), candidate);
  }

  /** Under a `modules` directory the prefix is dropped: `include(Name)` uses `Name.cmake`. */
  lemma IncludeNameUnderModules(candidate: SourceFile, base: string)
    requires candidate.dir == "modules" && candidate.name == base + ".cmake" && base != []
    ensures IncludeName(candidate) == base
  {
    StemWithoutDot("modules");
    assert StartsAt(candidate.dir, 0, "modules");
    assert EndsWith(candidate.name, ".cmake");
  }
}
