/**
 * The include-what-you-use check (checkCMakeFiles): for every file and every
 * registry entry, the file is reported when it includes the module without
 * using any of its commands ("redundant include"), or uses one of its
 * commands without including it ("missing include"). A file is never
 * reported against the module it defines itself.
 */
module IncludeCheck {
  import opened CMakeText
  import opened CommentStripper
  import opened FileNames
  import opened Findings
  import opened ModuleRegistry

  /** `^[ \t]*include[ \t]*\(M[ \t]*\)` (multi-line mode) matched at `p`. */
  predicate IncludeAt(code: string, p: nat, m: string) {
    p <= |code| && LineStartAt(code, p) &&
    var a := p + BlankRun(code, p);
    StartsAt(code, a, "include") &&
    var b := a + 7 + BlankRun(code, a + 7);
    StartsAt(code, b, "(") && StartsAt(code, b + 1, m) &&
    var c := b + 1 + |m| + BlankRun(code, b + 1 + |m|);
    StartsAt(code, c, ")")
  }

  /** Some line of the code includes module `m`; the name is compared literally. */
  predicate HasInclude(code: string, m: string) {
    exists p :: 0 <= p <= |code| && IncludeAt(code, p, m)
  }

  /** `[^A-Za-z0-9_]CMD[^A-Za-z0-9_]` matched at `p`. */
  predicate SymbolAt(code: string, p: nat, cmd: string) {
    p < |code| && !IsWordChar(code[p]) && StartsAt(code, p + 1, cmd) &&
    p + 1 + |cmd| < |code| && !IsWordChar(code[p + 1 + |cmd|])
  }

  /**
   * `[ \t]*CMD[ \t]*\(` matched from `q`; the leading run is tried at every
   * length, as the regex engine backtracks over it.
   */
  predicate CallFrom(code: string, q: nat, cmd: string)
    decreases |code| - q
  {
    q <= |code| &&
    ((StartsAt(code, q, cmd) && StartsAt(code, q + |cmd| + BlankRun(code, q + |cmd|), "(")) ||
     (q < |code| && IsBlank(code[q]) && CallFrom(code, q + 1, cmd)))
  }

  /** `^[ \t]*CMD[ \t]*\(` (multi-line mode) matched at `p`: a call that starts a line. */
  predicate CallAt(code: string, p: nat, cmd: string) {
    p <= |code| && LineStartAt(code, p) && CallFrom(code, p, cmd)
  }

  /** A command is used when a line calls it, or, for a name with `::`, when it stands alone anywhere. */
  predicate CommandUsed(code: string, cmd: string) {
    (Contains(cmd, "::") && exists p :: 0 <= p < |code| && SymbolAt(code, p, cmd)) ||
    (exists p :: 0 <= p <= |code| && CallAt(code, p, cmd))
  }

  predicate AnyCommandUsed(code: string, commands: seq<string>) {
    exists j :: 0 <= j < |commands| && CommandUsed(code, commands[j])
  }

  /**
   * The module a file defines: its stem, under the stem of its parent
   * directory unless that directory is `cmake`.
   */
  function SelfName(f: SourceFile): string {
    var dirStem := Stem(f.dir);
    (if dirStem == "cmake" then "" else dirStem + "/") + Stem(f.name)
  }

  /** `Dir/Name.cmake` defines `Dir/Name`, and `cmake/Name.cmake` defines `Name`. */
  lemma SelfNameOf(f: SourceFile, base: string)
    requires '.' !in f.dir && f.name == base + ".cmake"
    ensures SelfName(f) == if f.dir == "cmake" then base else f.dir + "/" + base
  {
    StemWithoutDot(f.dir);
    StemDropsExtension(base, "cmake");
    assert base + "." + "cmake" == f.name;
  }

  /**
   * The verdict for file `path` and module `m`, given whether the file is
   * the module itself, includes it, and uses one of its commands.
   */
  function Verdict(isSelf: bool, hasModule: bool, hasCommand: bool, m: string, path: string): seq<Finding> {
    if isSelf then []
    else if hasModule && !hasCommand then [RedundantInclude(m, path)]
    else if !hasModule && hasCommand then [MissingInclude(m, path)]
    else []
  }

  /** What one file, whose comment-stripped text is `code`, reports for one registry entry. */
  function PairFinding(f: SourceFile, code: string, rule: ModuleRule): seq<Finding> {
    Verdict(SelfName(f) == rule.name, HasInclude(code, rule.name), AnyCommandUsed(code, rule.commands), rule.name, f.path)
  }

  /** What one file, whose comment-stripped text is `code`, reports, registry entry by registry entry. */
  function FileFindings(f: SourceFile, code: string, rules: seq<ModuleRule>): seq<Finding> {
    if rules == [] then []
    else FileFindings(f, code, rules[..|rules| - 1]) + PairFinding(f, code, rules[|rules| - 1])
  }

  /** What the whole check reports, file by file. */
  function IncludeFindings(files: seq<SourceFile>, rules: seq<ModuleRule>): seq<Finding> {
    if files == [] then []
    else
      var f := files[|files| - 1];
      IncludeFindings(files[..|files| - 1], rules) + FileFindings(f, CMakeCode(f.content), rules)
  }

  /** The inner loop of checkCMakeFiles: whether some command is used, stopping at the first one. */
  method HasCommand(code: string, commands: seq<string>) returns (hasCommand: bool)
    ensures hasCommand <==> exists j :: 0 <= j < |commands| && CommandUsed(code, commands[j])
  {
    hasCommand := false;
    var c := 0;
    while c < |commands|
      invariant c <= |commands|
      invariant !hasCommand
      invariant forall j :: 0 <= j < c ==> !CommandUsed(code, commands[j])
    {
      if CommandUsed(code, commands[c]) {
        hasCommand := true;
        break;
      }
      c := c + 1;
    }
  }

  /** The inner loop of checkCMakeFiles: one file against every registry entry. */
  method CheckFile(file: SourceFile, modules: seq<ModuleRule>, status0: int) returns (status: int, findings: seq<Finding>)
    ensures findings == FileFindings(file, CMakeCode(file.content), modules)
    ensures status == if findings == [] then status0 else 1
  {
    status := status0;
    findings := [];
    var content := CMakeCode(file.content);
    for k := 0 to |modules|
      invariant findings == FileFindings(file, content, modules[..k])
      invariant status == if findings == [] then status0 else 1
    {
      var rule := modules[k];
      FileFindingsSplit(file, content, modules, k);
      var hasModule := false;
      if HasInclude(content, rule.name) {
        hasModule := true;
      }

      var hasCommand := HasCommand(content, rule.commands);
      PairFindingIs(file, content, rule, hasModule, hasCommand);

      // Skip the file that is the module itself.
      if SelfName(file) == rule.name {
        continue;
      }

      if hasModule && !hasCommand {
        status := 1;
        findings := findings + [RedundantInclude(rule.name, file.path)];
      }

      if !hasModule && hasCommand {
        status := 1;
        findings := findings + [MissingInclude(rule.name, file.path)];
      }
    }
    assert modules[..|modules|] == modules;
  }

  /** checkCMakeFiles: the findings of every file against every registry entry, and the status. */
  method CheckCMakeFiles(files: seq<SourceFile>, modules: seq<ModuleRule>) returns (status: int, findings: seq<Finding>)
    ensures findings == IncludeFindings(files, modules)
    ensures status == StatusOf(findings)
  {
    status := 0;
    findings := [];
    for i := 0 to |files|
      invariant findings == IncludeFindings(files[..i], modules)
      invariant status == StatusOf(findings)
    {
      assert files[..i + 1][..i] == files[..i];
      var fileFindings;
      status, fileFindings := CheckFile(files[i], modules, status);
      findings := findings + fileFindings;
    }
    assert files[..|files|] == files;
  }

  lemma PairFindingIs(f: SourceFile, code: string, rule: ModuleRule, hasModule: bool, hasCommand: bool)
    requires hasModule == HasInclude(code, rule.name)
    requires hasCommand == AnyCommandUsed(code, rule.commands)
    ensures PairFinding(f, code, rule) ==
      if SelfName(f) == rule.name then []
      else if hasModule && !hasCommand then [RedundantInclude(rule.name, f.path)]
      else if !hasModule && hasCommand then [MissingInclude(rule.name, f.path)]
      else []
  {
  }

  lemma FileFindingsSplit(f: SourceFile, code: string, rules: seq<ModuleRule>, k: nat)
    requires k < |rules|
    ensures FileFindings(f, code, rules[..k + 1]) == FileFindings(f, code, rules[..k]) + PairFinding(f, code, rules[k])
  {
    assert rules[..k + 1][..k] == rules[..k] && rules[..k + 1][k] == rules[k];
  }

  lemma IncludeFindingsSplit(files: seq<SourceFile>, rules: seq<ModuleRule>)
    requires files != []
    ensures IncludeFindings(files, rules) ==
            IncludeFindings(files[..|files| - 1], rules) + FileFindings(files[|files| - 1], CMakeCode(files[|files| - 1].content), rules)
  {
  }

  /** One file against one entry: when it reports "redundant include(M) in P". */
  lemma PairRedundant(f: SourceFile, code: string, rule: ModuleRule, m: string, path: string)
    ensures RedundantInclude(m, path) in PairFinding(f, code, rule) <==>
            rule.name == m && f.path == path && SelfName(f) != m &&
            HasInclude(code, m) && !AnyCommandUsed(code, rule.commands)
  {
  }

  /** One file against one entry: when it reports "missing include(M) in P". */
  lemma PairMissing(f: SourceFile, code: string, rule: ModuleRule, m: string, path: string)
    ensures MissingInclude(m, path) in PairFinding(f, code, rule) <==>
            rule.name == m && f.path == path && SelfName(f) != m &&
            !HasInclude(code, m) && AnyCommandUsed(code, rule.commands)
  {
  }

  /** Every finding of a file against some rules is about that file and one of those rules. */
  lemma {:induction false} FileFindingsAbout(f: SourceFile, code: string, rules: seq<ModuleRule>, x: Finding)
    requires x in FileFindings(f, code, rules)
    ensures exists k :: 0 <= k < |rules| && x in PairFinding(f, code, rules[k])
    decreases |rules|
  {
    var last := |rules| - 1;
    if x !in PairFinding(f, code, rules[last]) {
      FileFindingsAbout(f, code, rules[..last], x);
      var k :| 0 <= k < last && x in PairFinding(f, code, rules[..last][k]);
      assert rules[..last][k] == rules[k];
    }
  }

  lemma {:induction false} FileFindingsInclude(f: SourceFile, code: string, rules: seq<ModuleRule>, k: nat, x: Finding)
    requires k < |rules| && x in PairFinding(f, code, rules[k])
    ensures x in FileFindings(f, code, rules)
    decreases |rules|
  {
    var last := |rules| - 1;
    if k < last {
      assert rules[..last][k] == rules[k];
      FileFindingsInclude(f, code, rules[..last], k, x);
    }
  }

  /** Every finding of the check comes from one file and one registry entry. */
  lemma {:induction false} FindingSource(files: seq<SourceFile>, rules: seq<ModuleRule>, x: Finding)
    returns (i: nat, k: nat)
    requires x in IncludeFindings(files, rules)
    ensures i < |files| && k < |rules| && x in PairFinding(files[i], CMakeCode(files[i].content), rules[k])
    decreases |files|
  {
    var last := |files| - 1;
    var init := files[..last];
    if x in FileFindings(files[last], CMakeCode(files[last].content), rules) {
      FileFindingsAbout(files[last], CMakeCode(files[last].content), rules, x);
      i := last;
      k :| 0 <= k < |rules| && x in PairFinding(files[last], CMakeCode(files[last].content), rules[k]);
    } else {
      i, k := FindingSource(init, rules, x);
      assert init[i] == files[i];
    }
  }

  /** What a file reports against a registry entry, the check reports. */
  lemma {:induction false} FindingReported(files: seq<SourceFile>, rules: seq<ModuleRule>, i: nat, k: nat, x: Finding)
    requires i < |files| && k < |rules| && x in PairFinding(files[i], CMakeCode(files[i].content), rules[k])
    ensures x in IncludeFindings(files, rules)
    decreases |files|
  {
    var last := |files| - 1;
    var init := files[..last];
    IncludeFindingsSplit(files, rules);
    if i == last {
      FileFindingsInclude(files[last], CMakeCode(files[last].content), rules, k, x);
    } else {
      assert init[i] == files[i];
      FindingReported(init, rules, i, k, x);
    }
  }

  /**
   * "redundant include(M) in P" is reported exactly when some file at P that
   * is not M itself includes M and uses none of the commands of an entry
   * named M.
   */
  lemma RedundantIncludeReported(files: seq<SourceFile>, rules: seq<ModuleRule>, m: string, path: string)
    ensures RedundantInclude(m, path) in IncludeFindings(files, rules) <==>
            exists i, k :: 0 <= i < |files| && 0 <= k < |rules| &&
              files[i].path == path && rules[k].name == m && SelfName(files[i]) != m &&
              HasInclude(CMakeCode(files[i].content), m) &&
              !AnyCommandUsed(CMakeCode(files[i].content), rules[k].commands)
  {
    var x := RedundantInclude(m, path);
    if x in IncludeFindings(files, rules) {
      var i, k := FindingSource(files, rules, x);
      PairRedundant(files[i], CMakeCode(files[i].content), rules[k], m, path);
    }
    if exists i, k :: 0 <= i < |files| && 0 <= k < |rules| &&
         files[i].path == path && rules[k].name == m && SelfName(files[i]) != m &&
         HasInclude(CMakeCode(files[i].content), m) &&
         !AnyCommandUsed(CMakeCode(files[i].content), rules[k].commands)
    {
      var i, k :| 0 <= i < |files| && 0 <= k < |rules| &&
         files[i].path == path && rules[k].name == m && SelfName(files[i]) != m &&
         HasInclude(CMakeCode(files[i].content), m) &&
         !AnyCommandUsed(CMakeCode(files[i].content), rules[k].commands);
      PairRedundant(files[i], CMakeCode(files[i].content), rules[k], m, path);
      FindingReported(files, rules, i, k, x);
    }
  }

  /**
   * "missing include(M) in P" is reported exactly when some file at P that
   * is not M itself uses a command of an entry named M without including M.
   */
  lemma MissingIncludeReported(files: seq<SourceFile>, rules: seq<ModuleRule>, m: string, path: string)
    ensures MissingInclude(m, path) in IncludeFindings(files, rules) <==>
            exists i, k :: 0 <= i < |files| && 0 <= k < |rules| &&
              files[i].path == path && rules[k].name == m && SelfName(files[i]) != m &&
              !HasInclude(CMakeCode(files[i].content), m) &&
              AnyCommandUsed(CMakeCode(files[i].content), rules[k].commands)
  {
    var x := MissingInclude(m, path);
    if x in IncludeFindings(files, rules) {
      var i, k := FindingSource(files, rules, x);
      PairMissing(files[i], CMakeCode(files[i].content), rules[k], m, path);
    }
    if exists i, k :: 0 <= i < |files| && 0 <= k < |rules| &&
         files[i].path == path && rules[k].name == m && SelfName(files[i]) != m &&
         !HasInclude(CMakeCode(files[i].content), m) &&
         AnyCommandUsed(CMakeCode(files[i].content), rules[k].commands)
    {
      var i, k :| 0 <= i < |files| && 0 <= k < |rules| &&
         files[i].path == path && rules[k].name == m && SelfName(files[i]) != m &&
         !HasInclude(CMakeCode(files[i].content), m) &&
         AnyCommandUsed(CMakeCode(files[i].content), rules[k].commands);
      PairMissing(files[i], CMakeCode(files[i].content), rules[k], m, path);
      FindingReported(files, rules, i, k, x);
    }
  }

  /** The include check reports nothing else. */
  lemma OnlyIncludeFindings(files: seq<SourceFile>, rules: seq<ModuleRule>, x: Finding)
    requires x in IncludeFindings(files, rules)
    ensures x.RedundantInclude? || x.MissingInclude?
  {
    var i, k := FindingSource(files, rules, x);
    PairFindingKinds(files[i], CMakeCode(files[i].content), rules[k], x);
  }

  lemma PairFindingKinds(f: SourceFile, code: string, rule: ModuleRule, x: Finding)
    requires x in PairFinding(f, code, rule)
    ensures x.RedundantInclude? || x.MissingInclude?
  {
  }

  /** A file is never reported against the module it defines. */
  lemma SelfModuleNotReported(files: seq<SourceFile>, rules: seq<ModuleRule>, i: nat)
    requires i < |files| && DistinctPaths(files)
    ensures RedundantInclude(SelfName(files[i]), files[i].path) !in IncludeFindings(files, rules)
    ensures MissingInclude(SelfName(files[i]), files[i].path) !in IncludeFindings(files, rules)
  {
    var m := SelfName(files[i]);
    RedundantIncludeReported(files, rules, m, files[i].path);
    MissingIncludeReported(files, rules, m, files[i].path);
  }

  /** How many findings are about module `m` in the file at `path`. */
  function CountAbout(findings: seq<Finding>, m: string, path: string): nat {
    if findings == [] then 0
    else
      var x := findings[|findings| - 1];
      CountAbout(findings[..|findings| - 1], m, path) +
      (if (x.RedundantInclude? || x.MissingInclude?) && x.moduleName == m && x.file == path then 1 else 0)
  }

  lemma {:induction false} CountAboutAppend(a: seq<Finding>, b: seq<Finding>, m: string, path: string)
    ensures CountAbout(a + b, m, path) == CountAbout(a, m, path) + CountAbout(b, m, path)
    decreases |b|
  {
    if b == [] {
      assert a + b == a;
    } else {
      assert (a + b)[..|a + b| - 1] == a + b[..|b| - 1];
      assert (a + b)[|a + b| - 1] == b[|b| - 1];
      CountAboutAppend(a, b[..|b| - 1], m, path);
    }
  }

  /** One file against one entry reports at most once, and only about that file and entry. */
  lemma PairCount(f: SourceFile, code: string, rule: ModuleRule, m: string, path: string)
    ensures CountAbout(PairFinding(f, code, rule), m, path) <= 1
    ensures rule.name != m || f.path != path ==> CountAbout(PairFinding(f, code, rule), m, path) == 0
  {
    var r := PairFinding(f, code, rule);
    assert |r| <= 1;
    if r != [] {
      assert r[..0] == [];
    }
  }

  /** Against one file, each module name is reported at most once. */
  lemma {:induction false} FileCountAbout(f: SourceFile, code: string, rules: seq<ModuleRule>, m: string)
    requires forall i, j :: 0 <= i < j < |rules| ==> rules[i].name != rules[j].name
    ensures CountAbout(FileFindings(f, code, rules), m, f.path) <= 1
    ensures (forall k :: 0 <= k < |rules| ==> rules[k].name != m) ==> CountAbout(FileFindings(f, code, rules), m, f.path) == 0
    decreases |rules|
  {
    if rules != [] {
      var last := |rules| - 1;
      var init := rules[..last];
      FileCountAbout(f, code, init, m);
      CountAboutAppend(FileFindings(f, code, init), PairFinding(f, code, rules[last]), m, f.path);
      PairCount(f, code, rules[last], m, f.path);
      if rules[last].name == m {
        assert forall k :: 0 <= k < last ==> init[k].name != m;
      }
    }
  }

  /** Against a file at another path, nothing is counted. */
  lemma {:induction false} OtherFileCountAbout(f: SourceFile, code: string, rules: seq<ModuleRule>, m: string, path: string)
    requires f.path != path
    ensures CountAbout(FileFindings(f, code, rules), m, path) == 0
    decreases |rules|
  {
    if rules != [] {
      var last := |rules| - 1;
      OtherFileCountAbout(f, code, rules[..last], m, path);
      CountAboutAppend(FileFindings(f, code, rules[..last]), PairFinding(f, code, rules[last]), m, path);
      PairCount(f, code, rules[last], m, path);
    }
  }

  /**
   * With distinct file paths and distinct module names, every file and module
   * pair gets at most one finding.
   */
  lemma {:induction false} AtMostOneFindingPerPair(files: seq<SourceFile>, rules: seq<ModuleRule>, i: nat, m: string)
    requires i < |files| && DistinctPaths(files)
    requires forall a, b :: 0 <= a < b < |rules| ==> rules[a].name != rules[b].name
    ensures CountAbout(IncludeFindings(files, rules), m, files[i].path) <= 1
    decreases |files|
  {
    var last := |files| - 1;
    var init := files[..last];
    var path := files[i].path;
    assert IncludeFindings(files, rules) == IncludeFindings(init, rules) + FileFindings(files[last], CMakeCode(files[last].content), rules);
    CountAboutAppend(IncludeFindings(init, rules), FileFindings(files[last], CMakeCode(files[last].content), rules), m, path);
    if i == last {
      FileCountAbout(files[last], CMakeCode(files[last].content), rules, m);
      assert forall j :: 0 <= j < |init| ==> init[j].path != path;
      NoCountElsewhere(init, rules, m, path);
    } else {
      assert init[i] == files[i];
      assert DistinctPaths(init);
      AtMostOneFindingPerPair(init, rules, i, m);
      assert files[last].path != path;
      OtherFileCountAbout(files[last], CMakeCode(files[last].content), rules, m, path);
    }
  }

  lemma {:induction false} NoCountElsewhere(files: seq<SourceFile>, rules: seq<ModuleRule>, m: string, path: string)
    requires forall i :: 0 <= i < |files| ==> files[i].path != path
    ensures CountAbout(IncludeFindings(files, rules), m, path) == 0
    decreases |files|
  {
    if files != [] {
      var last := |files| - 1;
      NoCountElsewhere(files[..last], rules, m, path);
      CountAboutAppend(IncludeFindings(files[..last], rules), FileFindings(files[last], CMakeCode(files[last].content), rules), m, path);
      OtherFileCountAbout(files[last], CMakeCode(files[last].content), rules, m, path);
    }
  }

  /** A line that holds only a comment uses no command and includes nothing, so it reports nothing. */
  lemma CommentOnlyFileReportsNothing(f: SourceFile, rule: ModuleRule, text: string)
    requires f.content == "#" + text
    requires '\n' !in text && '#' !in text && (text == [] || text[0] != '[')
    ensures PairFinding(f, CMakeCode(f.content), rule) == []
  {
    var s := f.content;
    assert StripBracketComments(s, 0) == s by {
      assert BracketOpenEnd(s, 0) == None;
      assert StripBracketComments(s, 0) == [s[0]] + StripBracketComments(s, 1);
      KeptBeforeHash(s, 1, |s|);
      assert s[1..|s|] == text;
    }
    assert LineEnd(s, 0) == |s| by {
      LineEndIs(s, 0, |s|);
    }
    assert LineCommentEnd(s, 0) == Some(|s|);
    var code := CMakeCode(s);
    assert code == [];
    assert !HasInclude(code, rule.name) by {
      assert !IncludeAt(code, 0, rule.name);
    }
    assert !AnyCommandUsed(code, rule.commands) by {
      forall cmd: string ensures !CommandUsed(code, cmd) {
        assert !CallFrom(code, 0, cmd);
      }
    }
  }
}
