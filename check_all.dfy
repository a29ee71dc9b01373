/**
 * checkAll: the three module checks over the working tree, then the
 * external tools, folded into one exit status. A step's status replaces the
 * running status only while that is still 0, so the first non-zero status
 * wins. The external tools are not part of this model: their exit statuses
 * come in as parameters.
 */
module CheckAll {
  import opened FileNames
  import opened Findings
  import opened ModuleRegistry
  import opened IncludeCheck
  import opened UnusedModules

  /** Which optional tools the command line enabled. */
  datatype Options = Options(gersemi: bool, cmakelint: bool, cmakelangFormat: bool, cmakelangLint: bool)

  /** The exit statuses the external tools would return. */
  datatype ToolStatuses = ToolStatuses(
    codespell: int, normalizator: int,
    gersemi: int, cmakelint: int, cmakelangFormat: int, cmakelangLint: int)

  /** The first non-zero status of the steps, or 0 when every step succeeded. */
  function FirstNonZero(statuses: seq<int>): (r: int)
    ensures r == 0 <==> forall k :: 0 <= k < |statuses| ==> statuses[k] == 0
    ensures r != 0 ==> exists k :: 0 <= k < |statuses| && statuses[k] == r &&
                                   forall j :: 0 <= j < k ==> statuses[j] == 0
  {
    if statuses == [] then 0
    else if statuses[0] != 0 then statuses[0]
    else
      var r := FirstNonZero(statuses[1..]);
      assert forall k :: 1 <= k < |statuses| ==> statuses[k] == statuses[1..][k - 1];
      if r != 0 then
        var k :| 0 <= k < |statuses[1..]| && statuses[1..][k] == r && forall j :: 0 <= j < k ==> statuses[1..][j] == 0;
        assert statuses[k + 1] == r;
        r
      else r
  }

  /** One more step: its status counts only when every earlier step returned 0. */
  lemma {:induction false} FirstNonZeroAppend(statuses: seq<int>, s: int)
    ensures FirstNonZero(statuses + [s]) == if FirstNonZero(statuses) == 0 then s else FirstNonZero(statuses)
    decreases |statuses|
  {
    if statuses != [] {
      assert (statuses + [s])[1..] == statuses[1..] + [s];
      FirstNonZeroAppend(statuses[1..], s);
    }
  }

  /** getAllCMakeFiles: the files of the tree named `*.cmake`, `CMakeLists.txt` or `CMakeLists.txt.in`. */
  function CMakeFiles(tree: seq<SourceFile>): (r: seq<SourceFile>)
    ensures forall f :: f in r <==> f in tree && IsCMakeFileName(f.name)
  {
    Select(tree, IsCMakeFileName)
  }

  /** getFindModules: the files of the module directory named `Find*.cmake`. */
  function FindModules(moduleDir: seq<SourceFile>): (r: seq<SourceFile>)
    ensures forall f :: f in r <==> f in moduleDir && IsFindModuleName(f.name)
  {
    Select(moduleDir, IsFindModuleName)
  }

  /** getModules: every other file of the module directory. */
  function UtilityModules(moduleDir: seq<SourceFile>): (r: seq<SourceFile>)
    ensures forall f :: f in r <==> f in moduleDir && IsUtilityModuleName(f.name)
  {
    Select(moduleDir, IsUtilityModuleName)
  }

  /** Everything the three module checks report, in the order they run. */
  function ModuleFindings(tree: seq<SourceFile>, moduleDir: seq<SourceFile>): seq<Finding> {
    var files := CMakeFiles(tree);
    IncludeFindings(files, ProjectModules()) +
    UnusedFindModules(FindModules(moduleDir), files) +
    UnusedUtilityModules(UtilityModules(moduleDir), files)
  }

  /** The statuses so far, followed by that of a step when it runs. */
  function Then(steps: seq<int>, runs: bool, status: int): seq<int> {
    if runs then steps + [status] else steps
  }

  /** The statuses of the tools that run, in the order they run. */
  function ToolSteps(opts: Options, tools: ToolStatuses): seq<int> {
    Then(Then(Then(Then([tools.codespell, tools.normalizator],
      opts.gersemi, tools.gersemi),
      opts.cmakelint, tools.cmakelint),
      opts.cmakelangFormat, tools.cmakelangFormat),
      opts.cmakelangLint, tools.cmakelangLint)
  }

  /** The statuses of every step, in the order checkAll runs them. */
  function Steps(opts: Options, tree: seq<SourceFile>, moduleDir: seq<SourceFile>, tools: ToolStatuses): seq<int> {
    var files := CMakeFiles(tree);
    [StatusOf(IncludeFindings(files, ProjectModules())),
     StatusOf(UnusedFindModules(FindModules(moduleDir), files)),
     StatusOf(UnusedUtilityModules(UtilityModules(moduleDir), files))] +
    ToolSteps(opts, tools)
  }

  /** Steps run one after the other: the later ones count only when the earlier ones all returned 0. */
  lemma {:induction false} FirstNonZeroConcat(first: seq<int>, rest: seq<int>)
    ensures FirstNonZero(first + rest) == if FirstNonZero(first) == 0 then FirstNonZero(rest) else FirstNonZero(first)
    decreases |first|
  {
    if first == [] {
      assert first + rest == rest;
    } else {
      assert (first + rest)[1..] == first[1..] + rest;
      FirstNonZeroConcat(first[1..], rest);
    }
  }

  /** One step of the fold: a step that runs takes over a status that is still 0. */
  lemma FoldStep(steps: seq<int>, runs: bool, s: int, status0: int, status: int)
    requires status == if status0 == 0 then FirstNonZero(steps) else status0
    ensures (if runs && status == 0 then s else status) ==
            if status0 == 0 then FirstNonZero(Then(steps, runs, s)) else status0
  {
    if runs {
      FirstNonZeroAppend(steps, s);
    }
  }

  /** The tool steps of checkAll, folded into the status the module checks left. */
  method RunTools(opts: Options, tools: ToolStatuses, status0: int) returns (status: int)
    ensures status == if status0 == 0 then FirstNonZero(ToolSteps(opts, tools)) else status0
  {
    status := status0;
    status := if status == 0 then tools.codespell else status;
    status := if status == 0 then tools.normalizator else status;
    ghost var steps: seq<int> := [tools.codespell, tools.normalizator];
    assert FirstNonZero(steps) == if tools.codespell == 0 then tools.normalizator else tools.codespell by {
      FirstNonZeroAppend([tools.codespell], tools.normalizator);
      FirstNonZeroAppend([], tools.codespell);
      assert [tools.codespell] + [tools.normalizator] == steps;
    }

    FoldStep(steps, opts.gersemi, tools.gersemi, status0, status);
    if opts.gersemi {
      status := if status == 0 then tools.gersemi else status;
    }
    steps := Then(steps, opts.gersemi, tools.gersemi);

    FoldStep(steps, opts.cmakelint, tools.cmakelint, status0, status);
    if opts.cmakelint {
      status := if status == 0 then tools.cmakelint else status;
    }
    steps := Then(steps, opts.cmakelint, tools.cmakelint);

    FoldStep(steps, opts.cmakelangFormat, tools.cmakelangFormat, status0, status);
    if opts.cmakelangFormat {
      status := if status == 0 then tools.cmakelangFormat else status;
    }
    steps := Then(steps, opts.cmakelangFormat, tools.cmakelangFormat);

    FoldStep(steps, opts.cmakelangLint, tools.cmakelangLint, status0, status);
    if opts.cmakelangLint {
      status := if status == 0 then tools.cmakelangLint else status;
    }
    steps := Then(steps, opts.cmakelangLint, tools.cmakelangLint);
  }

  /** checkAll: run every step and keep the first non-zero status. */
  method CheckAll(opts: Options, tree: seq<SourceFile>, moduleDir: seq<SourceFile>, tools: ToolStatuses)
    returns (status: int, findings: seq<Finding>)
    ensures findings == ModuleFindings(tree, moduleDir)
    ensures status == FirstNonZero(Steps(opts, tree, moduleDir, tools))
  {
    var allCMakeFiles := CMakeFiles(tree);
    var projectModules := ProjectModules();
    var s1, f1 := CheckCMakeFiles(allCMakeFiles, projectModules);
    status, findings := s1, f1;

    var s2, f2 := CheckFindModules(FindModules(moduleDir), allCMakeFiles);
    status := if status == 0 then s2 else status;
    findings := findings + f2;

    var s3, f3 := CheckModules(UtilityModules(moduleDir), allCMakeFiles);
    status := if status == 0 then s3 else status;
    findings := findings + f3;

    FoldThree(s1, s2, s3);
    FirstNonZeroConcat([s1, s2, s3], ToolSteps(opts, tools));
    status := RunTools(opts, tools, status);
  }

  /** The fold of the three module checks. */
  lemma FoldThree(s1: int, s2: int, s3: int)
    ensures FirstNonZero([s1, s2, s3]) == if s1 != 0 then s1 else if s2 != 0 then s2 else s3
  {
    assert [s3][1..] == [];
    assert FirstNonZero([s3]) == s3;
    assert [s2, s3][1..] == [s3];
    assert FirstNonZero([s2, s3]) == if s2 != 0 then s2 else s3;
    assert [s1, s2, s3][1..] == [s2, s3];
  }

  /**
   * The run fails with status 1 whenever a module check reported anything,
   * whatever the tools return.
   */
  lemma FindingsFail(opts: Options, tree: seq<SourceFile>, moduleDir: seq<SourceFile>, tools: ToolStatuses)
    requires ModuleFindings(tree, moduleDir) != []
    ensures FirstNonZero(Steps(opts, tree, moduleDir, tools)) == 1
  {
    var files := CMakeFiles(tree);
    ReportedModulesFail(IncludeFindings(files, ProjectModules()),
      UnusedFindModules(FindModules(moduleDir), files),
      UnusedUtilityModules(UtilityModules(moduleDir), files),
      ToolSteps(opts, tools));
  }

  /** Three module checks of which one reported something, then any steps: the fold gives 1. */
  lemma ReportedModulesFail(a: seq<Finding>, b: seq<Finding>, c: seq<Finding>, rest: seq<int>)
    requires a + b + c != []
    ensures FirstNonZero([StatusOf(a), StatusOf(b), StatusOf(c)] + rest) == 1
  {
    var steps := [StatusOf(a), StatusOf(b), StatusOf(c)] + rest;
    var k := if a != [] then 0 else if b != [] then 1 else 2;
    assert steps[k] == 1 && forall j :: 0 <= j < k ==> steps[j] == 0;
    var r := FirstNonZero(steps);
    var i :| 0 <= i < |steps| && steps[i] == r && forall j :: 0 <= j < i ==> steps[j] == 0;
    assert !(i > k) && !(i < k);
  }

  /**
   * With nothing reported, the status is the first non-zero status among the
   * tools that ran.
   */
  lemma CleanModulesDeferToTools(opts: Options, tree: seq<SourceFile>, moduleDir: seq<SourceFile>, tools: ToolStatuses)
    requires ModuleFindings(tree, moduleDir) == []
    ensures FirstNonZero(Steps(opts, tree, moduleDir, tools)) == FirstNonZero(ToolSteps(opts, tools))
  {
    var files := CMakeFiles(tree);
    CleanModulesPass(IncludeFindings(files, ProjectModules()),
      UnusedFindModules(FindModules(moduleDir), files),
      UnusedUtilityModules(UtilityModules(moduleDir), files),
      ToolSteps(opts, tools));
  }

  /** Three module checks that reported nothing, then other steps: the fold is that of the other steps. */
  lemma CleanModulesPass(a: seq<Finding>, b: seq<Finding>, c: seq<Finding>, rest: seq<int>)
    requires a + b + c == []
    ensures FirstNonZero([StatusOf(a), StatusOf(b), StatusOf(c)] + rest) == FirstNonZero(rest)
  {
    assert a == [] && b == [] && c == [];
    FirstNonZeroConcat([0, 0, 0], rest);
    assert [0, 0, 0][1..] == [0, 0] && [0, 0][1..] == [0] && [0][1..] == [];
  }

  /** The run succeeds exactly when nothing is reported and every tool that ran returned 0. */
  lemma CheckAllSucceeds(opts: Options, tree: seq<SourceFile>, moduleDir: seq<SourceFile>, tools: ToolStatuses)
    ensures FirstNonZero(Steps(opts, tree, moduleDir, tools)) == 0 <==>
            ModuleFindings(tree, moduleDir) == [] &&
            forall k :: 0 <= k < |ToolSteps(opts, tools)| ==> ToolSteps(opts, tools)[k] == 0
  {
    var files := CMakeFiles(tree);
    ModulesThenToolsSucceed(IncludeFindings(files, ProjectModules()),
      UnusedFindModules(FindModules(moduleDir), files),
      UnusedUtilityModules(UtilityModules(moduleDir), files),
      ToolSteps(opts, tools));
  }

  /** Three module checks, then other steps: the fold is 0 exactly when nothing is reported and every other step gave 0. */
  lemma ModulesThenToolsSucceed(a: seq<Finding>, b: seq<Finding>, c: seq<Finding>, rest: seq<int>)
    ensures FirstNonZero([StatusOf(a), StatusOf(b), StatusOf(c)] + rest) == 0 <==>
            a + b + c == [] && forall k :: 0 <= k < |rest| ==> rest[k] == 0
  {
    if a + b + c == [] {
      CleanModulesPass(a, b, c, rest);
    } else {
      ReportedModulesFail(a, b, c, rest);
    }
  }

  /** A tool that the options leave out has no say in the status, whichever of the four optional tools it is. */
  lemma DisabledToolIgnored(opts: Options, tree: seq<SourceFile>, moduleDir: seq<SourceFile>, tools: ToolStatuses, other: int)
    ensures !opts.gersemi ==>
      FirstNonZero(Steps(opts, tree, moduleDir, tools.(gersemi := other))) == FirstNonZero(Steps(opts, tree, moduleDir, tools))
    ensures !opts.cmakelint ==>
      FirstNonZero(Steps(opts, tree, moduleDir, tools.(cmakelint := other))) == FirstNonZero(Steps(opts, tree, moduleDir, tools))
    ensures !opts.cmakelangFormat ==>
      FirstNonZero(Steps(opts, tree, moduleDir, tools.(cmakelangFormat := other))) == FirstNonZero(Steps(opts, tree, moduleDir, tools))
    ensures !opts.cmakelangLint ==>
      FirstNonZero(Steps(opts, tree, moduleDir, tools.(cmakelangLint := other))) == FirstNonZero(Steps(opts, tree, moduleDir, tools))
  {
  }
}
