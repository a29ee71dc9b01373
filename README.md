# CMake module checker and C probes of the PHP build system, in Dafny

This project models the core of the PHP CMake build system's maintenance
tooling and two of its small C sources.

- **bin/check-cmake.php** keeps the CMake code honest. It works on the
  comment-stripped text of every CMake file in the working tree
  (`getCMakeCode`).
  - An *include-what-you-use* check compares each file with a registry of
    CMake modules and the commands each module provides
    (`getProjectModules`). A file that includes a module without calling any
    of its commands gets a "redundant include". A file that calls a command
    without including the module gets a "missing include". A file is never
    checked against the module it defines itself.
  - Two more checks report local `Find<P>.cmake` modules that no
    `find_package(P ...)` loads, and local utility modules that nothing
    includes or names.
  - `checkAll` runs these checks and then the external linters, and keeps
    the first non-zero exit status.
- **simple_math.c** is a test library with `sm_max`, `sm_min`, `sm_abs` and
  `sm_pow` over 32-bit `int`.
- **test_mm_alignment.c** is a configure-time probe. It halves the memory
  alignment until only its lowest bit may remain, and prints the alignment,
  the number of halvings and whether the alignment is below 4.

The modules follow the script's structure:

- `CMakeText`: character classes and literal matching.
- `CommentStripper`: `getCMakeCode`.
- `FileNames`: the directory-walk filters, `pathinfo` and `basename`.
- `Findings`: what is reported and the per-check status.
- `ModuleRegistry`: `getProjectModules`.
- `IncludeCheck`: `checkCMakeFiles`.
- `UnusedModules`: `checkFindModules` and `checkModules`.
- `CheckAll`: the directory filters and the status fold of `checkAll`.
- `PatternExamples`: the patterns on lines of CMake code built around any
  name.
- `SimpleMath` and `MMAlignment`: the two C files.

Each regular expression of the script has a fixed shape, so it is written
out as a predicate over the text. Where a `[ \t]*` run stands before a
literal that cannot start with a blank, the run is maximal. Where it stands
before a name that the script splices into the pattern, every length is
tried, as the regex engine backtracks. The checks are imperative loops with
flags, `break` and `continue`. Each is proved equal to a recursive
reference function, and the reference functions carry the membership
lemmas.

Two details of the code decide which names match:

- The namespace prefix of a utility module is
  `pathinfo(dirname($module->getRealPath()), PATHINFO_FILENAME)`: the stem of
  its immediate parent directory (bin/check-cmake.php:447). The prefix is
  dropped when that stem matches `/cmake|modules/`, that is, contains
  `cmake` or `modules` (line 448).
- The include-what-you-use check wants the module name directly after
  `include(`; its pattern allows no whitespace between them (line 295). The
  utility-module check allows `[ \t\n\r]*` there (line 458).
  `PatternExamples.IncludeBlankAfterParenRejected` and
  `PatternExamples.IncludeBlankAfterParenAccepted` state the difference.

## Model

| member | source | states |
|---|---|---|
| CommentStripper.FirstCloseIsFirst | bin/check-cmake.php:232 | the lazy body of a bracket comment stops at the first `]=*]` at or after the opener, whatever the number of `=`; if none follows, no closer exists anywhere after |
| CommentStripper.StripBracketComments | bin/check-cmake.php:232 | the bracket-comment pass never lengthens the text |
| CommentStripper.StripLineComments | bin/check-cmake.php:233 | after the line-comment pass no `#` is left, and text without `#` passes unchanged |
| CommentStripper.CMakeCode | bin/check-cmake.php:229-236 | the stripped code holds no `#`, and content without `#` is returned unchanged |
| CommentStripper.CMakeCodeIdempotent | bin/check-cmake.php:229-236 | stripping twice gives the same code as stripping once |
| CommentStripper.KeptBeforeHash | bin/check-cmake.php:232 | text without `#` passes the bracket-comment pass unchanged |
| CommentStripper.BracketCommentRemoved | bin/check-cmake.php:232 | a bracket comment of any level, `#[` `=`*k `[` body `]` `=`*m `]`, whose body holds no closer, is removed as a whole, even across newlines, and the text around it is joined; the levels need not agree |
| CommentStripper.LineCommentsCutPerLine | bin/check-cmake.php:233 | the line-comment pass works line by line: each line loses everything from its first `#` on, with the blanks before that `#`, and the newline is kept |
| FileNames.LastDot | bin/check-cmake.php:314-316 | the position `pathinfo` cuts at is the last `.` of the name; with no `.` nothing is cut |
| FileNames.StemDropsExtension | bin/check-cmake.php:314-316 | `PATHINFO_FILENAME` of `base.ext` is `base` when the extension holds no dot |
| FileNames.BasenameWithout | bin/check-cmake.php:446 | `getBasename('.cmake')` removes the suffix exactly when the name ends with it and is longer than it; otherwise the name is unchanged |
| FileNames.FindPackageName | bin/check-cmake.php:381-382 | the capture of `^Find(.*)\.cmake$` holds no newline, and the name is `Find` + capture + `.cmake`, optionally followed by one newline |
| FileNames.FindPackageNameRoundTrip | bin/check-cmake.php:381-382 | for any one-line package `P`, the capture of `FindP.cmake` is `P` |
| FileNames.FindModulesAreCMakeFiles | bin/check-cmake.php:258-265 | every name the find-module filter `IsFindModuleName` (line 357) accepts also passes the CMake-file filter `IsCMakeFileName`, and the utility-module filter `IsUtilityModuleName` (lines 422-426) rejects it |
| Findings.Message | bin/check-cmake.php:322-330 | every printed finding starts with `E: ` and ends with the file it is about |
| ModuleRegistry.ProjectModules | bin/check-cmake.php:152-221 | the registry has the 39 entries of the script, in its order, and each lists at least one command |
| IncludeCheck.HasCommand | bin/check-cmake.php:299-311 | the command scan answers true exactly when one of the entry's commands is used; it stops at the first |
| IncludeCheck.CheckFile | bin/check-cmake.php:291-332 | the inner loop reports for one file exactly `FileFindings` of its stripped code, and sets the status to 1 exactly when it reports something |
| IncludeCheck.CheckCMakeFiles | bin/check-cmake.php:283-335 | the findings are `IncludeFindings`: file by file and entry by entry, and the status is 1 exactly when there is a finding |
| IncludeCheck.PairRedundant | bin/check-cmake.php:313-325 | one file against one entry reports "redundant include(M) in P" exactly when the file is at P, is not M itself, includes M and uses none of its commands |
| IncludeCheck.PairMissing | bin/check-cmake.php:313-330 | one file against one entry reports "missing include(M) in P" exactly when the file is at P, is not M itself, does not include M and uses one of its commands |
| IncludeCheck.RedundantIncludeReported | bin/check-cmake.php:293-325 | "redundant include(M) in P" is reported exactly when some file at P that is not M includes M and uses no command of an entry named M |
| IncludeCheck.MissingIncludeReported | bin/check-cmake.php:299-330 | "missing include(M) in P" is reported exactly when some file at P that is not M uses a command of an entry named M without including M |
| IncludeCheck.OnlyIncludeFindings | bin/check-cmake.php:322-330 | the include check reports nothing but redundant and missing includes |
| IncludeCheck.SelfModuleNotReported | bin/check-cmake.php:313-320 | a file is never reported against the module name it defines |
| IncludeCheck.PairCount | bin/check-cmake.php:322-330 | one file and one entry give at most one finding, and none about another file or module |
| IncludeCheck.AtMostOneFindingPerPair | bin/check-cmake.php:287-333 | with distinct paths and distinct registry names, each file and module name gets at most one finding |
| IncludeCheck.CommentOnlyFileReportsNothing | bin/check-cmake.php:229-236 | a file holding only a one-line comment includes nothing and calls nothing, so no entry reports it |
| UnusedModules.FindPackageFound | bin/check-cmake.php:384-391 | the file scan answers true exactly when some stripped file holds `find_package[ \t]*(` then `[ \t\n\r]*`, the package and one of `[ \t\n\r)]` |
| UnusedModules.CheckFindModules | bin/check-cmake.php:376-400 | the findings are `UnusedFindModules`, find module by find module, and the status is 1 exactly when a find module is reported |
| UnusedModules.UnusedFindModuleReported | bin/check-cmake.php:380-397 | a find module is reported exactly when no file loads its package |
| UnusedModules.UnusedFindModulesShape | bin/check-cmake.php:380-397 | the find-module check reports only unused find modules, and never more findings than find modules |
| UnusedModules.UnusedFindAtMostOnce | bin/check-cmake.php:380-397 | when the find modules have distinct paths, each path is reported at most once |
| UnusedModules.FindPackageCallUses | bin/check-cmake.php:387 | a file holding `find_package(P)` loads `P`, so `FindP.cmake` is not reported |
| UnusedModules.ModuleFound | bin/check-cmake.php:453-468 | the file scan answers true exactly when some stripped file includes the module by its namespaced name or contains its file name |
| UnusedModules.CheckModules | bin/check-cmake.php:441-477 | the findings are `UnusedUtilityModules`, module by module, and the status is 1 exactly when a module is reported |
| UnusedModules.UnusedUtilityModuleReported | bin/check-cmake.php:445-473 | a utility module is reported exactly when no file includes or names it |
| UnusedModules.UnusedUtilityModulesShape | bin/check-cmake.php:445-473 | the utility-module check reports only unused utility modules, and never more findings than module files |
| UnusedModules.UnusedUtilityAtMostOnce | bin/check-cmake.php:445-473 | when the module files have distinct paths, each path is reported at most once |
| UnusedModules.NamedModuleUsed | bin/check-cmake.php:463-467 | a module whose file name appears in a file without comments is used |
| UnusedModules.IncludeNameUnderModules | bin/check-cmake.php:446-449 | under a directory named `modules` the prefix is dropped, so `Name.cmake` is included as `Name` |
| CheckAll.FirstNonZero | bin/check-cmake.php:707-768 | the folded status is 0 exactly when every step returned 0; otherwise it is the status of the first step that did not |
| CheckAll.FirstNonZeroAppend | bin/check-cmake.php:707-768 | one more step changes the status only when every earlier step returned 0 |
| CheckAll.FirstNonZeroConcat | bin/check-cmake.php:707-768 | later steps count only when every earlier step returned 0 |
| CheckAll.CMakeFiles | bin/check-cmake.php:258-265 | the walk keeps exactly the files named `*.cmake`, `CMakeLists.txt` or `CMakeLists.txt.in` |
| CheckAll.FindModules | bin/check-cmake.php:357 | the walk keeps exactly the files named `Find*.cmake` |
| CheckAll.UtilityModules | bin/check-cmake.php:422-426 | the walk keeps exactly the files not named `Find*.cmake` |
| FileNames.SelectAppend | bin/check-cmake.php:258-265 | each walk filter keeps the walk order: filtering two walks one after the other gives the two filtered walks one after the other |
| FileNames.SelectDistinct | bin/check-cmake.php:422-426 | filtering a walk with distinct paths leaves them distinct, so the at-most-once lemmas apply to the filtered module directory |
| CheckAll.RunTools | bin/check-cmake.php:729-761 | the tool steps, optional ones only when enabled, leave a non-zero status alone and otherwise give the first non-zero tool status |
| CheckAll.CheckAll | bin/check-cmake.php:707-768 | the findings are those of the three module checks in order, and the status is the first non-zero status of all steps |
| CheckAll.FindingsFail | bin/check-cmake.php:712-725 | when any module check reports something, the run ends with status 1, whatever the tools return |
| CheckAll.CleanModulesDeferToTools | bin/check-cmake.php:712-767 | when no module check reports anything, the status is the first non-zero status of the tools that ran |
| CheckAll.CheckAllSucceeds | bin/check-cmake.php:707-768 | the run ends with 0 exactly when nothing is reported and every tool that ran returned 0 |
| CheckAll.DisabledToolIgnored | bin/check-cmake.php:739-761 | for each of gersemi, cmakelint, cmakelang's cmake-format and cmakelang's cmake-lint: when the options leave it out, any change of its exit status leaves the final status unchanged |
| IncludeCheck.SelfNameOf | bin/check-cmake.php:313-316 | `SelfName`: `Dir/Name.cmake` defines the module `Dir/Name`, and `cmake/Name.cmake` defines `Name` |
| UnusedModules.PackageOfFindModule | bin/check-cmake.php:381-382 | `PackageOf`: the package of `Find<P>.cmake`, for any one-line `P`, is `P` |
| PatternExamples.IncludeWithBlanks | bin/check-cmake.php:295 | `IncludeAt`/`HasInclude`: for any name `M`, an indented `include (M )` on a later line includes `M`; blanks may stand before `(` and before `)` |
| PatternExamples.IncludeBlankAfterParenRejected | bin/check-cmake.php:295 | `HasInclude`: for any one-line name `M` that does not start with a blank, `include( M)` does not include `M` |
| PatternExamples.IncludeBlankAfterParenAccepted | bin/check-cmake.php:458 | `IncludesModule`/`ArgFrom`: for any name `M`, `include( M)` does include `M` in the utility-module check |
| PatternExamples.FindPackageAcrossLines | bin/check-cmake.php:387 | `FindsPackage`/`CallWithArgAt`: for any package `P`, `find_package (` then a newline, blanks, `P` and a blank loads `P` |
| PatternExamples.IncludeNameWithPrefix | bin/check-cmake.php:446-449 | `IncludeName`: under a directory `D` whose name holds no dot, `cmake` or `modules`, `Name.cmake` is included as `D/Name` |
| PatternExamples.IncludeNameOfOtherFile | bin/check-cmake.php:446-449 | `IncludeName`: a file not ending in `.cmake` keeps its whole name under the prefix, as `CheckMMAlignment/test_mm_alignment.c` |
| PatternExamples.IncludedModuleUsed | bin/check-cmake.php:458-467 | `ModuleUsedIn`/`IncludesModule`: code that includes a module under its include name uses it |
| CommentStripper.LaidOutComment | bin/check-cmake.php:232 | `BracketCommentEnd`: a comment laid out as opener of any level, closer-free body and closer of any level ends just past that closer |
| PatternExamples.LineCommentToNewline | bin/check-cmake.php:233 | `LineCommentEnd`: a line comment starting with blanks before `#` runs up to the newline and leaves the newline in place |
| PatternExamples.IndentedCallUsed | bin/check-cmake.php:307 | `CallAt`/`CallFrom`/`CommandUsed`: for any command `C`, a line of a tab and a blank, then `C (x)`, uses `C` |
| PatternExamples.CommandCaseSensitive | bin/check-cmake.php:301-307 | `CommandUsed`: `CHECK_SYMBOL_EXISTS(x)` does not use `check_symbol_exists`; commands are compared case by case |
| PatternExamples.TargetNameUsed | bin/check-cmake.php:302-305 | `SymbolAt`/`CommandUsed`: any name with `::` is used where it stands between non-word characters, even as an argument, as in `t(x C)` |
| PatternExamples.IncludedAndUsed | bin/check-cmake.php:293-330 | `PairFinding`: a file `include(M)` then `C(x)` is not reported against an entry for `M` with command `C`, whichever file it is |
| PatternExamples.CheckSymbolExistsRegistered | bin/check-cmake.php:175 | the registry's entry for CheckSymbolExists lists `check_symbol_exists`, so `IncludedAndUsed` covers a real entry |
| SimpleMath.SmMax | cmake/cmake/tests/modules/SearchLibraries/simple-math/simple_math.c:7-10 | the maximum is at least each argument and is one of them |
| SimpleMath.SmMin | cmake/cmake/tests/modules/SearchLibraries/simple-math/simple_math.c:12-15 | the minimum is at most each argument and is one of them |
| SimpleMath.MinMaxSum | cmake/cmake/tests/modules/SearchLibraries/simple-math/simple_math.c:7-15 | minimum plus maximum is the sum of the arguments, and the minimum is at most the maximum |
| SimpleMath.MinMaxCommute | cmake/cmake/tests/modules/SearchLibraries/simple-math/simple_math.c:7-15 | neither depends on the order of the arguments |
| SimpleMath.SmAbs | cmake/cmake/tests/modules/SearchLibraries/simple-math/simple_math.c:17-20 | the absolute value is non-negative and is `x` or `-x`, and it is `x` for non-negative `x` |
| SimpleMath.AbsIsMaxOfNegation | cmake/cmake/tests/modules/SearchLibraries/simple-math/simple_math.c:17-20 | the absolute value is the larger of `x` and `-x`, and taking it twice changes nothing |
| SimpleMath.PowerAdd | cmake/cmake/tests/modules/SearchLibraries/simple-math/simple_math.h:13-14 | the power the loop computes adds exponents: `b^(m+n) = b^m * b^n` |
| SimpleMath.SmPow | cmake/cmake/tests/modules/SearchLibraries/simple-math/simple_math.c:22-29 | for `exp >= 0` the result is `base^exp`, and for `exp <= 0` it is 1, as the loop runs no step |
| SimpleMath.PowerMagnitudeGrows | cmake/cmake/tests/modules/SearchLibraries/simple-math/simple_math.c:25-27 | with a non-zero base the partial products never shrink in magnitude, and with `abs(base) >= 2` each step at least doubles it |
| SimpleMath.ResultFitsSuffices | cmake/cmake/tests/modules/SearchLibraries/simple-math/simple_math.c:22-29 | for `exp >= 0`, if `base^exp` fits in an `int`, then no partial product of the loop overflows |
| MMAlignment.ClearLowBitTest | cmake/cmake/modules/Zend/CheckMMAlignment/test_mm_alignment.c:21 | on a 64-bit unsigned value, `i & ~0x1` is non-zero exactly when `i >= 2` |
| MMAlignment.ShiftRightHalves | cmake/cmake/modules/Zend/CheckMMAlignment/test_mm_alignment.c:23 | on a 64-bit unsigned value, `i >> 1` is `i / 2` |
| MMAlignment.FloorLog2 | cmake/cmake/modules/Zend/CheckMMAlignment/test_mm_alignment.c:18-24 | for `A >= 1` the count satisfies `2^r <= A < 2^(r+1)`, and it is 0 for `A` of 0 or 1 |
| MMAlignment.AlignmentProbe | cmake/cmake/modules/Zend/CheckMMAlignment/test_mm_alignment.c:16-29 | the loop ends. The count is the base-2 logarithm of the alignment, rounded down, below 64, and 0 for 0 and 1. `i` ends as 0 or 1, and as 0 only for alignment 0. The third printed value is 1 exactly when the alignment is below 4 |
| MMAlignment.LogBelow64 | cmake/cmake/modules/Zend/CheckMMAlignment/test_mm_alignment.c:19-24 | the count of halvings of any `size_t` is below 64, so it fits in the `int` counter |
| MMAlignment.FloorLog2Unique | cmake/cmake/modules/Zend/CheckMMAlignment/test_mm_alignment.c:18-24 | the count is the only exponent `k` with `2^k <= A < 2^(k+1)` |
| MMAlignment.Log2OfPower | cmake/cmake/modules/Zend/CheckMMAlignment/test_mm_alignment.c:18-24 | for an alignment of `2^k` the count is `k` |
| MMAlignment.BelowFourIffFewHalvings | cmake/cmake/modules/Zend/CheckMMAlignment/test_mm_alignment.c:26 | the alignment is below 4 exactly when at most one halving happened |

## Left out

- Command-line handling: `options`, `validateOptions`, `usage`, `output` and `init`. They use getopt, echo, exit and chdir. Findings are returned as a sequence instead of being printed, and the progress lines of `checkAll` are not modelled.
- Directory walking and file reading. The recursive iterators and `file_get_contents` are file I/O. A walk is given as a sequence of files, each with its path, the name of its parent directory, its own name and its content.
  - The order of that sequence stands for the walk's order.
  - Files are keyed by path name, and two entries with the same path name are assumed not to occur.
  - A single-file argument, which the walks return without filtering, is not modelled.
  - `getRealPath()` is taken to be the given path, so symbolic links are not resolved.
- External tools: codespell, normalizator, gersemi, cmakelint and cmakelang. Their exit statuses are parameters of `CheckAll.CheckAll`. `checkCommand` and the `run*` helpers are not modelled.
- Regular-expression metacharacters in spliced names. The script escapes little: the package name is spliced unescaped (line 387); a registry name has only `/` escaped (line 293), and its commands nothing (lines 301-307); the include name of a utility module has only `/` escaped (line 449); only its file name has `.` escaped (lines 450-451). The model compares every name literally.
  - A `.` in a package name or an include name matches any character in the script. For example, the module file `test_mm_alignment.c` under `CheckMMAlignment` has the include name `CheckMMAlignment/test_mm_alignment.c`, whose dots match anything. There the script can find a module used that the model reports.
  - A name containing `+`, `*`, `(` or similar would change the script's pattern. That is not modelled either.
- ModuleRegistry.ProjectModules: distinct registry names and commands of plain identifier characters are not proved; comparing the 39 names pairwise is beyond the verifier's budget. `IncludeCheck.AtMostOneFindingPerPair` takes distinct names as a precondition.
- IncludeCheck.CommentOnlyFileReportsNothing: covers only a single-line comment that does not start a bracket comment.
- SimpleMath.SmAbs: requires `x != INT_MIN`, because `-INT_MIN` overflows `int`, which is undefined behaviour in C.
- SimpleMath.SmPow: requires that no partial product overflows `int`, because signed overflow is undefined behaviour in C. `ResultFitsSuffices` shows that for `exp >= 0` it is enough for the final result to fit.
- MMAlignment.AlignmentProbe: `size_t` is an unbounded integer below 2^64. The loop test `i & ~0x1` is written `i >= 2`, and the shift `i >> 1` is written `i / 2`. `ClearLowBitTest` and `ShiftRightHalves` state these equivalences on 64-bit bit-vectors, but they are not carried through to the integer model.
- The alignment itself comes from `__alignof__` or `sizeof` and is a parameter. `printf` is replaced by the returned values.
- bin/make-docs.php is not part of this model. It is a file-system script around one regex capture.
- The C probes that only call library code (check_fnmatch.c, posix_ttyname_test.c, test_standard_getifaddrs.c, the embed SAPI test) are not part of this model. Neither is cmake/win32/wsyslog.h, which holds only constants.
