/**
 * The hand-coded patterns of the checker on lines of CMake code built
 * around any module, command or package name: what each regular expression
 * accepts, and the places where the two checks that look for `include(...)`
 * disagree.
 */
module PatternExamples {
  import opened CMakeText
  import opened CommentStripper
  import opened FileNames
  import opened Findings
  import opened ModuleRegistry
  import opened IncludeCheck
  import opened UnusedModules

  /** A run of blanks of length `n` at `p`, ended by a non-blank or the end of the text. */
  lemma BlankRunIs(s: string, p: nat, n: nat)
    requires p + n <= |s|
    requires forall i :: p <= i < p + n ==> IsBlank(s[i])
    requires p + n == |s| || !IsBlank(s[p + n])
    ensures BlankRun(s, p) == n
  {
  }

  /** The middle piece of a concatenation occurs where the first one ends. */
  lemma Occurs(a: string, lit: string, b: string)
    ensures StartsAt(a + lit + b, |a|, lit)
  {
    assert (a + lit + b)[|a|..|a| + |lit|] == lit;
  }

  // ---------------------------------------------------------------------
  // include(...) in the include-what-you-use check
  // ---------------------------------------------------------------------

  /** An indented `include (M )` counts as including `M`: blanks may precede `(` and `)`. */
  lemma IncludeWithBlanks(m: string)
    ensures HasInclude("x\n  include (" + m + " )\n", m)
  {
    var code := "x\n  include (" + m + " )\n";
    IndentedIncludeParts(code, m);
    assert IncludeAt(code, 2, m);
  }

  lemma IndentedIncludeParts(code: string, m: string)
    requires code == "x\n  include (" + m + " )\n"
    ensures LineStartAt(code, 2) && StartsAt(code, 4, "include") && StartsAt(code, 12, "(")
    ensures StartsAt(code, 13, m) && StartsAt(code, 14 + |m|, ")")
    ensures BlankRun(code, 2) == 2 && BlankRun(code, 11) == 1 && BlankRun(code, 13 + |m|) == 1
  {
    Occurs("x\n  include (", m, " )\n");
    assert code[..13] == "x\n  include (";
    assert code[4..11] == "include";
    BlankRunIs(code, 2, 2);
    BlankRunIs(code, 11, 1);
    BlankRunIs(code, 13 + |m|, 1);
  }

  /** The include-what-you-use check does not allow a blank after `(`. */
  lemma IncludeBlankAfterParenRejected(m: string)
    requires m != [] && m[0] != ' ' && '\n' !in m
    ensures !HasInclude("include( " + m + ")", m)
  {
    var code := "include( " + m + ")";
    assert forall k :: 0 <= k < |code| ==> code[k] != '\n' by {
      assert forall k :: 9 <= k < 9 + |m| ==> code[k] == m[k - 9];
    }
    assert code[..7] == "include";
    BlankRunIs(code, 0, 0);
    BlankRunIs(code, 7, 0);
    forall p | 0 <= p <= |code|
      ensures !IncludeAt(code, p, m)
    {
      if p > 0 {
        assert code[p - 1] != '\n';
      } else {
        assert code[8] != m[0];
      }
    }
  }

  // ---------------------------------------------------------------------
  // include(...) and find_package(...) in the unused-module checks
  // ---------------------------------------------------------------------

  /** The unused-module check does allow blanks, and newlines, after `(`. */
  lemma IncludeBlankAfterParenAccepted(m: string)
    ensures IncludesModule("include( " + m + ")", m)
  {
    var code := "include( " + m + ")";
    Occurs("include( ", m, ")");
    assert code[..7] == "include";
    BlankRunIs(code, 7, 0);
    assert ArgFrom(code, 9, m);
    assert CallWithArgAt(code, 0, "include", m);
  }

  /** `find_package` may be followed by a blank before `(`, and blanks and a newline before the package. */
  lemma FindPackageAcrossLines(package: string)
    ensures FindsPackage("find_package (\n  " + package + " REQUIRED)", package)
  {
    var code := "find_package (\n  " + package + " REQUIRED)";
    Occurs("find_package (\n  ", package, " REQUIRED)");
    assert code[..12] == "find_package";
    BlankRunIs(code, 12, 1);
    assert ArgFrom(code, 17, package);
    assert ArgFrom(code, 14, package);
    assert CallWithArgAt(code, 0, "find_package", package);
  }

  // ---------------------------------------------------------------------
  // Names of utility modules
  // ---------------------------------------------------------------------

  /** Under any other directory `D`, `Name.cmake` is included as `D/Name`. */
  lemma IncludeNameWithPrefix(candidate: SourceFile, base: string)
    requires '.' !in candidate.dir
    requires !Contains(candidate.dir, "cmake") && !Contains(candidate.dir, "modules")
    requires candidate.name == base + ".cmake" && base != []
    ensures IncludeName(candidate) == candidate.dir + "/" + base
  {
    StemWithoutDot(candidate.dir);
    assert EndsWith(candidate.name, ".cmake");
    assert candidate.name[..|candidate.name| - 6] == base;
  }

  /**
   * A module file that is not a `.cmake` file keeps its whole name: under
   * `CheckMMAlignment`, `test_mm_alignment.c` is included as
   * `CheckMMAlignment/test_mm_alignment.c`.
   */
  lemma IncludeNameOfOtherFile(candidate: SourceFile)
    requires '.' !in candidate.dir
    requires !Contains(candidate.dir, "cmake") && !Contains(candidate.dir, "modules")
    requires !EndsWith(candidate.name, ".cmake")
    ensures IncludeName(candidate) == candidate.dir + "/" + candidate.name
  {
    StemWithoutDot(candidate.dir);
  }

  /** A module is used by code that includes it under its include name. */
  lemma IncludedModuleUsed(candidate: SourceFile)
    ensures ModuleUsedIn("include( " + IncludeName(candidate) + ")", candidate)
  {
    IncludeBlankAfterParenAccepted(IncludeName(candidate));
  }

  // ---------------------------------------------------------------------
  // Line comments
  // ---------------------------------------------------------------------

  /** A line comment after blanks runs from the blanks up to, and not over, the newline. */
  lemma LineCommentToNewline(before: string, text: string, after: string)
    requires '\n' !in text
    ensures LineCommentEnd(before + " \t#" + text + "\n" + after, |before|) == Some(|before| + 3 + |text|)
  {
    var s := before + " \t#" + text + "\n" + after;
    var o := |before|;
    assert s[o] == ' ' && s[o + 1] == '\t' && s[o + 2] == '#';
    BlankRunIs(s, o, 2);
    assert forall k :: o + 3 <= k < o + 3 + |text| ==> s[k] == text[k - o - 3];
    assert s[o + 3 + |text|] == '\n';
    LineEndIs(s, o + 2, o + 3 + |text|);
  }

  // ---------------------------------------------------------------------
  // Commands and target names
  // ---------------------------------------------------------------------

  /** A call counts when it starts a line after blanks, with blanks before its `(`. */
  lemma IndentedCallUsed(cmd: string)
    ensures CommandUsed("a\n\t " + cmd + " (x)", cmd)
  {
    var code := "a\n\t " + cmd + " (x)";
    Occurs("a\n\t ", cmd, " (x)");
    BlankRunIs(code, 4 + |cmd|, 1);
    assert CallFrom(code, 4, cmd);
    assert CallFrom(code, 2, cmd);
    assert CallAt(code, 2, cmd);
  }

  /** `check_symbol_exists` holds no `::`. */
  lemma PlainCommandName()
    ensures !Contains("check_symbol_exists", "::")
  {
    var cmd := "check_symbol_exists";
    assert forall k :: 0 <= k < |cmd| ==> cmd[k] != ':';
    forall p | 0 <= p <= |cmd|
      ensures !StartsAt(cmd, p, "::")
    {
      if p + 2 <= |cmd| {
        assert cmd[p..p + 2][0] == cmd[p] != ':';
      }
    }
  }

  /** Command names are compared case by case: an upper-case call does not use the command. */
  lemma CommandCaseSensitive()
    ensures !CommandUsed("CHECK_SYMBOL_EXISTS(x)", "check_symbol_exists")
  {
    var code := "CHECK_SYMBOL_EXISTS(x)";
    var cmd := "check_symbol_exists";
    PlainCommandName();
    assert forall k :: 0 <= k < |code| ==> code[k] != '\n';
    forall p | 0 <= p <= |code|
      ensures !CallAt(code, p, cmd)
    {
      if p == 0 {
        assert code[0] != cmd[0] && !IsBlank(code[0]);
      } else {
        assert code[p - 1] != '\n';
      }
    }
  }

  /** A target name with `::` counts wherever it stands between non-word characters, even inside a call. */
  lemma TargetNameUsed(cmd: string)
    requires Contains(cmd, "::")
    ensures CommandUsed("t(x " + cmd + ")", cmd)
  {
    var code := "t(x " + cmd + ")";
    Occurs("t(x ", cmd, ")");
    assert code[3] == ' ' && code[4 + |cmd|] == ')';
    assert SymbolAt(code, 3, cmd);
  }

  // ---------------------------------------------------------------------
  // A whole file against a registry entry
  // ---------------------------------------------------------------------

  /**
   * A file that includes module `m` and calls its command `cmd` is not
   * reported against the entry for `m`, whichever file it is.
   */
  lemma IncludedAndUsed(f: SourceFile, m: string, cmd: string)
    requires '#' !in m && '#' !in cmd
    requires f.content == "include(" + m + ")\n" + cmd + "(x)\n"
    ensures PairFinding(f, CMakeCode(f.content), ModuleRule(m, [cmd])) == []
  {
    var code := f.content;
    IncludeThenCallPlain(m, cmd);
    IncludeThenCallMatches(code, m, cmd);
  }

  /** That file holds no comment. */
  lemma IncludeThenCallPlain(m: string, cmd: string)
    requires '#' !in m && '#' !in cmd
    ensures '#' !in "include(" + m + ")\n" + cmd + "(x)\n"
  {
    var head := "include(" + m + ")\n";
    var code := head + cmd + "(x)\n";
    assert forall k :: 8 <= k < 8 + |m| ==> code[k] == m[k - 8];
    assert forall k :: |head| <= k < |head| + |cmd| ==> code[k] == cmd[k - |head|];
  }

  /** Both patterns match that file: it includes `m` and uses `cmd`. */
  lemma IncludeThenCallMatches(code: string, m: string, cmd: string)
    requires code == "include(" + m + ")\n" + cmd + "(x)\n"
    ensures HasInclude(code, m) && AnyCommandUsed(code, [cmd])
  {
    var head := "include(" + m + ")\n";
    assert code == head + (cmd + "(x)\n");
    IncludeHead(code, head, m);
    CallSecondLine(code, head, cmd);
  }

  /** A line after `head` that calls `cmd` uses it. */
  lemma CallSecondLine(code: string, head: string, cmd: string)
    requires head != [] && head[|head| - 1] == '\n' && code == head + cmd + "(x)\n"
    ensures AnyCommandUsed(code, [cmd])
  {
    Occurs(head, cmd, "(x)\n");
    BlankRunIs(code, |head| + |cmd|, 0);
    assert CallAt(code, |head|, cmd);
    assert CommandUsed(code, [cmd][0]);
  }

  /** The first line of that file includes `m`. */
  lemma IncludeHead(code: string, head: string, m: string)
    requires head == "include(" + m + ")\n" && |head| <= |code| && code[..|head|] == head
    ensures HasInclude(code, m)
  {
    Occurs("include(", m, ")\n");
    assert head[..7] == "include";
    assert code[..7] == "include" && code[7] == '(' && code[8..8 + |m|] == m && code[8 + |m|] == ')';
    BlankRunIs(code, 0, 0);
    BlankRunIs(code, 7, 0);
    BlankRunIs(code, 8 + |m|, 0);
    assert IncludeAt(code, 0, m);
  }

  /** CheckSymbolExists and its command are one of the registry's entries. */
  lemma CheckSymbolExistsRegistered()
    ensures ProjectModules()[20] == ModuleRule("CheckSymbolExists", ["check_symbol_exists"])
  {
  }
}
