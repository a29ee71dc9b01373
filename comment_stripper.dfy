/**
 * Comment stripping (getCMakeCode): first every bracket comment
 * `#[=*[ ... ]=*]` is removed, the body matched lazily and across newlines,
 * then every line comment `[ \t]*#` up to (not including) the end of its
 * line. Each replacement is one left-to-right pass over the text: where a
 * match starts it is dropped and the scan resumes after it, otherwise one
 * character is kept. Neither pattern looks behind, so the pass is a
 * recursion over the scan position.
 */
module CommentStripper {
  import opened CMakeText

  /** The opener `#[` `=`* `[` at `p`: the index just past it. */
  function BracketOpenEnd(s: string, p: nat): (r: Option<nat>)
    ensures r.Some? ==> p + 3 <= r.value <= |s| && s[p] == '#'
  {
    if p + 1 < |s| && s[p] == '#' && s[p + 1] == '[' then
      var q := p + 2 + CharRun(s, p + 2, '=');
      if q < |s| && s[q] == '[' then Some(q + 1) else None
    else
      None
  }

  /** The closer `]` `=`* `]` at `j`; the number of `=` need not match the opener's. */
  predicate CloseAt(s: string, j: nat) {
    j < |s| && s[j] == ']' &&
    var q := j + 1 + CharRun(s, j + 1, '=');
    q < |s| && s[q] == ']'
  }

  /** The index just past the closer at `j`. */
  function CloseEnd(s: string, j: nat): (e: nat)
    requires CloseAt(s, j)
    ensures j + 2 <= e <= |s|
  {
    j + 2 + CharRun(s, j + 1, '=')
  }

  /** The lazy `.*?` of the bracket pattern: the first closer at or after `i`. */
  function FirstClose(s: string, i: nat): (r: Option<nat>)
    requires i <= |s|
    ensures r.Some? ==> i <= r.value && CloseAt(s, r.value)
    decreases |s| - i
  {
    if i == |s| then None
    else if CloseAt(s, i) then Some(i)
    else FirstClose(s, i + 1)
  }

  /** The closer found is the first one; when none is found, none follows. */
  lemma {:induction false} FirstCloseIsFirst(s: string, i: nat)
    requires i <= |s|
    ensures FirstClose(s, i).Some? ==> forall j :: i <= j < FirstClose(s, i).value ==> !CloseAt(s, j)
    ensures FirstClose(s, i).None? ==> forall j :: i <= j < |s| ==> !CloseAt(s, j)
    decreases |s| - i
  {
    if i < |s| && !CloseAt(s, i) {
      FirstCloseIsFirst(s, i + 1);
    }
  }

  /** A bracket comment that starts at `p`: the index just past its closer. */
  function BracketCommentEnd(s: string, p: nat): (r: Option<nat>)
    ensures r.Some? ==> p < r.value <= |s|
  {
    match BracketOpenEnd(s, p)
    case None => None
    case Some(q) =>
      match FirstClose(s, q)
      case None => None
      case Some(j) => Some(CloseEnd(s, j))
  }

  /** The output of the bracket-comment pass over `s[p..]`. */
  function StripBracketComments(s: string, p: nat): (r: string)
    requires p <= |s|
    ensures |r| <= |s| - p
    decreases |s| - p
  {
    if p == |s| then []
    else
      match BracketCommentEnd(s, p)
      case Some(e) => StripBracketComments(s, e)
      case None =>
        [s[p]] + StripBracketComments(s, p + 1)
  }

  /** The first newline at or after `i`, or the end of the text: where `.*$` stops. */
  function LineEnd(s: string, i: nat): (e: nat)
    requires i <= |s|
    ensures i <= e <= |s|
    ensures e == |s| || s[e] == '\n'
    ensures forall k :: i <= k < e ==> s[k] != '\n'
    decreases |s| - i
  {
    if i == |s| || s[i] == '\n' then i else LineEnd(s, i + 1)
  }

  /** A line comment `[ \t]*#.*$` that starts at `p`: where the removed text stops. */
  function LineCommentEnd(s: string, p: nat): (r: Option<nat>)
    requires p <= |s|
    ensures r.Some? ==> p < r.value <= |s|
  {
    var b := p + BlankRun(s, p);
    if b < |s| && s[b] == '#' then Some(LineEnd(s, b)) else None
  }

  /** The output of the line-comment pass over `s[p..]`. */
  function StripLineComments(s: string, p: nat): (r: string)
    requires p <= |s|
    ensures '#' !in r
    ensures '#' !in s[p..] ==> r == s[p..]
    decreases |s| - p
  {
    if p == |s| then []
    else
      match LineCommentEnd(s, p)
      case Some(e) => StripLineComments(s, e)
      case None =>
        assert s[p..] == [s[p]] + s[p + 1..];
        [s[p]] + StripLineComments(s, p + 1)
  }

  /** getCMakeCode: the file text with both kinds of comment removed. */
  function CMakeCode(content: string): (code: string)
    ensures '#' !in code
    ensures '#' !in content ==> code == content
  {
    var uncommented := StripBracketComments(content, 0);
    assert '#' !in content ==> uncommented == content by {
      if '#' !in content {
        KeptBeforeHash(content, 0, |content|);
        assert content[0..|content|] == content;
      }
    }
    StripLineComments(uncommented, 0)
  }

  /** Stripping is idempotent. */
  lemma CMakeCodeIdempotent(content: string)
    ensures CMakeCode(CMakeCode(content)) == CMakeCode(content)
  {
  }

  lemma KeptCharacterOutsideComment(s: string, p: nat)
    requires p < |s| && s[p] != '#'
    ensures StripBracketComments(s, p) == [s[p]] + StripBracketComments(s, p + 1)
  {
    assert BracketCommentEnd(s, p) == None;
  }

  /** Text without `#` passes the bracket-comment pass unchanged. */
  lemma {:induction false} KeptBeforeHash(s: string, p: nat, k: nat)
    requires p <= k <= |s|
    requires forall i :: p <= i < k ==> s[i] != '#'
    ensures StripBracketComments(s, p) == s[p..k] + StripBracketComments(s, k)
    decreases k - p
  {
    if p < k {
      KeptCharacterOutsideComment(s, p);
      KeptBeforeHash(s, p + 1, k);
      PrependSlice(s, p, k, StripBracketComments(s, k));
    } else {
      assert s[p..k] == [];
    }
  }

  lemma PrependSlice(s: string, p: nat, k: nat, rest: string)
    requires p < k <= |s|
    ensures s[p..k] + rest == [s[p]] + (s[p + 1..k] + rest)
  {
    assert s[p..k] == [s[p]] + s[p + 1..k];
  }

  /** Where a bracket comment starts, the pass resumes after its closer. */
  lemma SkipComment(s: string, p: nat, e: nat)
    requires p < |s| && BracketCommentEnd(s, p) == Some(e)
    ensures StripBracketComments(s, p) == StripBracketComments(s, e)
  {
  }

  /** `n` equals signs: the level of a bracket. */
  function Equals(n: nat): (r: string)
    ensures |r| == n && forall i :: 0 <= i < n ==> r[i] == '='
  {
    if n == 0 then [] else "=" + Equals(n - 1)
  }

  /** The opener `#[`, `k` equals signs, `[`. */
  function Opener(k: nat): (r: string)
    ensures |r| == k + 3 && r[0] == '#' && r[1] == '[' && r[k + 2] == '['
    ensures forall i :: 2 <= i < k + 2 ==> r[i] == '='
  {
    "#[" + Equals(k) + "["
  }

  /** The closer `]`, `m` equals signs, `]`. */
  function Closer(m: nat): (r: string)
    ensures |r| == m + 2 && r[0] == ']' && r[m + 1] == ']'
    ensures forall i :: 1 <= i < m + 1 ==> r[i] == '='
  {
    "]" + Equals(m) + "]"
  }

  /** A run of `c` that ends before the end of `t` has the same length in any text holding `t`. */
  lemma {:induction false} CharRunShift(s: string, off: nat, t: string, a: nat, c: char)
    requires off + |t| <= |s| && s[off..off + |t|] == t
    requires a < |t| && t[|t| - 1] != c
    ensures CharRun(s, off + a, c) == CharRun(t, a, c)
    decreases |t| - a
  {
    assert s[off + a] == t[a];
    if t[a] == c {
      CharRunShift(s, off, t, a + 1, c);
    }
  }

  /** A closer that starts before the final `]` of `t` is seen the same in any text holding `t`. */
  lemma CloseAtShift(s: string, off: nat, t: string, j: nat)
    requires off + |t| <= |s| && s[off..off + |t|] == t
    requires j + 1 < |t| && t[|t| - 1] == ']'
    ensures CloseAt(s, off + j) <==> CloseAt(t, j)
  {
    assert s[off + j] == t[j];
    CharRunShift(s, off, t, j + 1, '=');
    var q := j + 1 + CharRun(t, j + 1, '=');
    assert q < |t|;
    assert s[off + q] == t[q];
  }

  /** An opener of level `k` at `o`. */
  lemma OpenerAt(s: string, o: nat, k: nat)
    requires o + k + 3 <= |s| && s[o..o + k + 3] == Opener(k)
    ensures BracketOpenEnd(s, o) == Some(o + k + 3)
  {
    assert forall i :: o <= i < o + k + 3 ==> s[i] == Opener(k)[i - o];
    assert CharRun(s, o + 2, '=') == k;
  }

  /** A closer of level `m` at `j`. */
  lemma CloserAt(s: string, j: nat, m: nat)
    requires j + m + 2 <= |s| && s[j..j + m + 2] == Closer(m)
    ensures CloseAt(s, j) && CloseEnd(s, j) == j + m + 2
  {
    assert forall i :: j <= i < j + m + 2 ==> s[i] == Closer(m)[i - j];
    assert CharRun(s, j + 1, '=') == m;
  }

  /** The lazy body ends at the first closer. */
  lemma FirstCloseAt(s: string, q: nat, j: nat)
    requires q <= j < |s| && CloseAt(s, j)
    requires forall i :: q <= i < j ==> !CloseAt(s, i)
    ensures FirstClose(s, q) == Some(j)
  {
    FirstCloseIsFirst(s, q);
  }

  /**
   * A bracket comment of any level goes as a whole, newlines and all, and
   * the text around it is joined. The levels of opener and closer need not
   * agree; the body is matched lazily, so it holds no closer, nor does it end
   * in `]` and equals signs that the final `]` would complete.
   */
  lemma BracketCommentRemoved(before: string, k: nat, body: string, m: nat, after: string)
    requires '#' !in before && '#' !in after
    requires forall j :: 0 <= j < |body| ==> !CloseAt(body + "]", j)
    ensures CMakeCode(before + Opener(k) + body + Closer(m) + after) == before + after
  {
    BracketPassRemoves(before, k, body, m, after);
    assert '#' !in before + after;
  }

  /** The bracket-comment pass alone removes the comment and keeps the text around it. */
  lemma BracketPassRemoves(before: string, k: nat, body: string, m: nat, after: string)
    requires '#' !in before && '#' !in after
    requires forall j :: 0 <= j < |body| ==> !CloseAt(body + "]", j)
    ensures StripBracketComments(before + Opener(k) + body + Closer(m) + after, 0) == before + after
  {
    var opener, closer := Opener(k), Closer(m);
    var front := before + opener + body;
    var s := front + closer + after;
    var o := |before|;
    var q := o + k + 3;
    var j := q + |body|;
    var e := j + m + 2;
    Pieces(front, closer, after);
    Pieces(before, opener, body);
    assert s[..j] == front && s[j..e] == closer && s[e..] == after;
    assert front[..o] == before && front[o..q] == opener && front[q..] == body;
    assert s[..o] == before by {
      PrefixWithin(s, j, o);
    }
    assert s[o..q] == opener by {
      SliceWithin(s, j, o, q);
    }
    assert s[q..j + 1] == body + "]" by {
      SuffixWithin(s, j, q);
      SliceExtend(s, q, j);
      assert s[j] == closer[0];
    }
    BracketPassLaidOut(s, before, k, body, m, after);
  }

  /** An opener of level `k` at `o`, then `body`, then a closer of level `m`. */
  predicate CommentLaidOut(s: string, o: nat, k: nat, body: string, m: nat) {
    o + k + |body| + m + 5 <= |s| &&
    s[o..o + k + 3] == Opener(k) &&
    s[o + k + 3..o + k + |body| + 4] == body + "]" &&
    s[o + k + |body| + 3..o + k + |body| + m + 5] == Closer(m)
  }

  /** No closer starts in `body`, nor one that a following `]` would complete. */
  predicate NoCloserIn(body: string) {
    forall i :: 0 <= i < |body| ==> !CloseAt(body + "]", i)
  }

  /** The same, for a text already known to be laid out as those five pieces. */
  lemma BracketPassLaidOut(s: string, before: string, k: nat, body: string, m: nat, after: string)
    requires '#' !in before && '#' !in after && NoCloserIn(body)
    requires CommentLaidOut(s, |before|, k, body, m)
    requires s[..|before|] == before && s[|before| + k + |body| + m + 5..] == after
    ensures StripBracketComments(s, 0) == before + after
  {
    LaidOutComment(s, |before|, k, body, m);
    BracketPassAt(s, |before|, |before| + k + |body| + m + 5);
  }

  /** Opener, body and closer laid out from `o`: a bracket comment up to the closer's end. */
  lemma LaidOutComment(s: string, o: nat, k: nat, body: string, m: nat)
    requires NoCloserIn(body) && CommentLaidOut(s, o, k, body, m)
    ensures BracketCommentEnd(s, o) == Some(o + k + |body| + m + 5)
  {
    NoCloserInBody(s, o + k + 3, body);
    CommentSpan(s, o, k, o + k + 3 + |body|, m);
  }

  /** An opener at `o` and a closer at `j`, with no closer between: a bracket comment up to that closer's end. */
  lemma CommentSpan(s: string, o: nat, k: nat, j: nat, m: nat)
    requires o + k + 3 <= j && j + m + 2 <= |s|
    requires s[o..o + k + 3] == Opener(k) && s[j..j + m + 2] == Closer(m)
    requires forall i :: o + k + 3 <= i < j ==> !CloseAt(s, i)
    ensures BracketCommentEnd(s, o) == Some(j + m + 2)
  {
    OpenerAt(s, o, k);
    CloserAt(s, j, m);
    SpanFromParts(s, o, o + k + 3, j);
  }

  /** The three parts of the bracket pattern found: the comment they make up. */
  lemma SpanFromParts(s: string, o: nat, q: nat, j: nat)
    requires BracketOpenEnd(s, o) == Some(q) && q <= j < |s| && CloseAt(s, j)
    requires forall i :: q <= i < j ==> !CloseAt(s, i)
    ensures BracketCommentEnd(s, o) == Some(CloseEnd(s, j))
  {
    FirstCloseAt(s, q, j);
  }

  /** A body that holds no closer holds none inside a longer text either. */
  lemma NoCloserInBody(s: string, q: nat, body: string)
    requires q + |body| + 1 <= |s| && s[q..q + |body| + 1] == body + "]"
    requires forall i :: 0 <= i < |body| ==> !CloseAt(body + "]", i)
    ensures forall i :: q <= i < q + |body| ==> !CloseAt(s, i)
  {
    forall i | q <= i < q + |body|
      ensures !CloseAt(s, i)
    {
      assert !CloseAt(body + "]", i - q);
      CloseAtShift(s, q, body + "]", i - q);
    }
  }

  /** The three pieces of a concatenation, as slices of it. */
  lemma Pieces(a: string, b: string, c: string)
    ensures (a + b + c)[..|a|] == a
    ensures (a + b + c)[|a|..|a| + |b|] == b
    ensures (a + b + c)[|a| + |b|..] == c
  {
    var s := a + b + c;
    assert s[..|a| + |b|] == a + b;
  }

  /** A slice taken inside a prefix. */
  lemma SliceWithin(s: string, n: nat, a: nat, b: nat)
    requires a <= b <= n <= |s|
    ensures s[a..b] == s[..n][a..b]
  {
  }

  /** A suffix of a prefix. */
  lemma SuffixWithin(s: string, n: nat, a: nat)
    requires a <= n <= |s|
    ensures s[a..n] == s[..n][a..]
  {
  }

  /** A prefix taken inside a longer prefix. */
  lemma PrefixWithin(s: string, n: nat, b: nat)
    requires b <= n <= |s|
    ensures s[..b] == s[..n][..b]
  {
  }

  /** A slice grown by the character after it. */
  lemma SliceExtend(s: string, a: nat, b: nat)
    requires a <= b < |s|
    ensures s[a..b + 1] == s[a..b] + [s[b]]
  {
  }

  /** A bracket comment from `o` to `e`, with no `#` outside it: the pass keeps exactly the outside. */
  lemma BracketPassAt(s: string, o: nat, e: nat)
    requires o < e <= |s| && BracketCommentEnd(s, o) == Some(e)
    requires '#' !in s[..o] && '#' !in s[e..]
    ensures StripBracketComments(s, 0) == s[..o] + s[e..]
  {
    CommentThenPlain(s, o, e);
    assert forall i :: 0 <= i < o ==> s[i] == s[..o][i];
    KeptBeforeHash(s, 0, o);
    assert s[0..o] == s[..o];
  }

  /** From a bracket comment on, with no `#` after it, the pass keeps exactly what follows the comment. */
  lemma CommentThenPlain(s: string, o: nat, e: nat)
    requires o < e <= |s| && BracketCommentEnd(s, o) == Some(e)
    requires '#' !in s[e..]
    ensures StripBracketComments(s, o) == s[e..]
  {
    SkipComment(s, o, e);
    PlainTail(s, e);
  }

  /** A tail without `#` passes unchanged. */
  lemma PlainTail(s: string, e: nat)
    requires e <= |s| && '#' !in s[e..]
    ensures StripBracketComments(s, e) == s[e..]
  {
    assert forall i :: e <= i < |s| ==> s[i] == s[e..][i - e];
    KeptBeforeHash(s, e, |s|);
    assert StripBracketComments(s, |s|) == [];
    assert s[e..|s|] == s[e..];
  }

  /** `line` with trailing `[ \t]` removed. */
  function TrimTrailingBlanks(line: string): (r: string)
    ensures |r| <= |line| && r == line[..|r|]
    ensures forall k :: |r| <= k < |line| ==> IsBlank(line[k])
    ensures r == [] || !IsBlank(r[|r| - 1])
  {
    if line == [] || !IsBlank(line[|line| - 1]) then line
    else TrimTrailingBlanks(line[..|line| - 1])
  }

  /** The position of the first `c` in `t`. */
  function IndexOf(t: string, c: char): (i: nat)
    requires c in t
    ensures i < |t| && t[i] == c
    ensures forall k :: 0 <= k < i ==> t[k] != c
  {
    if t[0] == c then 0 else 1 + IndexOf(t[1..], c)
  }

  /**
   * What one line (no newline inside) keeps of itself: everything before its
   * first `#`, without the blanks that precede that `#`.
   */
  function CutLineComment(line: string): string {
    if '#' in line then TrimTrailingBlanks(line[..IndexOf(line, '#')]) else line
  }

  lemma {:induction false} TrimTrailingBlanksCons(c: char, t: string)
    requires !IsBlank(c) || exists k :: 0 <= k < |t| && !IsBlank(t[k])
    ensures TrimTrailingBlanks([c] + t) == [c] + TrimTrailingBlanks(t)
    decreases |t|
  {
    if t != [] && IsBlank(t[|t| - 1]) {
      assert ([c] + t)[..|t|] == [c] + t[..|t| - 1];
      if !IsBlank(c) {
        TrimTrailingBlanksCons(c, t[..|t| - 1]);
      } else {
        var k :| 0 <= k < |t| && !IsBlank(t[k]);
        assert k < |t| - 1;
        assert !IsBlank(t[..|t| - 1][k]);
        TrimTrailingBlanksCons(c, t[..|t| - 1]);
      }
    }
  }

  lemma {:induction false} TrimAllBlanks(t: string)
    requires forall k :: 0 <= k < |t| ==> IsBlank(t[k])
    ensures TrimTrailingBlanks(t) == []
  {
    if t != [] {
      TrimAllBlanks(t[..|t| - 1]);
    }
  }

  /**
   * The line-comment pass works line by line: the line `s[p..q]` becomes the
   * line cut at its comment, and the newline that ends it is kept.
   */
  lemma {:induction false} LineCommentsCutPerLine(s: string, p: nat, q: nat)
    requires p <= q <= |s|
    requires q == |s| || s[q] == '\n'
    requires forall k :: p <= k < q ==> s[k] != '\n'
    ensures StripLineComments(s, p) == CutLineComment(s[p..q]) + StripLineComments(s, q)
    ensures q < |s| ==> StripLineComments(s, q) == ['\n'] + StripLineComments(s, q + 1)
    decreases q - p
  {
    if p == q {
      assert s[p..q] == [];
    } else if LineCommentEnd(s, p).Some? {
      CommentToLineEnd(s, p, q);
    } else {
      LineCommentsCutPerLine(s, p + 1, q);
      KeptCharacter(s, p, q);
      KeptByLinePass(s, p);
      var rest := StripLineComments(s, q);
      assert [s[p]] + (CutLineComment(s[p + 1..q]) + rest) == ([s[p]] + CutLineComment(s[p + 1..q])) + rest;
    }
    if q < |s| {
      NewlineKept(s, q);
    }
  }

  lemma KeptByLinePass(s: string, p: nat)
    requires p < |s| && LineCommentEnd(s, p).None?
    ensures StripLineComments(s, p) == [s[p]] + StripLineComments(s, p + 1)
  {
  }

  lemma NewlineKept(s: string, q: nat)
    requires q < |s| && s[q] == '\n'
    ensures StripLineComments(s, q) == ['\n'] + StripLineComments(s, q + 1)
  {
    assert BlankRun(s, q) == 0;
    assert LineCommentEnd(s, q) == None;
  }

  /** A comment that starts at `p` takes the rest of the line, and the line keeps nothing. */
  lemma CommentToLineEnd(s: string, p: nat, q: nat)
    requires p < q <= |s|
    requires q == |s| || s[q] == '\n'
    requires forall k :: p <= k < q ==> s[k] != '\n'
    requires LineCommentEnd(s, p).Some?
    ensures StripLineComments(s, p) == StripLineComments(s, q)
    ensures CutLineComment(s[p..q]) == []
  {
    var line := s[p..q];
    var b := p + BlankRun(s, p);
    LineEndIs(s, b, q);
    assert b < q;
    assert line[b - p] == '#';
    var h := b - p;
    forall k | 0 <= k < h
      ensures IsBlank(line[..h][k])
    {
      assert line[..h][k] == s[p + k];
    }
    IndexOfUnique(line, '#', h);
    TrimAllBlanks(line[..h]);
  }

  /** Where no comment starts at `p`, the character at `p` is kept, and so it is by the cut line. */
  lemma KeptCharacter(s: string, p: nat, q: nat)
    requires p < q <= |s|
    requires LineCommentEnd(s, p).None?
    ensures CutLineComment(s[p..q]) == [s[p]] + CutLineComment(s[p + 1..q])
  {
    var rest := s[p + 1..q];
    assert s[p..q] == [s[p]] + rest;
    // A `#` at `p` would itself start a line comment.
    assert !IsBlank(s[p]) ==> BlankRun(s, p) == 0;
    if '#' in rest && IsBlank(s[p]) {
      var h := IndexOf(rest, '#');
      assert s[p + 1 + h] == '#';
      var k := FirstNonBlank(s, p, h + 1);
      assert k > p && rest[k - p - 1] == s[k];
    }
    CutLineCons(s[p], rest);
  }

  /** A character that is not `#` stays in front of the cut line, unless it is a blank that only blanks follow up to the `#`. */
  lemma CutLineCons(c: char, rest: string)
    requires c != '#'
    requires '#' in rest && IsBlank(c) ==> exists k :: 0 <= k < IndexOf(rest, '#') && !IsBlank(rest[k])
    ensures CutLineComment([c] + rest) == [c] + CutLineComment(rest)
  {
    var line := [c] + rest;
    if '#' in rest {
      var h := IndexOf(rest, '#');
      assert line[h + 1] == '#';
      IndexOfUnique(line, '#', h + 1);
      assert line[..h + 1] == [c] + rest[..h];
      if IsBlank(c) {
        var k :| 0 <= k < h && !IsBlank(rest[k]);
        assert rest[..h][k] == rest[k];
      }
      TrimTrailingBlanksCons(c, rest[..h]);
    } else {
      assert '#' !in line;
    }
  }

  /** Before a `#` at `p + h` that no line comment reaches from `p`, some character is not blank. */
  lemma FirstNonBlank(s: string, p: nat, h: nat) returns (k: nat)
    requires 0 < h && p + h < |s| && s[p + h] == '#'
    requires LineCommentEnd(s, p).None?
    ensures p <= k < p + h && !IsBlank(s[k])
  {
    // The blank run from `p` stops before the `#`, and not at it.
    k := p + BlankRun(s, p);
  }

  lemma {:induction false} LineEndIs(s: string, i: nat, q: nat)
    requires i <= q <= |s|
    requires q == |s| || s[q] == '\n'
    requires forall k :: i <= k < q ==> s[k] != '\n'
    ensures LineEnd(s, i) == q
    decreases q - i
  {
    if i < q {
      LineEndIs(s, i + 1, q);
    }
  }

  lemma {:induction false} IndexOfUnique(t: string, c: char, i: nat)
    requires i < |t| && t[i] == c
    requires forall k :: 0 <= k < i ==> t[k] != c
    ensures IndexOf(t, c) == i
  {
    var j := IndexOf(t, c);
    assert !(j < i);
  }
}
