/**
 * Character classes and literal matching shared by the hand-coded patterns
 * of the CMake checker. Every pattern the checker uses is a fixed shape built
 * from line anchors, `[ \t]*`-style runs, literal tokens and one-character
 * classes, so each is written here as a predicate over the text.
 */
module CMakeText {

  datatype Option<T> = None | Some(value: T)

  /** The class `[ \t]`. */
  predicate IsBlank(c: char) {
    c == ' ' || c == '\t'
  }

  /** The class `[ \t\n\r]`. */
  predicate IsSpace(c: char) {
    c == ' ' || c == '\t' || c == '\n' || c == '\r'
  }

  /** The class `[A-Za-z0-9_]`. */
  predicate IsWordChar(c: char) {
    ('A' <= c <= 'Z') || ('a' <= c <= 'z') || ('0' <= c <= '9') || c == '_'
  }

  /** The literal `lit` occurs in `s` at position `p`. */
  predicate StartsAt(s: string, p: nat, lit: string) {
    p + |lit| <= |s| && s[p..p + |lit|] == lit
  }

  /** An unanchored literal pattern: `lit` occurs somewhere in `s`. */
  predicate Contains(s: string, lit: string) {
    exists p :: 0 <= p <= |s| && StartsAt(s, p, lit)
  }

  predicate EndsWith(s: string, suffix: string) {
    |suffix| <= |s| && s[|s| - |suffix|..] == suffix
  }

  /** The anchor `^` in multi-line mode: the start of the text or just after a newline. */
  predicate LineStartAt(s: string, p: nat) {
    p == 0 || (p <= |s| && s[p - 1] == '\n')
  }

  /** Length of the longest run of `[ \t]` at `p`: what a greedy `[ \t]*` takes. */
  function BlankRun(s: string, p: nat): (n: nat)
    requires p <= |s|
    ensures p + n <= |s|
    ensures forall i :: p <= i < p + n ==> IsBlank(s[i])
    ensures p + n == |s| || !IsBlank(s[p + n])
    decreases |s| - p
  {
    if p < |s| && IsBlank(s[p]) then 1 + BlankRun(s, p + 1) else 0
  }

  /** Length of the longest run of the character `c` at `p`: what a greedy `c*` takes. */
  function CharRun(s: string, p: nat, c: char): (n: nat)
    requires p <= |s|
    ensures p + n <= |s|
    ensures forall i :: p <= i < p + n ==> s[i] == c
    ensures p + n == |s| || s[p + n] != c
    decreases |s| - p
  {
    if p < |s| && s[p] == c then 1 + CharRun(s, p + 1, c) else 0
  }
}
