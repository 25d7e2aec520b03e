/**
 * The parts of Go's `strings` package that the file utility calls:
 * `ToLower`, `ReplaceAll` (always with a one-character pattern) and
 * `TrimSuffix`. Strings are sequences of characters; every character the
 * utility matches on is ASCII, so working per character agrees with Go's
 * per-byte UTF-8 processing for these patterns.
 */
module GoStrings {

  /** ASCII lowercasing of one character. */
  function LowerChar(c: char): char
  {
    if 'A' <= c <= 'Z' then (c as int + 32) as char else c
  }

  /** A string is lowercase when it holds no ASCII capital letter. */
  predicate IsLower(s: string)
  {
    forall i :: 0 <= i < |s| ==> !('A' <= s[i] <= 'Z')
  }

  /** `strings.ToLower`, restricted to the ASCII case mapping. */
  function ToLower(s: string): (r: string)
    ensures |r| == |s|
    ensures forall i :: 0 <= i < |s| ==> r[i] == LowerChar(s[i])
    ensures IsLower(r)
  {
    if s == [] then [] else [LowerChar(s[0])] + ToLower(s[1..])
  }

  /** Lowercasing leaves an already lowercase string alone. */
  lemma ToLowerOfLower(s: string)
    requires IsLower(s)
    ensures ToLower(s) == s
  {
    assert forall i :: 0 <= i < |s| ==> ToLower(s)[i] == s[i];
  }

  /** Lowercasing twice is lowercasing once. */
  lemma ToLowerIdempotent(s: string)
    ensures ToLower(ToLower(s)) == ToLower(s)
  {
    ToLowerOfLower(ToLower(s));
  }

  /**
   * `strings.ReplaceAll(s, string(pat), repl)`: every occurrence of the
   * character `pat` is replaced by the string `repl`, scanning left to right.
   */
  function ReplaceAll(s: string, pat: char, repl: string): (r: string)
    ensures pat !in repl ==> pat !in r
    ensures pat !in s ==> r == s
    ensures forall c :: c in r ==> c in s || c in repl
    ensures |repl| == 1 ==> |r| == |s|
    ensures |repl| == 1 ==> forall i :: 0 <= i < |s| ==> r[i] == (if s[i] == pat then repl[0] else s[i])
  {
    if s == [] then []
    else (if s[0] == pat then repl else [s[0]]) + ReplaceAll(s[1..], pat, repl)
  }

  /** Replacing a leading `pat` drops it in favour of `repl`. */
  lemma {:induction false} ReplaceAllLeading(pat: char, repl: string, t: string)
    requires pat !in t
    ensures ReplaceAll([pat] + t, pat, repl) == repl + t
  {
    assert ([pat] + t)[1..] == t;
  }

  /** `strings.HasSuffix`. */
  predicate HasSuffix(s: string, suffix: string)
  {
    |suffix| <= |s| && s[|s| - |suffix|..] == suffix
  }

  /** `strings.TrimSuffix`: drop `suffix` from the end of `s` when it is there. */
  function TrimSuffix(s: string, suffix: string): (r: string)
    ensures HasSuffix(s, suffix) ==> r + suffix == s
    ensures !HasSuffix(s, suffix) ==> r == s
  {
    if HasSuffix(s, suffix) then s[..|s| - |suffix|] else s
  }
}
