/**
 * Go's `filepath.Ext` with Unix semantics: the only path separator is `/`.
 */
module GoFilepath {

  /** No `.` occurs in the last path element of `p` (the part after the last `/`). */
  predicate NoDotInLastElement(p: string)
  {
    forall i :: 0 <= i < |p| && p[i] == '.' ==> '/' in p[i + 1..]
  }

  /**
   * `filepath.Ext`: the suffix of `p` starting at the last `.` found when
   * scanning back from the end, stopping at the first `/`; empty when no
   * such `.` exists.
   */
  function Ext(p: string): (r: string)
    ensures |r| <= |p| && p[|p| - |r|..] == r
    ensures r != [] ==> r[0] == '.' && '.' !in r[1..] && '/' !in r
    ensures r == [] <==> NoDotInLastElement(p)
  {
    if p == [] then []
    else
      var last := p[|p| - 1];
      if last == '/' then []
      else if last == '.' then [last]
      else
        var e := Ext(p[..|p| - 1]);
        if e == [] then [] else e + [last]
  }

  /**
   * The contract of `Ext` determines it: any suffix of `p` that is either
   * empty with no dot in the last element, or a dot followed by neither dot
   * nor slash, is `Ext(p)`.
   */
  lemma {:induction false} ExtUnique(p: string, r: string)
    requires |r| <= |p| && p[|p| - |r|..] == r
    requires r != [] ==> r[0] == '.' && '.' !in r[1..] && '/' !in r
    requires r == [] <==> NoDotInLastElement(p)
    ensures r == Ext(p)
  {
  }
}
