/**
 * The few operations of `java.lang.String` that the Backlog property uses:
 * `indexOf`, `contains` and `endsWith`. A Java string is a sequence of
 * UTF-16 code units; here it is a `seq<char>`, a sequence of Unicode scalar
 * values, so indices count code points and a lone surrogate has no
 * counterpart.
 */
module JavaStrings {
  import opened Wrappers

  /** `pat` occurs in `s` starting at index `i`. */
  predicate OccursAt(s: string, pat: string, i: nat)
  {
    i + |pat| <= |s| && s[i..i + |pat|] == pat
  }

  /** Moving one character to the right in `s` is moving one index up. */
  lemma OccursAtShift(s: string, pat: string)
    requires |s| > 0
    ensures forall j: nat :: 0 < j ==> (OccursAt(s, pat, j) <==> OccursAt(s[1..], pat, j - 1))
  {
  }

  /**
   * `s.indexOf(pat)`: the FIRST index at which `pat` occurs in `s`, or
   * `None` (Java's -1) when it occurs nowhere.
   */
  function IndexOf(s: string, pat: string): (r: Option<nat>)
    ensures r.Some? ==> OccursAt(s, pat, r.value)
    ensures r.Some? ==> forall j: nat :: j < r.value ==> !OccursAt(s, pat, j)
    ensures r.None? ==> forall j: nat :: !OccursAt(s, pat, j)
    decreases |s|
  {
    if |s| < |pat| then None
    else if s[..|pat|] == pat then Some(0)
    else
      OccursAtShift(s, pat);
      match IndexOf(s[1..], pat)
      case None => None
      case Some(k) => Some(k + 1)
  }

  /** An occurrence with no earlier occurrence is the one `IndexOf` finds. */
  lemma IndexOfFirst(s: string, pat: string, i: nat)
    requires OccursAt(s, pat, i)
    requires forall j: nat :: j < i ==> !OccursAt(s, pat, j)
    ensures IndexOf(s, pat) == Some(i)
  {
  }

  /** `s.contains(pat)`, which Java defines as `indexOf(pat) >= 0`. */
  function Contains(s: string, pat: string): (r: bool)
    ensures r <==> exists i: nat :: OccursAt(s, pat, i)
  {
    IndexOf(s, pat).Some?
  }

  /** A string in which no position starts `pat` does not contain it. */
  lemma NotContains(s: string, pat: string)
    requires forall j: nat :: j + |pat| <= |s| ==> !OccursAt(s, pat, j)
    ensures !Contains(s, pat)
  {
  }

  /** `s.endsWith(suffix)`. */
  predicate EndsWith(s: string, suffix: string): (r: bool)
    ensures r <==> |suffix| <= |s| && forall i :: 0 <= i < |suffix| ==> s[|s| - |suffix| + i] == suffix[i]
    ensures |suffix| == 1 ==> (r <==> |s| > 0 && s[|s| - 1] == suffix[0])
  {
    |suffix| <= |s| && s[|s| - |suffix|..] == suffix
  }
}
