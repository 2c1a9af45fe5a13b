/** The part of Python's `str` behaviour the handlers rely on: `str.replace`. */
module PyStr {

  /** `pat` occurs in `s` starting at index `i`. */
  predicate OccursAt(s: string, pat: string, i: int)
  {
    0 <= i && i + |pat| <= |s| && s[i..i + |pat|] == pat
  }

  /** Python's `pat in s`, for a non-empty `pat`. */
  predicate Contains(s: string, pat: string)
  {
    exists i :: 0 <= i <= |s| && OccursAt(s, pat, i)
  }

  /** An occurrence in a suffix of `s` is an occurrence in `s`. */
  lemma ContainsFromTail(s: string, pat: string, k: nat)
    requires k <= |s|
    ensures Contains(s[k..], pat) ==> Contains(s, pat)
  {
    forall i | 0 <= i <= |s[k..]|
      ensures OccursAt(s[k..], pat, i) ==> OccursAt(s, pat, k + i)
    {
      if i + |pat| <= |s[k..]| {
        assert s[k..][i..i + |pat|] == s[k + i..k + i + |pat|];
      }
    }
  }

  /** Python's `s.replace(pat, rep)` for a non-empty `pat`: every occurrence,
      found by scanning left to right without overlap, is replaced by `rep`.
      A pattern that does not occur leaves the string unchanged. */
  function Replace(s: string, pat: string, rep: string): (r: string)
    requires |pat| > 0
    ensures !Contains(s, pat) ==> r == s
    decreases |s|
  {
    if |s| < |pat| then s
    else if s[..|pat|] == pat then
      assert s[0..0 + |pat|] == s[..|pat|];
      assert OccursAt(s, pat, 0);
      rep + Replace(s[|pat|..], pat, rep)
    else
      ContainsFromTail(s, pat, 1);
      assert s == [s[0]] + s[1..];
      [s[0]] + Replace(s[1..], pat, rep)
  }

  /** A string that is exactly the pattern becomes exactly the replacement. */
  lemma ReplaceWhole(pat: string, rep: string)
    requires |pat| > 0
    ensures Replace(pat, pat, rep) == rep
  {
  }
}
