/** Substring tests on strings, as Python's `str.startswith` and `in` use them. */
module Text {

  /** `t` occurs in `s` starting at index `i`. */
  predicate OccursAt(s: string, t: string, i: int)
  {
    0 <= i && i + |t| <= |s| && s[i..i + |t|] == t
  }

  predicate StartsWith(s: string, prefix: string)
  {
    OccursAt(s, prefix, 0)
  }

  /** Python's `t in s` restricted to start positions at or after `i`. */
  function ContainsFrom(s: string, t: string, i: nat): (b: bool)
    ensures b <==> exists j :: i <= j && OccursAt(s, t, j)
    decreases |s| - i
  {
    if i + |t| > |s| then false
    else OccursAt(s, t, i) || ContainsFrom(s, t, i + 1)
  }

  /** Python's `t in s` for strings. */
  function Contains(s: string, t: string): (b: bool)
    ensures b <==> exists j :: OccursAt(s, t, j)
  {
    ContainsFrom(s, t, 0)
  }
}
