/** Substring search and Python's `str.split(sep)[1]` on strings. */
module Text {
  import opened Wrappers

  /** `pat` occurs in `s` starting at index `i`. */
  predicate OccursAt(s: string, pat: string, i: int) {
    0 <= i && i + |pat| <= |s| && s[i..i + |pat|] == pat
  }

  /** The first occurrence of `pat` in `s` at or after `from`. */
  function IndexOfFrom(s: string, pat: string, from: nat): (r: Option<nat>)
    ensures r.Some? ==> from <= r.value && OccursAt(s, pat, r.value)
    ensures r.Some? ==> forall j :: from <= j < r.value ==> !OccursAt(s, pat, j)
    ensures r.None? ==> forall j :: from <= j ==> !OccursAt(s, pat, j)
    decreases |s| - from
  {
    if from + |pat| > |s| then None
    else if s[from..from + |pat|] == pat then Some(from)
    else IndexOfFrom(s, pat, from + 1)
  }

  /** The first occurrence of `pat` in `s`. */
  function IndexOf(s: string, pat: string): Option<nat> {
    IndexOfFrom(s, pat, 0)
  }

  /** Python's `pat in s`. */
  predicate Contains(s: string, pat: string) {
    IndexOf(s, pat).Some?
  }

  /** `i` is the first occurrence of `pat` in `s`. */
  predicate FirstAt(s: string, pat: string, i: int) {
    OccursAt(s, pat, i) && forall j :: 0 <= j < i ==> !OccursAt(s, pat, j)
  }

  /** An occurrence with none before it is the one `IndexOf` finds. */
  lemma IndexOfIs(s: string, pat: string, i: nat)
    requires FirstAt(s, pat, i)
    ensures IndexOf(s, pat) == Some(i)
  {
  }

  /** No occurrence can start before the first appearance of the pattern's first character. */
  lemma AbsentBefore(s: string, pat: string, i: nat)
    requires |pat| > 0 && i <= |s|
    requires pat[0] !in s[..i]
    ensures forall j :: 0 <= j < i ==> !OccursAt(s, pat, j)
  {
    forall j | 0 <= j < i ensures !OccursAt(s, pat, j) {
      assert s[..i][j] == s[j];
      if j + |pat| <= |s| {
        assert s[j..j + |pat|][0] == s[j];
      }
    }
  }

  /**
   * Python's `s.split(sep)[1]`: the text after the first `sep` up to the next
   * `sep` or the end of `s`.
   */
  function SecondPiece(s: string, sep: string): (r: string)
    requires |sep| > 0 && Contains(s, sep)
    ensures var rest := s[IndexOf(s, sep).value + |sep|..];
            |r| <= |rest| && r == rest[..|r|]
    ensures forall j :: !OccursAt(r, sep, j)
    ensures var rest := s[IndexOf(s, sep).value + |sep|..];
            forall j :: 0 <= j < |r| ==> !OccursAt(rest, sep, j)
    ensures var rest := s[IndexOf(s, sep).value + |sep|..];
            |r| == |rest| || OccursAt(rest, sep, |r|)
  {
    var rest := s[IndexOf(s, sep).value + |sep|..];
    match IndexOf(rest, sep)
    case None => rest
    case Some(j) =>
      var r := rest[..j];
      assert forall k :: OccursAt(r, sep, k) ==> OccursAt(rest, sep, k) by {
        forall k | OccursAt(r, sep, k) ensures OccursAt(rest, sep, k) {
          assert rest[k..k + |sep|] == r[k..k + |sep|];
        }
      }
      r
  }

  /** Python's `s[:n]` for `n >= 0`. */
  function Take(s: string, n: nat): (r: string)
    ensures |r| <= n && |r| <= |s| && r == s[..|r|]
    ensures |s| <= n ==> r == s
    ensures |s| > n ==> |r| == n
  {
    if |s| <= n then s else s[..n]
  }
}
