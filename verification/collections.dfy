/** Facts about sets and sequences that the counting arguments of the model rely on. */
module Collections {

  /** The distinct elements of a sequence (what SQL's DISTINCT keeps). */
  function Elements<T>(xs: seq<T>): set<T> {
    set x | x in xs
  }

  /** A subset is never larger than its superset. */
  lemma {:induction false} SubsetCardinality<T>(a: set<T>, b: set<T>)
    requires a <= b
    ensures |a| <= |b|
    decreases |a|
  {
    if a != {} {
      var x :| x in a;
      SubsetCardinality(a - {x}, b - {x});
    }
  }

  /** A sequence has at least as many entries as distinct elements. */
  lemma {:induction false} ElementsCardinality<T>(xs: seq<T>)
    ensures |Elements(xs)| <= |xs|
  {
    if |xs| > 0 {
      ElementsCardinality(xs[1..]);
      assert Elements(xs) == {xs[0]} + Elements(xs[1..]);
    }
  }
}
