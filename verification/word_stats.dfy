/**
 * The `word_stats` part of the dashboard query (lang-portal/backend/main.py):
 * distinct reviewed words, words whose per-word success rate reaches 0.8, and
 * the global share of correct answers. All three read only the review table.
 */
module WordStats {
  import opened LangStore
  import opened Collections

  /** Number of reviews of word `w`. */
  function ReviewCount(reviews: seq<Review>, w: int): nat {
    if |reviews| == 0 then 0
    else (if reviews[0].wordId == w then 1 else 0) + ReviewCount(reviews[1..], w)
  }

  /** Number of correct reviews of word `w`; never more than its reviews. */
  function CorrectCount(reviews: seq<Review>, w: int): (c: nat)
    ensures c <= ReviewCount(reviews, w)
  {
    if |reviews| == 0 then 0
    else (if reviews[0].wordId == w && reviews[0].isCorrect then 1 else 0) + CorrectCount(reviews[1..], w)
  }

  /** Number of correct reviews over all words; never more than the reviews. */
  function CorrectReviews(reviews: seq<Review>): (c: nat)
    ensures c <= |reviews|
  {
    if |reviews| == 0 then 0
    else (if reviews[0].isCorrect then 1 else 0) + CorrectReviews(reviews[1..])
  }

  /** COUNT(DISTINCT word_id) over the review table: the words with at least one review. */
  function StudiedWords(reviews: seq<Review>): (r: set<int>)
    ensures forall w :: w in r <==> ReviewCount(reviews, w) > 0
  {
    var ids := set x | x in reviews :: x.wordId;
    assert forall w :: w in ids <==> ReviewCount(reviews, w) > 0 by {
      forall w ensures w in ids <==> ReviewCount(reviews, w) > 0 {
        ReviewedIffCounted(reviews, w);
      }
    }
    ids
  }

  /**
   * The word groups of `GROUP BY word_id HAVING AVG(is_correct) >= 0.8`:
   * a word with at least one review whose correct share is at least four fifths.
   */
  function MasteredWords(reviews: seq<Review>): (r: set<int>)
    ensures forall w :: w in r <==>
              ReviewCount(reviews, w) > 0 && 5 * CorrectCount(reviews, w) >= 4 * ReviewCount(reviews, w)
    ensures r <= StudiedWords(reviews)
  {
    set w | w in StudiedWords(reviews) && 5 * CorrectCount(reviews, w) >= 4 * ReviewCount(reviews, w)
  }

  /** A word has a review row exactly when its review count is positive. */
  lemma {:induction false} ReviewedIffCounted(reviews: seq<Review>, w: int)
    ensures (exists x :: x in reviews && x.wordId == w) <==> ReviewCount(reviews, w) > 0
  {
    if |reviews| > 0 {
      ReviewedIffCounted(reviews[1..], w);
      if exists x :: x in reviews && x.wordId == w {
        var x :| x in reviews && x.wordId == w;
        if x != reviews[0] {
          assert x in reviews[1..];
        }
      }
      if exists x :: x in reviews[1..] && x.wordId == w {
        var x :| x in reviews[1..] && x.wordId == w;
        assert x in reviews;
      }
    }
  }

  /** AVG(CASE WHEN is_correct THEN 1 ELSE 0 END), defaulting to 0 on an empty table. */
  function SuccessRate(reviews: seq<Review>): (r: real)
    ensures 0.0 <= r <= 1.0
    ensures |reviews| == 0 ==> r == 0.0
    ensures |reviews| > 0 ==> r * (|reviews| as real) == CorrectReviews(reviews) as real
  {
    if |reviews| == 0 then 0.0
    else
      var c := CorrectReviews(reviews) as real;
      var n := |reviews| as real;
      assert c <= n;
      c / n
  }

  /** The integer test used for mastery is the query's `>= 0.8` on the exact ratio. */
  lemma MasteryThreshold(correct: nat, total: nat)
    requires total > 0
    ensures (correct as real) / (total as real) >= 0.8 <==> 5 * correct >= 4 * total
  {
    var c, t := correct as real, total as real;
    var q := c / t;
    assert q * t == c;
    if q >= 0.8 {
      assert q * t >= 0.8 * t;
    } else {
      assert q * t < 0.8 * t;
    }
    assert q >= 0.8 <==> c >= 0.8 * t;
    assert c >= 0.8 * t <==> 5.0 * c >= 4.0 * t;
  }

  /** A word answered only wrongly is studied but never mastered. */
  lemma OnlyWrongNeverMastered(reviews: seq<Review>, w: int)
    requires ReviewCount(reviews, w) > 0
    requires CorrectCount(reviews, w) == 0
    ensures w in StudiedWords(reviews)
    ensures w !in MasteredWords(reviews)
  {
  }

  /** Mastered words are among the studied ones, so there are no more of them. */
  lemma MasteredAtMostStudied(reviews: seq<Review>)
    ensures MasteredWords(reviews) <= StudiedWords(reviews)
    ensures |MasteredWords(reviews)| <= |StudiedWords(reviews)|
  {
    SubsetCardinality(MasteredWords(reviews), StudiedWords(reviews));
  }

  /** When every review names an existing word, no more words are studied than exist. */
  lemma StudiedAtMostVocabulary(st: Store)
    requires ReviewedWordsExist(st)
    ensures |StudiedWords(st.reviews)| <= |st.words|
  {
    SubsetCardinality(StudiedWords(st.reviews), WordIds(st.words));
    WordIdsCardinality(st.words);
  }

  /** Distinct word ids are no more than the word rows. */
  lemma {:induction false} WordIdsCardinality(words: seq<Word>)
    ensures |WordIds(words)| <= |words|
  {
    if |words| > 0 {
      WordIdsCardinality(words[1..]);
      assert WordIds(words) == {words[0].id} + WordIds(words[1..]);
    }
  }
}
