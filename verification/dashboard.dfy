/**
 * The `GET /api/dashboard/stats` aggregation of lang-portal/backend/main.py as a
 * pure function of a store snapshot and the current date. The success rate is
 * an exact ratio rather than a float.
 */
module Dashboard {
  import opened Wrappers
  import opened LangStore
  import opened WordStats
  import opened SessionStats
  import opened Streak

  /** The seven fields of the `DashboardStats` response. */
  datatype Stats = Stats(
    totalVocabulary: nat,
    totalWordsStudied: nat,
    masteredWords: nat,
    successRate: real,
    totalSessions: nat,
    activeGroups: nat,
    currentStreak: nat)

  /** The dashboard statistics of `st` on day `today`. */
  function ComputeStats(st: Store, today: Day): (r: Stats)
    ensures r.masteredWords <= r.totalWordsStudied
    ensures 0.0 <= r.successRate <= 1.0
    ensures r.activeGroups <= r.totalSessions
    ensures ReviewedWordsExist(st) ==> r.totalWordsStudied <= r.totalVocabulary
    ensures |st.reviews| == 0 ==> r.totalWordsStudied == 0 && r.masteredWords == 0 && r.successRate == 0.0
    ensures r.currentStreak == 0 <==> |st.sessions| == 0
    ensures r.currentStreak <= |StudyDays(st.sessions)|
  {
    MasteredAtMostStudied(st.reviews);
    assert ReviewedWordsExist(st) ==> |StudiedWords(st.reviews)| <= |st.words| by {
      if ReviewedWordsExist(st) {
        StudiedAtMostVocabulary(st);
      }
    }
    Stats(
      |st.words|,
      |StudiedWords(st.reviews)|,
      |MasteredWords(st.reviews)|,
      SuccessRate(st.reviews),
      TotalSessions(st, today),
      ActiveGroups(st, today),
      CurrentStreak(st.sessions))
  }

  /** The streak depends on neither the current date nor the 30-day window. */
  lemma StreakIgnoresToday(st: Store, today1: Day, today2: Day)
    ensures ComputeStats(st, today1).currentStreak == ComputeStats(st, today2).currentStreak
  {
  }

  /** An empty store reports zero for every field. */
  lemma EmptyStoreIsAllZero(today: Day)
    ensures ComputeStats(Store([], [], [], [], []), today) == Stats(0, 0, 0, 0.0, 0, 0, 0)
  {
    var st := Store([], [], [], [], []);
    assert StudiedWords(st.reviews) == {};
    assert MasteredWords(st.reviews) == {};
  }

  function ExampleWord(id: int, hindi: string, english: string): Word {
    Word(id, hindi, english, "", "noun", None, None)
  }

  /**
   * The fixture of the dashboard test: three words, two groups with one
   * activity each, three sessions of the first activity on consecutive days
   * ending today, and five reviews (word 1: three correct; word 2: one wrong,
   * one correct).
   */
  function ExampleStore(today: Day): Store {
    Store(
      [ExampleWord(1, "pani", "water"), ExampleWord(2, "khana", "food"), ExampleWord(3, "sona", "sleep")],
      [Group(1, "Basics"), Group(2, "Daily Activities")],
      [Activity(1, 1, "Basic Vocabulary"), Activity(2, 2, "Daily Actions")],
      [Session(1, 1, today - 2, None), Session(2, 1, today - 1, None), Session(3, 1, today, None)],
      [Review(1, 1, 1, true), Review(2, 1, 2, false), Review(3, 2, 1, true), Review(4, 3, 1, true), Review(5, 3, 2, true)])
  }

  /** The expected values of the dashboard test. */
  lemma ExampleStoreStats(today: Day)
    ensures ComputeStats(ExampleStore(today), today) == Stats(3, 2, 1, 0.8, 3, 1, 3)
  {
    var st := ExampleStore(today);
    assert st.reviews == ExampleStore(0).reviews;
    ExampleWordStats();
    ExampleJoin(today);
    ExampleStreak(today);
  }

  /** The review table of the fixture (it does not depend on the date). */
  lemma ExampleWordStats()
    ensures var rv := ExampleStore(0).reviews;
            |StudiedWords(rv)| == 2 && |MasteredWords(rv)| == 1 && SuccessRate(rv) == 0.8
  {
    var rv := ExampleStore(0).reviews;
    assert StudiedWords(rv) == {1, 2};
    assert ReviewCount(rv, 1) == 3 && CorrectCount(rv, 1) == 3;
    assert ReviewCount(rv, 2) == 2 && CorrectCount(rv, 2) == 1;
    assert MasteredWords(rv) == {1};
    assert CorrectReviews(rv) == 4;
  }

  lemma ExampleJoin(today: Day)
    ensures TotalSessions(ExampleStore(today), today) == 3
    ensures ActiveGroups(ExampleStore(today), today) == 1
  {
    var st := ExampleStore(today);
    var rows := RecentJoin(st.sessions, st.activities, st.groups, WindowStart(today));
    assert GroupMatches(st.groups, 1) == [1] by {
      assert GroupMatches(st.groups[1..], 1) == [];
    }
    assert ActivityJoin(st.activities, st.groups, 1) == [1] by {
      assert ActivityJoin(st.activities[1..], st.groups, 1) == [];
    }
    assert rows == [1, 1, 1] by {
      var ss := st.sessions;
      assert RecentJoin(ss[3..], st.activities, st.groups, WindowStart(today)) == [];
      assert RecentJoin(ss[2..], st.activities, st.groups, WindowStart(today)) == [1];
      assert RecentJoin(ss[1..], st.activities, st.groups, WindowStart(today)) == [1, 1];
    }
    assert Collections.Elements(rows) == {1};
  }

  lemma ExampleStreak(today: Day)
    ensures CurrentStreak(ExampleStore(today).sessions) == 3
  {
    var ss := ExampleStore(today).sessions;
    assert StudyDays(ss) == {today - 2, today - 1, today};
    assert LatestDay(ss) == today;
    RunBackUnique(StudyDays(ss), today, 3);
  }

  /**
   * Deleting a word keeps its reviews, so without `ReviewedWordsExist` more
   * words can be studied than exist.
   */
  lemma OrphanReviewsOutnumberVocabulary(today: Day)
    ensures var r := ComputeStats(Store([], [], [], [], [Review(1, 1, 7, true)]), today);
            r.totalWordsStudied == 1 && r.totalVocabulary == 0
  {
    assert StudiedWords([Review(1, 1, 7, true)]) == {7};
  }

  /** A gap stops the streak even when older study days exist. */
  lemma GapEndsStreak(today: Day)
    ensures CurrentStreak([Session(1, 1, today, None), Session(2, 1, today - 1, None),
                           Session(3, 1, today - 2, None), Session(4, 1, today - 4, None)]) == 3
  {
    var ss := [Session(1, 1, today, None), Session(2, 1, today - 1, None),
               Session(3, 1, today - 2, None), Session(4, 1, today - 4, None)];
    assert StudyDays(ss) == {today, today - 1, today - 2, today - 4};
    assert LatestDay(ss) == today;
    RunBackUnique(StudyDays(ss), today, 3);
  }
}
