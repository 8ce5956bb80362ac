/**
 * The rows of the vocabulary store read by the dashboard statistics: words,
 * groups, study activities, study sessions and word review items. A table is a
 * sequence of rows (a bag, as in SQL). Timestamps are reduced to their calendar
 * date, written as a day number, because every comparison the statistics make
 * on them is date-granular.
 */
module LangStore {
  import opened Wrappers

  /** A calendar date as a day number (consecutive dates differ by one). */
  type Day = int

  datatype Word = Word(
    id: int,
    hindiText: string,
    englishText: string,
    meaning: string,
    partOfSpeech: string,
    origin: Option<string>,
    exampleSentence: Option<string>)

  datatype Group = Group(id: int, name: string)

  /** A study activity belongs to one group. */
  datatype Activity = Activity(id: int, groupId: int, name: string)

  /** A study session runs one activity; only the start date matters here. */
  datatype Session = Session(id: int, activityId: int, startDay: Day, endDay: Option<Day>)

  /** One answer to one word inside one session. */
  datatype Review = Review(id: int, sessionId: int, wordId: int, isCorrect: bool)

  datatype Store = Store(
    words: seq<Word>,
    groups: seq<Group>,
    activities: seq<Activity>,
    sessions: seq<Session>,
    reviews: seq<Review>)

  /** The ids of the word rows. */
  function WordIds(words: seq<Word>): set<int> {
    set w | w in words :: w.id
  }

  /** Every review points at a word that is still in the store. */
  predicate ReviewedWordsExist(st: Store) {
    forall r :: r in st.reviews ==> r.wordId in WordIds(st.words)
  }

  /** The primary keys of the groups table are pairwise distinct. */
  predicate UniqueGroupIds(groups: seq<Group>) {
    forall i, j :: 0 <= i < j < |groups| ==> groups[i].id != groups[j].id
  }

  /** The primary keys of the activities table are pairwise distinct. */
  predicate UniqueActivityIds(activities: seq<Activity>) {
    forall i, j :: 0 <= i < j < |activities| ==> activities[i].id != activities[j].id
  }
}
