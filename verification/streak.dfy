/**
 * The `current_streak` of the dashboard (lang-portal/backend/main.py): starting
 * at the latest date on which any session started, walk back one calendar day
 * at a time while some session started on that day. The walk reads the whole
 * session table; it ignores the 30-day window and the current date.
 */
module Streak {
  import opened LangStore

  /** The distinct calendar dates on which a session started. */
  function StudyDays(sessions: seq<Session>): set<Day> {
    set s | s in sessions :: s.startDay
  }

  /** The most recent study date. */
  function LatestDay(sessions: seq<Session>): (d: Day)
    requires |sessions| > 0
    ensures d in StudyDays(sessions)
    ensures forall s :: s in sessions ==> s.startDay <= d
  {
    if |sessions| == 1 then sessions[0].startDay
    else
      var rest := LatestDay(sessions[1..]);
      assert forall s :: s in sessions ==> s == sessions[0] || s in sessions[1..];
      if sessions[0].startDay >= rest then sessions[0].startDay else rest
  }

  /**
   * The number of consecutive days ending at `d` that are all in `days`: every
   * day in (d - k, d] is a study day and day d - k is not.
   */
  function RunBack(days: set<Day>, d: Day): (k: nat)
    ensures forall e :: d - k < e <= d ==> e in days
    ensures d - k !in days
    ensures k <= |days|
    decreases |days|
  {
    if d in days then
      var k' := RunBack(days - {d}, d - 1);
      assert forall e :: d - (1 + k') < e <= d ==> e in days by {
        forall e | d - (1 + k') < e <= d ensures e in days {
          if e != d {
            assert e in days - {d};
          }
        }
      }
      1 + k'
    else 0
  }

  /** The run is determined by its two defining facts. */
  lemma RunBackUnique(days: set<Day>, d: Day, k: nat)
    requires forall e :: d - k < e <= d ==> e in days
    requires d - k !in days
    ensures k == RunBack(days, d)
  {
    var r := RunBack(days, d);
  }

  /** The streak as the dashboard reports it. */
  function CurrentStreak(sessions: seq<Session>): (k: nat)
    ensures |sessions| == 0 ==> k == 0
    ensures |sessions| > 0 ==> 1 <= k <= |StudyDays(sessions)|
    ensures |sessions| > 0 ==>
              (forall e :: LatestDay(sessions) - k < e <= LatestDay(sessions) ==> e in StudyDays(sessions))
              && LatestDay(sessions) - k !in StudyDays(sessions)
  {
    if |sessions| == 0 then 0 else RunBack(StudyDays(sessions), LatestDay(sessions))
  }

  /**
   * The streak computed by an explicit walk: collect the distinct dates and the
   * latest one, then step back while the date is present.
   */
  method WalkBackStreak(sessions: seq<Session>) returns (k: nat)
    ensures k == CurrentStreak(sessions)
  {
    if |sessions| == 0 {
      return 0;
    }
    var days: set<Day> := {};
    var latest := sessions[0].startDay;
    var i := 0;
    while i < |sessions|
      invariant 0 <= i <= |sessions|
      invariant forall e :: e in days <==> exists j :: 0 <= j < i && sessions[j].startDay == e
      invariant latest in StudyDays(sessions)
      invariant forall j :: 0 <= j < i ==> sessions[j].startDay <= latest
    {
      days := days + {sessions[i].startDay};
      if sessions[i].startDay > latest {
        latest := sessions[i].startDay;
      }
      i := i + 1;
    }
    assert days == StudyDays(sessions) by {
      forall e | e in StudyDays(sessions) ensures e in days {
        var s :| s in sessions && s.startDay == e;
        var j :| 0 <= j < |sessions| && sessions[j] == s;
        assert sessions[j].startDay == e;
      }
      forall e | e in days ensures e in StudyDays(sessions) {
        var j :| 0 <= j < |sessions| && sessions[j].startDay == e;
        assert sessions[j] in sessions;
      }
    }
    assert latest == LatestDay(sessions) by {
      var j :| 0 <= j < |sessions| && sessions[j].startDay == LatestDay(sessions);
    }
    var remaining := days;
    k := 0;
    while latest - k in remaining
      invariant forall e :: e <= latest - k ==> (e in remaining <==> e in days)
      invariant forall e :: latest - k < e <= latest ==> e in days
      decreases |remaining|
    {
      remaining := remaining - {latest - k};
      k := k + 1;
    }
    RunBackUnique(days, latest, k);
  }
}
