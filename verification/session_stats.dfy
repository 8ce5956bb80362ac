/**
 * The `session_stats` part of the dashboard query (lang-portal/backend/main.py):
 * the join study_sessions ⋈ study_activities ⋈ groups restricted to sessions
 * that start on or after `today - 30`. `total_sessions` counts the rows of that
 * join and `active_groups` the distinct group ids among them.
 */
module SessionStats {
  import opened LangStore
  import opened Collections

  /** Sessions starting on or after this day fall in the trailing window. */
  function WindowStart(today: Day): Day {
    today - 30
  }

  /** One entry `gid` per group row whose key is `gid`. */
  function GroupMatches(groups: seq<Group>, gid: int): (r: seq<int>)
    ensures forall x :: x in r ==> x == gid
  {
    if |groups| == 0 then []
    else (if groups[0].id == gid then [gid] else []) + GroupMatches(groups[1..], gid)
  }

  /** The group ids of the join rows for one session of activity `aid`. */
  function ActivityJoin(activities: seq<Activity>, groups: seq<Group>, aid: int): seq<int> {
    if |activities| == 0 then []
    else
      (if activities[0].id == aid then GroupMatches(groups, activities[0].groupId) else [])
      + ActivityJoin(activities[1..], groups, aid)
  }

  /** One group id per row of the windowed three-way join, in session order. */
  function RecentJoin(sessions: seq<Session>, activities: seq<Activity>, groups: seq<Group>, since: Day): seq<int> {
    if |sessions| == 0 then []
    else
      (if sessions[0].startDay >= since then ActivityJoin(activities, groups, sessions[0].activityId) else [])
      + RecentJoin(sessions[1..], activities, groups, since)
  }

  /**
   * COUNT(*) over the windowed join. Under the schema's unique primary keys it
   * is the number of sessions starting on or after `today - 30` whose activity
   * and group exist.
   */
  function TotalSessions(st: Store, today: Day): (n: nat)
    ensures UniqueActivityIds(st.activities) && UniqueGroupIds(st.groups) ==>
              n == CountedSessions(st.sessions, st.activities, st.groups, WindowStart(today))
  {
    var rows := RecentJoin(st.sessions, st.activities, st.groups, WindowStart(today));
    assert UniqueActivityIds(st.activities) && UniqueGroupIds(st.groups) ==>
             |rows| == CountedSessions(st.sessions, st.activities, st.groups, WindowStart(today)) by {
      if UniqueActivityIds(st.activities) && UniqueGroupIds(st.groups) {
        TotalSessionsCountsJoinableSessions(st.sessions, st.activities, st.groups, WindowStart(today));
      }
    }
    |rows|
  }

  /**
   * The groups used in the window: the group of every activity run by a session
   * starting on or after `since`, when that group exists.
   */
  function WindowGroups(sessions: seq<Session>, activities: seq<Activity>, groups: seq<Group>, since: Day): set<int> {
    set s, a | s in sessions && s.startDay >= since && a in activities && a.id == s.activityId
                 && HasGroup(groups, a.groupId) :: a.groupId
  }

  /**
   * COUNT(DISTINCT g.group_id) over the windowed join: the number of groups used
   * in the window, never more than the join's rows.
   */
  function ActiveGroups(st: Store, today: Day): (n: nat)
    ensures n == |WindowGroups(st.sessions, st.activities, st.groups, WindowStart(today))|
    ensures n <= TotalSessions(st, today)
  {
    var rows := RecentJoin(st.sessions, st.activities, st.groups, WindowStart(today));
    ElementsCardinality(rows);
    RecentJoinGroups(st.sessions, st.activities, st.groups, WindowStart(today));
    |Elements(rows)|
  }

  /** A group id appears among the matches exactly when it is the key of a group row. */
  lemma {:induction false} GroupMatchesElements(groups: seq<Group>, gid: int, x: int)
    ensures x in GroupMatches(groups, gid) <==> x == gid && HasGroup(groups, gid)
  {
    if |groups| > 0 {
      GroupMatchesElements(groups[1..], gid, x);
      if HasGroup(groups, gid) && groups[0].id != gid {
        var g :| g in groups && g.id == gid;
        assert g in groups[1..];
      }
      if HasGroup(groups[1..], gid) {
        var g :| g in groups[1..] && g.id == gid;
        assert g in groups;
      }
    }
  }

  /** The group ids joined to activity `aid` are those of its activity rows whose group exists. */
  lemma {:induction false} ActivityJoinElements(activities: seq<Activity>, groups: seq<Group>, aid: int, x: int)
    ensures x in ActivityJoin(activities, groups, aid) <==>
              exists a :: a in activities && a.id == aid && a.groupId == x && HasGroup(groups, x)
  {
    if |activities| > 0 {
      var a0, rest := activities[0], activities[1..];
      ActivityJoinElements(rest, groups, aid, x);
      GroupMatchesElements(groups, a0.groupId, x);
      if exists a :: a in activities && a.id == aid && a.groupId == x && HasGroup(groups, x) {
        var a :| a in activities && a.id == aid && a.groupId == x && HasGroup(groups, x);
        if a != a0 {
          assert a in rest;
        }
      }
      if exists a :: a in rest && a.id == aid && a.groupId == x && HasGroup(groups, x) {
        var a :| a in rest && a.id == aid && a.groupId == x && HasGroup(groups, x);
        assert a in activities;
      }
    }
  }

  /** The distinct group ids of the windowed join are the groups used in the window. */
  lemma {:induction false} RecentJoinGroups(sessions: seq<Session>, activities: seq<Activity>, groups: seq<Group>, since: Day)
    ensures Elements(RecentJoin(sessions, activities, groups, since)) == WindowGroups(sessions, activities, groups, since)
  {
    if |sessions| > 0 {
      var s0, rest := sessions[0], sessions[1..];
      RecentJoinGroups(rest, activities, groups, since);
      var head := if s0.startDay >= since then ActivityJoin(activities, groups, s0.activityId) else [];
      assert RecentJoin(sessions, activities, groups, since) == head + RecentJoin(rest, activities, groups, since);
      forall x ensures x in RecentJoin(sessions, activities, groups, since) <==> x in WindowGroups(sessions, activities, groups, since) {
        ActivityJoinElements(activities, groups, s0.activityId, x);
        if x in WindowGroups(sessions, activities, groups, since) {
          var s, a :| s in sessions && s.startDay >= since && a in activities && a.id == s.activityId
                      && HasGroup(groups, a.groupId) && a.groupId == x;
          if s != s0 {
            assert s in rest;
            assert x in WindowGroups(rest, activities, groups, since);
          }
        }
        if x in WindowGroups(rest, activities, groups, since) {
          var s, a :| s in rest && s.startDay >= since && a in activities && a.id == s.activityId
                      && HasGroup(groups, a.groupId) && a.groupId == x;
          assert s in sessions;
        }
      }
    } else {
      assert WindowGroups(sessions, activities, groups, since) == {};
    }
  }

  /** Session `s` has an activity row whose group row exists. */
  predicate Joinable(activities: seq<Activity>, groups: seq<Group>, s: Session) {
    exists a :: a in activities && a.id == s.activityId && HasGroup(groups, a.groupId)
  }

  predicate HasGroup(groups: seq<Group>, gid: int) {
    exists g :: g in groups && g.id == gid
  }

  /** Sessions in the window that reach an existing activity and group. */
  function CountedSessions(sessions: seq<Session>, activities: seq<Activity>, groups: seq<Group>, since: Day): nat {
    if |sessions| == 0 then 0
    else
      (if sessions[0].startDay >= since && Joinable(activities, groups, sessions[0]) then 1 else 0)
      + CountedSessions(sessions[1..], activities, groups, since)
  }

  /** With unique group keys an id matches one group row or none. */
  lemma {:induction false} GroupMatchesSize(groups: seq<Group>, gid: int)
    requires UniqueGroupIds(groups)
    ensures |GroupMatches(groups, gid)| == if HasGroup(groups, gid) then 1 else 0
  {
    if |groups| > 0 {
      var rest := groups[1..];
      assert UniqueGroupIds(rest) by {
        forall i, j | 0 <= i < j < |rest| ensures rest[i].id != rest[j].id {
          assert rest[i] == groups[i + 1] && rest[j] == groups[j + 1];
        }
      }
      GroupMatchesSize(rest, gid);
      if groups[0].id == gid {
        assert !HasGroup(rest, gid);
      } else {
        if HasGroup(groups, gid) {
          var g :| g in groups && g.id == gid;
          assert g in rest;
        }
      }
    }
  }

  /** No activity row with key `aid` means no join rows. */
  lemma {:induction false} ActivityJoinAbsent(activities: seq<Activity>, groups: seq<Group>, aid: int)
    requires forall a :: a in activities ==> a.id != aid
    ensures ActivityJoin(activities, groups, aid) == []
  {
    if |activities| > 0 {
      ActivityJoinAbsent(activities[1..], groups, aid);
    }
  }

  /** With unique keys a session produces one join row when joinable and none otherwise. */
  lemma {:induction false} ActivityJoinSize(activities: seq<Activity>, groups: seq<Group>, s: Session)
    requires UniqueActivityIds(activities)
    requires UniqueGroupIds(groups)
    ensures |ActivityJoin(activities, groups, s.activityId)| == if Joinable(activities, groups, s) then 1 else 0
  {
    if |activities| > 0 {
      var a0, rest := activities[0], activities[1..];
      assert UniqueActivityIds(rest) by {
        forall i, j | 0 <= i < j < |rest| ensures rest[i].id != rest[j].id {
          assert rest[i] == activities[i + 1] && rest[j] == activities[j + 1];
        }
      }
      if a0.id == s.activityId {
        assert forall a :: a in rest ==> a.id != s.activityId by {
          forall a | a in rest ensures a.id != s.activityId {
            var k :| 0 <= k < |rest| && rest[k] == a;
            assert activities[k + 1] == a;
          }
        }
        ActivityJoinAbsent(rest, groups, s.activityId);
        GroupMatchesSize(groups, a0.groupId);
        if Joinable(activities, groups, s) {
          var a :| a in activities && a.id == s.activityId && HasGroup(groups, a.groupId);
          assert a == a0;
        }
      } else {
        ActivityJoinSize(rest, groups, s);
        if Joinable(activities, groups, s) {
          var a :| a in activities && a.id == s.activityId && HasGroup(groups, a.groupId);
          assert a in rest;
        }
        if Joinable(rest, groups, s) {
          var a :| a in rest && a.id == s.activityId && HasGroup(groups, a.groupId);
          assert a in activities;
        }
      }
    }
  }

  /**
   * Under the schema's unique primary keys, `total_sessions` counts exactly the
   * sessions in the window whose activity and group exist.
   */
  lemma {:induction false} TotalSessionsCountsJoinableSessions(
    sessions: seq<Session>, activities: seq<Activity>, groups: seq<Group>, since: Day)
    requires UniqueActivityIds(activities)
    requires UniqueGroupIds(groups)
    ensures |RecentJoin(sessions, activities, groups, since)| == CountedSessions(sessions, activities, groups, since)
  {
    if |sessions| > 0 {
      ActivityJoinSize(activities, groups, sessions[0]);
      TotalSessionsCountsJoinableSessions(sessions[1..], activities, groups, since);
    }
  }
}
