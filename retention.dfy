/** Weekly cohort retention and churn status (src/analysis/retention.py):
    analysis_weekly_retention groups every user's events by the week of
    the user's first event (the cohort) and the number of weeks since it;
    analysis_churn_risk labels every user by the days since the last event. */
module Retention {
  import opened Wrappers
  import opened Relational
  import opened Events
  import opened InitialModeling

  // ---------------------------------------------------------------------
  // user_activity and cohort_sizes

  /** first_seen of user u: MIN(event_time) over the user's events. */
  function FirstSeen(es: seq<Event>, u: int): int {
    var g := Group(es, EventUser, u);
    if g == [] then 0 else FirstTime(g)
  }

  /** FirstSeen is the first_seen column of dim_users. */
  lemma FirstSeenOfDimUsers(es: seq<Event>, row: UserRow)
    requires row in DimUsers(es)
    ensures row.firstSeen == FirstSeen(es, row.user)
  {
    var r := DimUsers(es);
    var i :| 0 <= i < |r| && r[i] == row;
    assert row.user == MapSeq(r, RowUser)[i] == UserIds(es)[i];
    assert UserIds(es)[i] in UserIds(es);
    var e :| e in es && e.user == row.user;
    assert e in Group(es, EventUser, row.user);
  }

  /** The user's first event falls at first_seen, and none before. */
  lemma FirstSeenIsFirst(es: seq<Event>, e: Event)
    requires e in es
    ensures FirstSeen(es, e.user) <= e.time
    ensures exists x :: x in es && x.user == e.user && x.time == FirstSeen(es, e.user)
  {
    var g := Group(es, EventUser, e.user);
    assert e in g;
    var t := FirstTime(g);
    var x :| x in g && x.time == t;
  }

  /** The cohort of user u: date_trunc('week', first_seen). */
  function CohortOf(es: seq<Event>, u: int): int { Week(FirstSeen(es, u)) }

  /** One row of user_activity: a user, its cohort and the week of one of its events. */
  datatype Activity = Activity(user: int, cohort: int, week: int)

  function ActivityOf(es: seq<Event>, e: Event): Activity {
    Activity(e.user, CohortOf(es, e.user), Week(e.time))
  }

  /** user_activity: dim_users joined with events on user_id. dim_users has
      one row per user of the log, so each event matches exactly one row. */
  function UserActivity(es: seq<Event>): (r: seq<Activity>)
    ensures |r| == |es|
    ensures forall a :: a in r <==> exists e :: e in es && a == ActivityOf(es, e)
  {
    var r := MapSeq(es, e => ActivityOf(es, e));
    MapMembers(es, e => ActivityOf(es, e));
    r
  }

  /** first_seen is the user's earliest event, so no activity week comes
      before the cohort week. */
  lemma ActivityAfterCohort(es: seq<Event>, e: Event)
    requires e in es
    ensures Week(e.time) >= CohortOf(es, e.user)
  {
    FirstSeenIsFirst(es, e);
    WeekMonotone(FirstSeen(es, e.user), e.time);
  }

  /** The users of cohort c, each once: cohort_sizes counts them. */
  function CohortUsers(es: seq<Event>, c: int): (us: seq<int>)
    ensures NoDup(us)
    ensures forall u :: u in us <==> (exists e :: e in es && e.user == u) && CohortOf(es, u) == c
  {
    var us := UserIds(es);
    FilterNoDup(us, u => CohortOf(es, u) == c);
    Filter(us, u => CohortOf(es, u) == c)
  }

  /** Whether user u has an event in week w. */
  predicate ActiveIn(es: seq<Event>, u: int, w: int) {
    exists e :: e in es && e.user == u && Week(e.time) == w
  }

  /** COUNT(DISTINCT user_id) of the activity rows of cohort c, k weeks on. */
  function ActiveUsers(es: seq<Event>, c: int, k: int): (us: seq<int>)
    ensures NoDup(us)
    ensures |us| <= |CohortUsers(es, c)|
    ensures forall u :: u in us <==> exists a :: a in UserActivity(es) && a.user == u && a.cohort == c && a.week - a.cohort == k
  {
    var cs := CohortUsers(es, c);
    var us := Filter(cs, u => ActiveIn(es, u, c + k));
    FilterNoDup(cs, u => ActiveIn(es, u, c + k));
    forall u ensures u in us <==> exists a :: a in UserActivity(es) && a.user == u && a.cohort == c && a.week - a.cohort == k {
      ActiveMember(es, c, k, u);
    }
    us
  }

  /** A cohort member is active k weeks on iff user_activity has a row for it. */
  lemma ActiveMember(es: seq<Event>, c: int, k: int, u: int)
    ensures (u in CohortUsers(es, c) && ActiveIn(es, u, c + k)) <==>
      exists a :: a in UserActivity(es) && a.user == u && a.cohort == c && a.week - a.cohort == k
  {
    if u in CohortUsers(es, c) && ActiveIn(es, u, c + k) {
      ActiveHasRow(es, c, k, u);
    }
    if exists a :: a in UserActivity(es) && a.user == u && a.cohort == c && a.week - a.cohort == k {
      RowMakesActive(es, c, k, u);
    }
  }

  lemma RowMakesActive(es: seq<Event>, c: int, k: int, u: int)
    requires exists a :: a in UserActivity(es) && a.user == u && a.cohort == c && a.week - a.cohort == k
    ensures u in CohortUsers(es, c) && ActiveIn(es, u, c + k)
  {
    var a :| a in UserActivity(es) && a.user == u && a.cohort == c && a.week - a.cohort == k;
    RowIsActive(es, a);
  }

  lemma ActiveHasRow(es: seq<Event>, c: int, k: int, u: int)
    requires u in CohortUsers(es, c) && ActiveIn(es, u, c + k)
    ensures exists a :: a in UserActivity(es) && a.user == u && a.cohort == c && a.week - a.cohort == k
  {
    var e :| e in es && e.user == u && Week(e.time) == c + k;
    ActivityMember(es, e);
    ActivityWitness(UserActivity(es), ActivityOf(es, e), c, k, u);
  }

  lemma ActivityWitness(r: seq<Activity>, a: Activity, c: int, k: int, u: int)
    requires a in r && a.user == u && a.cohort == c && a.week - a.cohort == k
    ensures exists b :: b in r && b.user == u && b.cohort == c && b.week - b.cohort == k
  {
  }

  /** Every event has its user_activity row. */
  lemma ActivityMember(es: seq<Event>, e: Event)
    requires e in es
    ensures ActivityOf(es, e) in UserActivity(es)
  {
    var i :| 0 <= i < |es| && es[i] == e;
    assert UserActivity(es)[i] == ActivityOf(es, e);
  }

  lemma RowIsActive(es: seq<Event>, a: Activity)
    requires a in UserActivity(es)
    ensures a.user in CohortUsers(es, a.cohort) && ActiveIn(es, a.user, a.week)
  {
    var e :| e in es && a == ActivityOf(es, e);
    assert e.user == a.user && CohortOf(es, a.user) == a.cohort && Week(e.time) == a.week;
  }

  // ---------------------------------------------------------------------
  // The (cohort_week, weeks_since_first) keys, ordered

  /** ORDER BY cohort_week, weeks_since_first. */
  predicate LexLess(p: (int, int), q: (int, int)) {
    p.0 < q.0 || (p.0 == q.0 && p.1 < q.1)
  }

  predicate LexIncreasing(s: seq<(int, int)>) {
    forall i, j :: 0 <= i < j < |s| ==> LexLess(s[i], s[j])
  }

  /** Inserts p into the increasing sequence s, dropping a duplicate. */
  function InsertPair(p: (int, int), s: seq<(int, int)>): (r: seq<(int, int)>)
    requires LexIncreasing(s)
    ensures LexIncreasing(r)
    ensures forall q :: q in r <==> q == p || q in s
  {
    if s == [] then [p]
    else if LexLess(p, s[0]) then [p] + s
    else if p == s[0] then s
    else
      var rest := InsertPair(p, s[1..]);
      assert forall q :: q in rest ==> LexLess(s[0], q);
      [s[0]] + rest
  }

  /** SELECT DISTINCT ... ORDER BY 1, 2 over pairs. */
  function SortedPairs(s: seq<(int, int)>): (r: seq<(int, int)>)
    ensures LexIncreasing(r)
    ensures forall q :: q in r <==> q in s
  {
    if s == [] then [] else InsertPair(s[0], SortedPairs(s[1..]))
  }

  function ActivityKey(a: Activity): (int, int) { (a.cohort, a.week - a.cohort) }

  // ---------------------------------------------------------------------
  // analysis_weekly_retention

  /** One row of analysis_weekly_retention. */
  datatype RetentionRow = RetentionRow(cohortWeek: int, cohortSize: nat, weeksSinceFirst: int, activeUsers: nat, retentionRate: real)

  function RetentionRowFor(es: seq<Event>, k: (int, int)): RetentionRow {
    var size := |CohortUsers(es, k.0)|;
    var active := |ActiveUsers(es, k.0, k.1)|;
    RetentionRow(k.0, size, k.1, active, if size == 0 then 0.0 else active as real / size as real)
  }

  function RowKey(row: RetentionRow): (int, int) { (row.cohortWeek, row.weeksSinceFirst) }

  /** analysis_weekly_retention: one row per (cohort, weeks since first)
      pair that occurs in user_activity, ordered by cohort, then offset. */
  function WeeklyRetention(es: seq<Event>): (r: seq<RetentionRow>)
    ensures LexIncreasing(MapSeq(r, RowKey))
    ensures forall k :: k in MapSeq(r, RowKey) <==> exists a :: a in UserActivity(es) && ActivityKey(a) == k
  {
    var acts := UserActivity(es);
    var ks := SortedPairs(MapSeq(acts, ActivityKey));
    MapMembers(acts, ActivityKey);
    var r := MapSeq(ks, k => RetentionRowFor(es, k));
    assert MapSeq(r, RowKey) == ks;
    r
  }

  /** Rows are unique per (cohort_week, weeks_since_first) and ordered by
      cohort, then by week offset. */
  lemma WeeklyRetentionOrdered(es: seq<Event>)
    ensures forall i, j :: 0 <= i < j < |WeeklyRetention(es)| ==>
      WeeklyRetention(es)[i].cohortWeek < WeeklyRetention(es)[j].cohortWeek ||
      (WeeklyRetention(es)[i].cohortWeek == WeeklyRetention(es)[j].cohortWeek &&
       WeeklyRetention(es)[i].weeksSinceFirst < WeeklyRetention(es)[j].weeksSinceFirst)
  {
    var r := WeeklyRetention(es);
    var ks := MapSeq(r, RowKey);
    forall i, j | 0 <= i < j < |r|
      ensures r[i].cohortWeek < r[j].cohortWeek ||
              (r[i].cohortWeek == r[j].cohortWeek && r[i].weeksSinceFirst < r[j].weeksSinceFirst)
    {
      assert LexLess(ks[i], ks[j]);
    }
  }

  /** The row of a stored key is the row computed for it. */
  lemma WeeklyRetentionRowOf(es: seq<Event>, row: RetentionRow)
    requires row in WeeklyRetention(es)
    ensures row == RetentionRowFor(es, RowKey(row))
    ensures exists e :: e in es && CohortOf(es, e.user) == row.cohortWeek && Week(e.time) - row.cohortWeek == row.weeksSinceFirst
  {
    var r := WeeklyRetention(es);
    var i :| 0 <= i < |r| && r[i] == row;
    RowIsComputed(es, i);
    assert MapSeq(r, RowKey)[i] == RowKey(row);
    KeyHasEvent(es, RowKey(row));
  }

  lemma RowIsComputed(es: seq<Event>, i: int)
    requires 0 <= i < |WeeklyRetention(es)|
    ensures WeeklyRetention(es)[i] == RetentionRowFor(es, RowKey(WeeklyRetention(es)[i]))
  {
  }

  lemma KeyHasEvent(es: seq<Event>, k: (int, int))
    requires k in MapSeq(WeeklyRetention(es), RowKey)
    ensures exists e :: e in es && CohortOf(es, e.user) == k.0 && Week(e.time) - k.0 == k.1
  {
    var a :| a in UserActivity(es) && ActivityKey(a) == k;
    var e :| e in es && a == ActivityOf(es, e);
    assert CohortOf(es, e.user) == k.0 && Week(e.time) - k.0 == k.1;
  }

  /** What a retention row says: weeks_since_first >= 0, cohort_size counts
      the cohort's users, active_users those of them with an event that
      week, 1 <= active_users <= cohort_size, and retention_rate is their
      quotient, in (0, 1]. */
  lemma WeeklyRetentionRow(es: seq<Event>, row: RetentionRow)
    requires row in WeeklyRetention(es)
    ensures row.weeksSinceFirst >= 0
    ensures row.cohortSize == |CohortUsers(es, row.cohortWeek)|
    ensures row.activeUsers == |ActiveUsers(es, row.cohortWeek, row.weeksSinceFirst)|
    ensures 1 <= row.activeUsers <= row.cohortSize
    ensures row.retentionRate == row.activeUsers as real / row.cohortSize as real
    ensures 0.0 < row.retentionRate <= 1.0
  {
    WeeklyRetentionRowOf(es, row);
    var e :| e in es && CohortOf(es, e.user) == row.cohortWeek && Week(e.time) - row.cohortWeek == row.weeksSinceFirst;
    ActivityAfterCohort(es, e);
    EventUserActive(es, e, row.cohortWeek, row.weeksSinceFirst);
    RateBounds(row.activeUsers, row.cohortSize);
  }

  /** The user of an event is active in the week of that event. */
  lemma EventUserActive(es: seq<Event>, e: Event, c: int, k: int)
    requires e in es && CohortOf(es, e.user) == c && Week(e.time) - c == k
    ensures |ActiveUsers(es, c, k)| >= 1
  {
    var a := ActivityOf(es, e);
    assert a in UserActivity(es);
    assert a.user == e.user && a.cohort == c && a.week - a.cohort == k;
    assert e.user in ActiveUsers(es, c, k);
  }

  /** active / size lies in (0, 1] when 1 <= active <= size. */
  lemma RateBounds(active: int, size: int)
    requires 1 <= active <= size
    ensures 0.0 < active as real / size as real <= 1.0
  {
    FractionBounds(active, size);
    Positive(active, size);
  }

  lemma Positive(a: int, b: int)
    requires 0 < a <= b
    ensures a as real / b as real > 0.0
  {
  }

  /** Every user of a cohort is active in the cohort's own week. */
  lemma CohortActiveAtStart(es: seq<Event>, c: int)
    ensures |ActiveUsers(es, c, 0)| == |CohortUsers(es, c)|
  {
    var cs := CohortUsers(es, c);
    forall u | u in cs ensures ActiveIn(es, u, c + 0) {
      MemberActiveAtStart(es, c, u);
    }
    FilterEvery(cs, u => ActiveIn(es, u, c + 0));
  }

  /** A cohort member's first event lies in the cohort week. */
  lemma MemberActiveAtStart(es: seq<Event>, c: int, u: int)
    requires u in CohortUsers(es, c)
    ensures ActiveIn(es, u, c)
  {
    var e :| e in es && e.user == u;
    FirstSeenIsFirst(es, e);
    var x :| x in es && x.user == u && x.time == FirstSeen(es, u);
    assert Week(x.time) == CohortOf(es, u) == c;
  }

  /** A WHERE clause that every row passes keeps every row. */
  lemma {:induction false} FilterEvery<T(!new)>(s: seq<T>, p: T -> bool)
    requires forall x :: x in s ==> p(x)
    ensures Count(s, p) == |s|
  {
    if s != [] {
      FilterEvery(s[1..], p);
    }
  }

  /** At weeks_since_first = 0 every cohort member is active, so the
      retention rate is exactly 1. */
  lemma RetentionAtWeekZero(es: seq<Event>, row: RetentionRow)
    requires row in WeeklyRetention(es) && row.weeksSinceFirst == 0
    ensures row.activeUsers == row.cohortSize
    ensures row.retentionRate == 1.0
  {
    WeeklyRetentionRowOf(es, row);
    CohortActiveAtStart(es, row.cohortWeek);
    var e :| e in es && CohortOf(es, e.user) == row.cohortWeek && Week(e.time) - row.cohortWeek == row.weeksSinceFirst;
    EventUserActive(es, e, row.cohortWeek, 0);
    WholeRate(row.cohortSize);
  }

  lemma WholeRate(n: int)
    requires n >= 1
    ensures n as real / n as real == 1.0
  {
  }

  // ---------------------------------------------------------------------
  // analysis_churn_risk

  datatype ChurnStatus = Churned | AtRisk | Active

  /** The first-match CASE on days_inactive. */
  function StatusOf(daysInactive: int): (s: ChurnStatus)
    ensures s == Churned <==> daysInactive > 14
    ensures s == AtRisk <==> 7 < daysInactive <= 14
    ensures s == Active <==> daysInactive <= 7
  {
    if daysInactive > 14 then Churned
    else if daysInactive > 7 then AtRisk
    else Active
  }

  /** One row of analysis_churn_risk. */
  datatype ChurnRow = ChurnRow(user: int, lastSeen: int, daysInactive: int, status: ChurnStatus)

  function ChurnRowOf(maxTime: int, row: UserRow): ChurnRow {
    var days := Day(maxTime) - Day(row.lastSeen);
    ChurnRow(row.user, row.lastSeen, days, StatusOf(days))
  }

  /** analysis_churn_risk, measured against max_date = MAX(event_time). On an
      empty log max_date is NULL, the query text TIMESTAMP 'None' is rejected
      and the table is not built. */
  function ChurnRisk(es: seq<Event>): (r: Result<seq<ChurnRow>, string>)
    ensures r.Err? <==> es == []
    ensures r.Ok? ==> |r.value| == |DimUsers(es)|
    ensures r.Ok? ==> forall i :: 0 <= i < |r.value| ==>
      r.value[i].user == DimUsers(es)[i].user && r.value[i].lastSeen == DimUsers(es)[i].lastSeen &&
      r.value[i].status == StatusOf(r.value[i].daysInactive)
  {
    if es == [] then Err("max_date is NULL: TIMESTAMP 'None' cannot be parsed")
    else Ok(MapSeq(DimUsers(es), row => ChurnRowOf(LastTime(es), row)))
  }

  /** last_seen of the i-th dim_users row is the time of its user's latest event. */
  lemma LastSeenIsLast(es: seq<Event>, i: int)
    requires 0 <= i < |DimUsers(es)|
    ensures exists e :: e in es && e.user == DimUsers(es)[i].user && e.time == DimUsers(es)[i].lastSeen
    ensures forall e :: e in es && e.user == DimUsers(es)[i].user ==> e.time <= DimUsers(es)[i].lastSeen
  {
    var row := DimUsers(es)[i];
    assert row in DimUsers(es);
    DimUsersRow(es, row);
  }

  /** days_inactive counts the days from the user's last event to the last
      event of the log, so it is never negative; one row per user. */
  lemma ChurnRiskRow(es: seq<Event>, i: int)
    requires ChurnRisk(es).Ok? && 0 <= i < |ChurnRisk(es).value|
    ensures ChurnRisk(es).value[i].daysInactive == Day(LastTime(es)) - Day(DimUsers(es)[i].lastSeen) >= 0
    ensures exists e :: e in es && e.user == ChurnRisk(es).value[i].user && e.time == ChurnRisk(es).value[i].lastSeen
  {
    LastSeenIsLast(es, i);
    var row := DimUsers(es)[i];
    var e :| e in es && e.user == row.user && e.time == row.lastSeen;
    DayMonotone(e.time, LastTime(es));
  }

  /** The user of the log's last event is 'Active'. */
  lemma LatestUserActive(es: seq<Event>)
    requires es != []
    ensures exists row :: row in ChurnRisk(es).value && row.status == Active
  {
    var t := LastTime(es);
    var e :| e in es && e.time == t;
    var us := UserIds(es);
    var i :| 0 <= i < |us| && us[i] == e.user;
    assert DimUsers(es)[i].user == MapSeq(DimUsers(es), RowUser)[i] == e.user;
    LastSeenIsLast(es, i);
    ChurnRiskRow(es, i);
    DayMonotone(t, DimUsers(es)[i].lastSeen);
    assert ChurnRisk(es).value[i] in ChurnRisk(es).value;
  }
}
