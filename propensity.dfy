/** The training set of the purchase-propensity model
    (src/models/train_propensity.py, query_train): behaviour features from
    the events before 2019-11-01 and, as target, whether the user purchased
    on or after that date. The model fitting itself is not part of this. */
module Propensity {
  import opened Wrappers
  import opened Relational
  import opened Events

  /** TIMESTAMP '2019-11-01 00:00:00' in seconds since the epoch: the start of day 18201. */
  const Cutoff: int := 1572566400
  const CutoffDay: int := 18201

  lemma CutoffIsMidnight()
    ensures Day(Cutoff) == CutoffDay
    ensures Cutoff == CutoffDay * SecondsPerDay
  {
  }

  predicate BeforeCutoff(e: Event) { e.time < Cutoff }

  /** WHERE event_time < '2019-11-01': the feature window. */
  function FeatureEvents(es: seq<Event>): (w: seq<Event>)
    ensures forall e :: e in w <==> e in es && e.time < Cutoff
  {
    Filter(es, BeforeCutoff)
  }

  predicate LaterPurchase(e: Event) { e.time >= Cutoff && e.kind == Purchase }

  /** nov_outcome: the users with a purchase on or after the cutoff, each once. */
  function Converted(es: seq<Event>): (us: seq<int>)
    ensures NoDup(us)
    ensures forall u :: u in us <==> exists e :: e in es && e.user == u && e.time >= Cutoff && e.kind == Purchase
  {
    UserIds(Filter(es, LaterPurchase))
  }

  /** One row of the training set. */
  datatype TrainRow = TrainRow(
    user: int,
    octEvents: int,
    octSessions: int,
    octViews: int,
    octCarts: int,
    octRemoves: int,
    activeSpanDays: int,
    recencyOct: int,
    target: int)

  /** The oct_behavior aggregates of one user's non-empty group, LEFT JOINed
      with nov_outcome. date_diff('day', a, b) counts the day boundaries
      between a and b: Day(b) - Day(a). */
  function TrainRowOf(u: int, g: seq<Event>, converted: seq<int>): TrainRow
    requires g != []
  {
    var last := LastTime(g);
    TrainRow(u, Sum(g, One), |SessionIds(g)|, FlagSum(g, View), FlagSum(g, Cart), FlagSum(g, RemoveFromCart),
      Day(last) - Day(FirstTime(g)), CutoffDay - Day(last),
      if u in converted then 1 else 0)
  }

  function TrainRowFor(es: seq<Event>, u: int): (row: TrainRow)
    ensures row.user == u
  {
    var g := Group(FeatureEvents(es), EventUser, u);
    if g == [] then TrainRow(u, 0, 0, 0, 0, 0, 0, 0, 0) else TrainRowOf(u, g, Converted(es))
  }

  function TrainUser(row: TrainRow): int { row.user }

  /** query_train: one row per user with an event before the cutoff. */
  function TrainingSet(es: seq<Event>): (r: seq<TrainRow>)
    ensures MapSeq(r, TrainUser) == UserIds(FeatureEvents(es))
  {
    var us := UserIds(FeatureEvents(es));
    var r := MapSeq(us, (u: int) => TrainRowFor(es, u));
    assert MapSeq(r, TrainUser) == us;
    r
  }

  /** Exactly the users active before the cutoff get a row, each one row: a
      user who only appears from November on is not in the training set. */
  lemma TrainingSetKeys(es: seq<Event>)
    ensures forall i, j :: 0 <= i < j < |TrainingSet(es)| ==> TrainingSet(es)[i].user != TrainingSet(es)[j].user
    ensures forall e :: e in es && e.time < Cutoff ==> exists row :: row in TrainingSet(es) && row.user == e.user
    ensures forall row :: row in TrainingSet(es) ==> exists e :: e in es && e.user == row.user && e.time < Cutoff
  {
    var r := TrainingSet(es);
    var us := UserIds(FeatureEvents(es));
    RowsOfKeys(r, TrainUser, us);
    forall e | e in es && e.time < Cutoff ensures exists row :: row in r && row.user == e.user {
      assert e in FeatureEvents(es);
      assert e.user in us;
      var row :| row in r && TrainUser(row) == e.user;
    }
    forall row | row in r ensures exists e :: e in es && e.user == row.user && e.time < Cutoff {
      assert TrainUser(row) in us;
      var e :| e in FeatureEvents(es) && e.user == row.user;
    }
  }

  /** The row of a stored user is the aggregate of the user's non-empty
      group of pre-cutoff events. */
  lemma TrainingSetRowOf(es: seq<Event>, row: TrainRow)
    requires row in TrainingSet(es)
    ensures Group(FeatureEvents(es), EventUser, row.user) != []
    ensures row == TrainRowOf(row.user, Group(FeatureEvents(es), EventUser, row.user), Converted(es))
  {
    var r := TrainingSet(es);
    var us := UserIds(FeatureEvents(es));
    var i :| 0 <= i < |r| && r[i] == row;
    assert row.user == MapSeq(r, TrainUser)[i] == us[i];
    assert us[i] in us;
    var e :| e in FeatureEvents(es) && e.user == row.user;
    assert e in Group(FeatureEvents(es), EventUser, row.user);
  }

  /** The counts of a row: oct_events counts the user's pre-cutoff events (at
      least one), views + carts + removes never exceed it, and oct_sessions
      counts the user's distinct pre-cutoff sessions, no more than events. */
  lemma TrainRowCounts(es: seq<Event>, row: TrainRow)
    requires row in TrainingSet(es)
    ensures row.octEvents == |Group(FeatureEvents(es), EventUser, row.user)| >= 1
    ensures row.octViews == KindCount(Group(FeatureEvents(es), EventUser, row.user), View)
    ensures row.octCarts == KindCount(Group(FeatureEvents(es), EventUser, row.user), Cart)
    ensures row.octRemoves == KindCount(Group(FeatureEvents(es), EventUser, row.user), RemoveFromCart)
    ensures row.octViews + row.octCarts + row.octRemoves <= row.octEvents
    ensures row.octSessions == |SessionIds(Group(FeatureEvents(es), EventUser, row.user))|
    ensures 0 <= row.octSessions <= row.octEvents
  {
    TrainingSetRowOf(es, row);
    var g := Group(FeatureEvents(es), EventUser, row.user);
    CountStar(g);
    FlagSumCounts(g, View);
    FlagSumCounts(g, Cart);
    FlagSumCounts(g, RemoveFromCart);
    KindCountsPartition(g);
  }

  /** The time columns of a row: active_span_days is the day distance from
      the user's first to last pre-cutoff event (>= 0), and recency_oct the
      day distance from the last one to the cutoff, >= 1 since that event
      falls on a day before the cutoff's midnight. */
  lemma TrainRowTimes(es: seq<Event>, row: TrainRow)
    requires row in TrainingSet(es)
    ensures Group(FeatureEvents(es), EventUser, row.user) != []
    ensures row.activeSpanDays ==
      Day(LastTime(Group(FeatureEvents(es), EventUser, row.user))) - Day(FirstTime(Group(FeatureEvents(es), EventUser, row.user)))
    ensures row.recencyOct == CutoffDay - Day(LastTime(Group(FeatureEvents(es), EventUser, row.user)))
    ensures row.activeSpanDays >= 0
    ensures row.recencyOct >= 1
  {
    TrainingSetRowOf(es, row);
    var g := Group(FeatureEvents(es), EventUser, row.user);
    FirstNotAfterLast(g);
    DayMonotone(FirstTime(g), LastTime(g));
    var t := LastTime(g);
    var e :| e in g && e.time == t;
    assert t < Cutoff;
    LastDayBeforeCutoff(t);
  }

  lemma LastDayBeforeCutoff(t: int)
    requires t < Cutoff
    ensures Day(t) < CutoffDay
  {
    DayBounds(t);
  }

  /** target is 1 exactly when the user purchased on or after the cutoff. */
  lemma TrainRowTarget(es: seq<Event>, row: TrainRow)
    requires row in TrainingSet(es)
    ensures row.target == 0 || row.target == 1
    ensures row.target == 1 <==> exists e :: e in es && e.user == row.user && e.time >= Cutoff && e.kind == Purchase
  {
    TrainingSetRowOf(es, row);
  }

  /** No leakage: events on or after the cutoff change only the target
      column, never a feature. */
  function WithoutTarget(row: TrainRow): TrainRow { row.(target := 0) }

  lemma LaterEventsChangeOnlyTarget(es: seq<Event>, later: seq<Event>)
    requires forall e :: e in later ==> e.time >= Cutoff
    ensures MapSeq(TrainingSet(es + later), WithoutTarget) == MapSeq(TrainingSet(es), WithoutTarget)
  {
    SameFeatureWindow(es, later);
    var a := TrainingSet(es + later);
    var b := TrainingSet(es);
    var us := UserIds(FeatureEvents(es));
    assert |a| == |us| == |b|;
    forall i | 0 <= i < |a| ensures WithoutTarget(a[i]) == WithoutTarget(b[i]) {
      assert a[i] == TrainRowFor(es + later, us[i]);
      assert b[i] == TrainRowFor(es, us[i]);
      SameFeatures(es + later, es, us[i]);
    }
  }

  lemma SameFeatureWindow(es: seq<Event>, later: seq<Event>)
    requires forall e :: e in later ==> e.time >= Cutoff
    ensures FeatureEvents(es + later) == FeatureEvents(es)
  {
    FilterAppend(es, later, BeforeCutoff);
    FilterNone(later, BeforeCutoff);
  }

  lemma SameFeatures(es: seq<Event>, fs: seq<Event>, u: int)
    requires FeatureEvents(es) == FeatureEvents(fs)
    ensures WithoutTarget(TrainRowFor(es, u)) == WithoutTarget(TrainRowFor(fs, u))
  {
  }
}
