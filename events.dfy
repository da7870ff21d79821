/** The raw event log every query reads: one row per user interaction
    (event_time, event_type, product_id, category_id, category_code, brand,
    price, user_id, user_session), and the per-group aggregates the queries
    share. */
module Events {
  import opened Wrappers
  import opened Relational

  datatype EventType = View | Cart | RemoveFromCart | Purchase

  /** One event. Times are seconds since the Unix epoch, prices are cents,
      the session UUID is abstracted to an integer id. */
  datatype Event = Event(
    time: int,
    kind: EventType,
    product: Option<int>,
    categoryId: int,
    categoryCode: Option<string>,
    brand: Option<string>,
    price: int,
    user: int,
    session: Option<int>)

  const SecondsPerDay: int := 86400

  /** CAST(event_time AS DATE), as a day number since 1970-01-01. */
  function Day(t: int): int {
    t / SecondsPerDay
  }

  /** Day d covers the seconds d * 86400 .. d * 86400 + 86399. */
  lemma DayBounds(t: int)
    ensures Day(t) * SecondsPerDay <= t < Day(t) * SecondsPerDay + SecondsPerDay
  {
  }

  /** DATE_TRUNC('week', ...), as a week number. Weeks start on Monday;
      day 0 (1970-01-01) was a Thursday, so week w holds days 7w-3 .. 7w+3. */
  function Week(t: int): int {
    (Day(t) + 3) / 7
  }

  /** Week w holds the days 7w-3 .. 7w+3. */
  lemma WeekBounds(t: int)
    ensures 7 * Week(t) - 3 <= Day(t) <= 7 * Week(t) + 3
  {
  }

  lemma DayMonotone(s: int, t: int)
    requires s <= t
    ensures Day(s) <= Day(t)
  {
    DayBounds(s);
    DayBounds(t);
    assert (Day(s) - Day(t) - 1) * SecondsPerDay < 0;
  }

  lemma WeekMonotone(s: int, t: int)
    requires s <= t
    ensures Week(s) <= Week(t)
  {
    DayMonotone(s, t);
  }

  /** Grouping keys. */
  function EventDay(e: Event): int { Day(e.time) }
  function EventUser(e: Event): int { e.user }
  function EventProduct(e: Event): Option<int> { e.product }
  function EventSession(e: Event): Option<int> { e.session }

  /** CASE WHEN event_type = 'purchase' THEN price ELSE 0 END. */
  function PurchasePrice(e: Event): int {
    if e.kind == Purchase then e.price else 0
  }

  predicate IsPurchase(e: Event) { e.kind == Purchase }
  function Price(e: Event): int { e.price }

  /** WHERE event_type = 'purchase'. */
  function Purchases(es: seq<Event>): (ps: seq<Event>)
    ensures forall e :: e in ps <==> e in es && e.kind == Purchase
  {
    Filter(es, IsPurchase)
  }

  /** Counting with any predicate that tests for type k is KindCount. */
  lemma KindCountBy(g: seq<Event>, k: EventType, p: Event -> bool)
    requires forall e :: p(e) == (e.kind == k)
    ensures Count(g, p) == KindCount(g, k)
  {
    CountCongruent(g, p, (e: Event) => e.kind == k);
  }

  /** Number of events of one type. */
  function KindCount(g: seq<Event>, k: EventType): nat {
    Count(g, (e: Event) => e.kind == k)
  }

  /** SUM(CASE WHEN event_type = k THEN 1 ELSE 0 END). */
  function FlagSum(g: seq<Event>, k: EventType): int {
    Sum(g, (e: Event) => if e.kind == k then 1 else 0)
  }

  /** Summing the 0/1 flag of a type counts the events of that type. */
  lemma FlagSumCounts(g: seq<Event>, k: EventType)
    ensures FlagSum(g, k) == KindCount(g, k)
  {
    SumIndicator(g, (e: Event) => e.kind == k, 1, (e: Event) => if e.kind == k then 1 else 0);
  }

  /** Summing 1 per event counts the events (COUNT(*)). */
  function One(e: Event): int { 1 }

  lemma CountStar(g: seq<Event>)
    ensures Sum(g, One) == |g|
  {
    SumOnes(g, One);
  }

  /** Revenue: the sum of purchase prices. */
  function Revenue(g: seq<Event>): int {
    Sum(g, PurchasePrice)
  }

  /** The four event types partition the events. */
  lemma {:induction false} KindCountsPartition(g: seq<Event>)
    ensures KindCount(g, View) + KindCount(g, Cart) + KindCount(g, RemoveFromCart) + KindCount(g, Purchase) == |g|
  {
    if g != [] {
      KindCountsPartition(g[1..]);
    }
  }

  /** Revenue comes from purchase events only: none means zero. */
  lemma {:induction false} RevenueWithoutPurchases(g: seq<Event>)
    requires KindCount(g, Purchase) == 0
    ensures Revenue(g) == 0
  {
    if g != [] {
      assert g[0].kind != Purchase;
      RevenueWithoutPurchases(g[1..]);
    }
  }

  /** Whether some event of g has type k (BOOL_OR / MAX of a 0-1 flag). */
  predicate HasKind(g: seq<Event>, k: EventType) {
    exists e :: e in g && e.kind == k
  }

  lemma HasKindCount(g: seq<Event>, k: EventType)
    ensures HasKind(g, k) <==> KindCount(g, k) > 0
  {
    var f := Filter(g, (e: Event) => e.kind == k);
    if HasKind(g, k) {
      var e :| e in g && e.kind == k;
      assert e in f;
    }
    if |f| > 0 {
      assert f[0] in f;
    }
  }

  predicate HasSession(e: Event) { e.session.Some? }
  function SessionOf(e: Event): int { e.session.GetOr(0) }

  /** The events of g that belong to a session (WHERE user_session IS NOT NULL). */
  function WithSession(g: seq<Event>): (w: seq<Event>)
    ensures |w| <= |g|
    ensures forall e :: e in w <==> e in g && e.session.Some?
  {
    Filter(g, HasSession)
  }

  /** The non-null sessions of g, each once: COUNT(DISTINCT user_session). */
  function SessionIds(g: seq<Event>): (ids: seq<int>)
    ensures NoDup(ids)
    ensures |ids| <= |g|
    ensures forall id :: id in ids <==> exists e :: e in g && e.session == Some(id)
  {
    var w := WithSession(g);
    var ids := Keys(w, SessionOf);
    assert forall id :: id in ids ==> exists e :: e in g && e.session == Some(id) by {
      forall id | id in ids ensures exists e :: e in g && e.session == Some(id) {
        var e :| e in w && SessionOf(e) == id;
      }
    }
    assert forall e :: e in g && e.session.Some? ==> e.session.value in ids by {
      forall e | e in g && e.session.Some? ensures e.session.value in ids {
        assert e in w;
      }
    }
    ids
  }

  /** The users of g, each once: COUNT(DISTINCT user_id). */
  function UserIds(g: seq<Event>): (ids: seq<int>)
    ensures NoDup(ids)
    ensures |ids| <= |g|
    ensures g != [] ==> |ids| >= 1
    ensures forall u :: u in ids <==> exists e :: e in g && e.user == u
  {
    var ids := Keys(g, EventUser);
    assert g != [] ==> g[0] in g && g[0].user in ids;
    ids
  }

  /** The times of g. */
  function Times(g: seq<Event>): (ts: seq<int>)
    ensures |ts| == |g|
    ensures forall t :: t in ts <==> exists e :: e in g && e.time == t
  {
    var ts := MapSeq(g, (e: Event) => e.time);
    assert forall e :: e in g ==> e.time in ts by {
      forall e | e in g ensures e.time in ts {
        var i :| 0 <= i < |g| && g[i] == e;
        assert ts[i] == e.time;
      }
    }
    ts
  }

  /** MIN(event_time) over a non-empty group. */
  function FirstTime(g: seq<Event>): (t: int)
    requires g != []
    ensures exists e :: e in g && e.time == t
    ensures forall e :: e in g ==> t <= e.time
  {
    var ts := Times(g);
    assert forall e :: e in g ==> e.time in ts;
    MinOf(ts)
  }

  /** MAX(event_time) over a non-empty group. */
  function LastTime(g: seq<Event>): (t: int)
    requires g != []
    ensures exists e :: e in g && e.time == t
    ensures forall e :: e in g ==> e.time <= t
  {
    var ts := Times(g);
    assert forall e :: e in g ==> e.time in ts;
    MaxOf(ts)
  }

  lemma FirstNotAfterLast(g: seq<Event>)
    requires g != []
    ensures FirstTime(g) <= LastTime(g)
  {
    assert g[0] in g;
  }

  /** The category codes of the view events of g that have one. */
  function ViewedCategories(g: seq<Event>): (cs: seq<string>)
    ensures forall c :: c in cs <==> exists e :: e in g && e.kind == View && e.categoryCode == Some(c)
  {
    var views := Filter(g, (e: Event) => e.kind == View && e.categoryCode.Some?);
    var cs := MapSeq(views, (e: Event) => e.categoryCode.GetOr([]));
    assert forall e :: e in views ==> e.categoryCode.GetOr([]) in cs by {
      forall e | e in views ensures e.categoryCode.GetOr([]) in cs {
        var i :| 0 <= i < |views| && views[i] == e;
        assert cs[i] == e.categoryCode.GetOr([]);
      }
    }
    assert forall c :: c in cs ==> exists e :: e in views && e.categoryCode == Some(c) by {
      forall c | c in cs ensures exists e :: e in views && e.categoryCode == Some(c) {
        var i :| 0 <= i < |cs| && cs[i] == c;
        assert views[i] in views;
      }
    }
    cs
  }

  /** MAX(CASE WHEN event_type = 'view' THEN category_code END): the greatest
      viewed category code, NULL when no view carries one. */
  function MaxViewedCategory(g: seq<Event>): (c: Option<string>)
    ensures c.None? <==> !exists e :: e in g && e.kind == View && e.categoryCode.Some?
    ensures c.Some? ==> exists e :: e in g && e.kind == View && e.categoryCode == c
    ensures c.Some? ==> forall e :: e in g && e.kind == View && e.categoryCode.Some? ==> LexLe(e.categoryCode.value, c.value)
  {
    var cs := ViewedCategories(g);
    if cs == [] then None
    else
      assert cs[0] in cs;
      Some(MaxString(cs))
  }
}
