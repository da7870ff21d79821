/** Sessionization: the fact_sessions table (one row per non-null
    user_session) and the session-based conversion funnel computed from it. */
module Sessionization {
  import opened Wrappers
  import opened Relational
  import opened Events

  /** One row of fact_sessions. */
  datatype SessionRow = SessionRow(
    session: int,
    user: int,
    start: int,
    end: int,
    durationSec: int,
    eventCount: int,
    hasView: bool,
    hasCart: bool,
    hasRemove: bool,
    hasPurchase: bool,
    revenue: int,
    topCategory: Option<string>)

  /** The events of one session, after WHERE user_session IS NOT NULL. */
  function SessionEvents(es: seq<Event>, s: int): (g: seq<Event>)
    ensures forall e :: e in g <==> e in es && e.session == Some(s)
  {
    Group(WithSession(es), SessionOf, s)
  }

  predicate HasCode(e: Event) { e.categoryCode.Some? }
  function CodeOf(e: Event): string { e.categoryCode.GetOr([]) }

  /** The non-null category codes of g, one per event. */
  function Codes(g: seq<Event>): (cs: seq<string>)
    ensures forall c :: c in cs <==> exists e :: e in g && e.categoryCode == Some(c)
  {
    var coded := Filter(g, HasCode);
    var cs := MapSeq(coded, CodeOf);
    assert forall e :: e in coded ==> CodeOf(e) in cs by {
      forall e | e in coded ensures CodeOf(e) in cs {
        var i :| 0 <= i < |coded| && coded[i] == e;
        assert cs[i] == CodeOf(e);
      }
    }
    assert forall c :: c in cs ==> exists e :: e in coded && e.categoryCode == Some(c) by {
      forall c | c in cs ensures exists e :: e in coded && e.categoryCode == Some(c) {
        var i :| 0 <= i < |cs| && cs[i] == c;
        assert coded[i] in coded;
      }
    }
    cs
  }

  /** mode(category_code): the most frequent non-null code, NULL when there is none. */
  function TopCategory(g: seq<Event>): (c: Option<string>)
    ensures c.None? <==> !exists e :: e in g && e.categoryCode.Some?
    ensures c.Some? ==> exists e :: e in g && e.categoryCode == c
    ensures c.Some? ==> forall x :: x in Codes(g) ==> multiset(Codes(g))[x] <= multiset(Codes(g))[c.value]
  {
    var cs := Codes(g);
    if cs == [] then None
    else
      assert cs[0] in cs;
      Some(Mode(cs))
  }

  /** The aggregates of one session's (non-empty) group of events. */
  function SessionRowOf(s: int, g: seq<Event>): SessionRow
    requires g != []
  {
    var start := FirstTime(g);
    var end := LastTime(g);
    SessionRow(s, MaxOf(MapSeq(g, EventUser)), start, end, end - start, |g|,
               HasKind(g, View), HasKind(g, Cart), HasKind(g, RemoveFromCart), HasKind(g, Purchase),
               Revenue(g), TopCategory(g))
  }

  function SessionRowFor(es: seq<Event>, s: int): (row: SessionRow)
    ensures row.session == s
  {
    var g := SessionEvents(es, s);
    if g == [] then SessionRow(s, 0, 0, 0, 0, 0, false, false, false, false, 0, None)
    else SessionRowOf(s, g)
  }

  function RowSession(row: SessionRow): int { row.session }

  /** fact_sessions: one row per distinct non-null user_session. */
  function FactSessions(es: seq<Event>): (r: seq<SessionRow>)
    ensures MapSeq(r, RowSession) == SessionIds(es)
  {
    var ids := SessionIds(es);
    var r := MapSeq(ids, (s: int) => SessionRowFor(es, s));
    assert MapSeq(r, RowSession) == ids;
    r
  }

  /** fact_sessions has exactly one row per session of the log, and events
      without a session are not represented. */
  lemma FactSessionsKeys(es: seq<Event>)
    ensures forall i, j :: 0 <= i < j < |FactSessions(es)| ==> FactSessions(es)[i].session != FactSessions(es)[j].session
    ensures forall e :: e in es && e.session.Some? ==> exists row :: row in FactSessions(es) && Some(row.session) == e.session
    ensures forall row :: row in FactSessions(es) ==> exists e :: e in es && e.session == Some(row.session)
  {
    var r := FactSessions(es);
    var ids := SessionIds(es);
    RowsOfKeys(r, RowSession, ids);
    forall e | e in es && e.session.Some? ensures exists row :: row in r && Some(row.session) == e.session {
      assert e.session.value in ids;
      var row :| row in r && RowSession(row) == e.session.value;
    }
    forall row | row in r ensures exists e :: e in es && e.session == Some(row.session) {
      assert RowSession(row) in ids;
    }
  }

  /** What a fact_sessions row says about its session's events. */
  ghost predicate SessionRowMeaning(es: seq<Event>, row: SessionRow) {
    var g := SessionEvents(es, row.session);
    // user_id is the largest user id seen in the session
    (exists e :: e in g && e.user == row.user) &&
    (forall e :: e in g ==> e.user <= row.user) &&
    // start and end are the earliest and latest event times
    (exists e :: e in g && e.time == row.start) &&
    (exists e :: e in g && e.time == row.end) &&
    (forall e :: e in g ==> row.start <= e.time <= row.end) &&
    // the duration is their difference, never negative
    row.durationSec == row.end - row.start >= 0 &&
    row.eventCount == |g| >= 1 &&
    // each funnel flag says whether the session holds an event of that type
    (row.hasView <==> exists e :: e in es && e.session == Some(row.session) && e.kind == View) &&
    (row.hasCart <==> exists e :: e in es && e.session == Some(row.session) && e.kind == Cart) &&
    (row.hasRemove <==> exists e :: e in es && e.session == Some(row.session) && e.kind == RemoveFromCart) &&
    (row.hasPurchase <==> exists e :: e in es && e.session == Some(row.session) && e.kind == Purchase) &&
    // revenue sums the purchase prices, and a session without a purchase earns nothing
    row.revenue == Revenue(g) &&
    (!row.hasPurchase ==> row.revenue == 0) &&
    // top_category is a most frequent category code, NULL when no event has one
    (row.topCategory.None? <==> !exists e :: e in g && e.categoryCode.Some?) &&
    (row.topCategory.Some? ==> exists e :: e in g && e.categoryCode == row.topCategory) &&
    (row.topCategory.Some? ==> forall c :: c in Codes(g) ==> multiset(Codes(g))[c] <= multiset(Codes(g))[row.topCategory.value])
  }

  /** The aggregates of a non-empty group mean what SessionRowMeaning says. */
  lemma SessionRowOfMeaning(s: int, g: seq<Event>)
    requires g != []
    ensures var row := SessionRowOf(s, g);
      (exists e :: e in g && e.user == row.user) &&
      (forall e :: e in g ==> e.user <= row.user) &&
      row.durationSec == row.end - row.start >= 0 &&
      (!row.hasPurchase ==> row.revenue == 0)
  {
    var row := SessionRowOf(s, g);
    var users := MapSeq(g, EventUser);
    assert forall e :: e in g ==> e.user in users by {
      forall e | e in g ensures e.user in users {
        var k :| 0 <= k < |g| && g[k] == e;
        assert users[k] == e.user;
      }
    }
    assert exists e :: e in g && e.user == row.user by {
      var k :| 0 <= k < |users| && users[k] == row.user;
      assert g[k] in g;
    }
    FirstNotAfterLast(g);
    if !row.hasPurchase {
      HasKindCount(g, Purchase);
      RevenueWithoutPurchases(g);
    }
  }

  /** The row built for a session of the log is the aggregate of its non-empty group. */
  lemma FactSessionsRowOf(es: seq<Event>, row: SessionRow)
    requires row in FactSessions(es)
    ensures SessionEvents(es, row.session) != []
    ensures row == SessionRowOf(row.session, SessionEvents(es, row.session))
  {
    var ids := SessionIds(es);
    var r := FactSessions(es);
    var i :| 0 <= i < |r| && r[i] == row;
    assert row.session == MapSeq(r, RowSession)[i] == ids[i];
    assert ids[i] in ids;
    var w :| w in es && w.session == Some(row.session);
    assert w in SessionEvents(es, row.session);
  }

  lemma FactSessionsRow(es: seq<Event>, row: SessionRow)
    requires row in FactSessions(es)
    ensures SessionRowMeaning(es, row)
  {
    FactSessionsRowOf(es, row);
    SessionRowOfMeaning(row.session, SessionEvents(es, row.session));
  }

  function EventCountColumn(row: SessionRow): int { row.eventCount }
  function RevenueColumn(row: SessionRow): int { row.revenue }

  lemma SessionColumns(es: seq<Event>, s: int)
    ensures EventCountColumn(SessionRowFor(es, s)) == Sum(SessionEvents(es, s), One)
    ensures RevenueColumn(SessionRowFor(es, s)) == Sum(SessionEvents(es, s), PurchasePrice)
  {
    CountStar(SessionEvents(es, s));
  }

  /** Summing fact_sessions gives back every event that has a session, and
      all the revenue those events carry. */
  lemma SessionTotals(es: seq<Event>)
    ensures Sum(FactSessions(es), EventCountColumn) == |WithSession(es)|
    ensures Sum(FactSessions(es), RevenueColumn) == Revenue(WithSession(es))
  {
    var ws := WithSession(es);
    var ids := SessionIds(es);
    var mk := (s: int) => SessionRowFor(es, s);
    assert FactSessions(es) == MapSeq(ids, mk);
    assert forall e :: e in ws ==> SessionOf(e) in ids;
    forall s | s in ids
      ensures EventCountColumn(mk(s)) == Sum(Group(ws, SessionOf, s), One)
      ensures RevenueColumn(mk(s)) == Sum(Group(ws, SessionOf, s), PurchasePrice)
    {
      SessionColumns(es, s);
    }
    GroupedSum(ws, SessionOf, ids, mk, EventCountColumn, One);
    GroupedSum(ws, SessionOf, ids, mk, RevenueColumn, PurchasePrice);
    CountStar(ws);
  }

  /** The funnel query's single result row. The three counts are SUM over
      fact_sessions (NULL when it is empty); each rate divides two of them
      and is NULL when either side is NULL or the divisor is 0. */
  datatype Funnel = Funnel(
    sessionsWithView: Option<int>,
    sessionsWithCart: Option<int>,
    sessionsWithPurchase: Option<int>,
    viewToCartRate: Option<real>,
    cartToPurchaseRate: Option<real>,
    overallConversion: Option<real>)

  /** SUM(...) over a table: NULL over no rows. */
  function SqlSum(rows: seq<SessionRow>, f: SessionRow -> int): (r: Option<int>)
    ensures r.None? <==> rows == []
  {
    if rows == [] then None else Some(Sum(rows, f))
  }

  /** a / b as a double; NULL when an operand is NULL or b is 0. */
  function SqlDiv(a: Option<int>, b: Option<int>): (r: Option<real>)
    ensures r.Some? <==> a.Some? && b.Some? && b.value != 0
    ensures r.Some? ==> r.value * b.value as real == a.value as real
  {
    if a.Some? && b.Some? && b.value != 0 then Some(a.value as real / b.value as real) else None
  }

  function ViewFlag(row: SessionRow): int { if row.hasView then 1 else 0 }
  function CartFlag(row: SessionRow): int { if row.hasCart then 1 else 0 }
  function PurchaseFlag(row: SessionRow): int { if row.hasPurchase then 1 else 0 }

  predicate RowHasView(row: SessionRow) { row.hasView }
  predicate RowHasCart(row: SessionRow) { row.hasCart }
  predicate RowHasPurchase(row: SessionRow) { row.hasPurchase }

  function FunnelOf(rows: seq<SessionRow>): Funnel {
    var views := SqlSum(rows, ViewFlag);
    var carts := SqlSum(rows, CartFlag);
    var purchases := SqlSum(rows, PurchaseFlag);
    Funnel(views, carts, purchases,
           SqlDiv(carts, views), SqlDiv(purchases, carts), SqlDiv(purchases, Some(|rows|)))
  }

  /** The funnel of the session-based conversion analysis. */
  function SessionFunnel(es: seq<Event>): Funnel {
    FunnelOf(FactSessions(es))
  }

  /** Each count is the number of sessions carrying the step, and the
      overall conversion is a fraction of all sessions: it is NULL exactly
      when there are no sessions and otherwise lies in [0, 1]. */
  lemma {:induction false} FunnelCounts(rows: seq<SessionRow>)
    requires rows != []
    ensures FunnelOf(rows).sessionsWithView == Some(Count(rows, RowHasView))
    ensures FunnelOf(rows).sessionsWithCart == Some(Count(rows, RowHasCart))
    ensures FunnelOf(rows).sessionsWithPurchase == Some(Count(rows, RowHasPurchase))
    ensures FunnelOf(rows).overallConversion.Some?
    ensures 0.0 <= FunnelOf(rows).overallConversion.value <= 1.0
  {
    SumIndicator(rows, RowHasView, 1, ViewFlag);
    SumIndicator(rows, RowHasCart, 1, CartFlag);
    SumIndicator(rows, RowHasPurchase, 1, PurchaseFlag);
    var p := Count(rows, RowHasPurchase);
    assert p <= |rows|;
    FractionBounds(p, |rows|);
  }

  /** A rate is NULL exactly when its denominator counts no session, and
      with no session at all every column of the funnel is NULL. */
  lemma FunnelNulls(rows: seq<SessionRow>)
    ensures FunnelOf(rows).viewToCartRate.None? <==> rows == [] || Count(rows, RowHasView) == 0
    ensures FunnelOf(rows).cartToPurchaseRate.None? <==> rows == [] || Count(rows, RowHasCart) == 0
    ensures FunnelOf(rows).overallConversion.None? <==> rows == []
  {
    if rows != [] {
      FunnelCounts(rows);
    }
  }

  predicate SessionHasKind(es: seq<Event>, k: EventType, s: int) {
    exists e :: e in es && e.session == Some(s) && e.kind == k
  }
  predicate SessionHasView(es: seq<Event>, s: int) { SessionHasKind(es, View, s) }
  predicate SessionHasCart(es: seq<Event>, s: int) { SessionHasKind(es, Cart, s) }
  predicate SessionHasPurchase(es: seq<Event>, s: int) { SessionHasKind(es, Purchase, s) }

  /** Over the event log, each funnel count is the number of distinct
      sessions that contain an event of that type. */
  lemma SessionFunnelCounts(es: seq<Event>)
    requires exists e :: e in es && e.session.Some?
    ensures SessionFunnel(es).sessionsWithView == Some(Count(SessionIds(es), s => SessionHasView(es, s)))
    ensures SessionFunnel(es).sessionsWithCart == Some(Count(SessionIds(es), s => SessionHasCart(es, s)))
    ensures SessionFunnel(es).sessionsWithPurchase == Some(Count(SessionIds(es), s => SessionHasPurchase(es, s)))
  {
    var ids := SessionIds(es);
    var mk := (s: int) => SessionRowFor(es, s);
    var rows := FactSessions(es);
    assert rows == MapSeq(ids, mk);
    var e :| e in es && e.session.Some?;
    assert e.session.value in ids;
    assert rows != [];
    forall s | s in ids
      ensures RowHasView(mk(s)) == SessionHasView(es, s)
      ensures RowHasCart(mk(s)) == SessionHasCart(es, s)
      ensures RowHasPurchase(mk(s)) == SessionHasPurchase(es, s)
    {
      SessionRowFlags(es, s);
    }
    FunnelCounts(rows);
    CountMapSeq(ids, mk, RowHasView, s => SessionHasView(es, s));
    CountMapSeq(ids, mk, RowHasCart, s => SessionHasCart(es, s));
    CountMapSeq(ids, mk, RowHasPurchase, s => SessionHasPurchase(es, s));
  }

  /** The row of a session flags exactly the event types the session contains. */
  lemma SessionRowFlags(es: seq<Event>, s: int)
    requires s in SessionIds(es)
    ensures RowHasView(SessionRowFor(es, s)) == SessionHasView(es, s)
    ensures RowHasCart(SessionRowFor(es, s)) == SessionHasCart(es, s)
    ensures RowHasPurchase(SessionRowFor(es, s)) == SessionHasPurchase(es, s)
  {
    var ids := SessionIds(es);
    var rows := FactSessions(es);
    var i :| 0 <= i < |ids| && ids[i] == s;
    assert rows[i] == SessionRowFor(es, s);
    assert rows[i] in rows;
    FactSessionsRow(es, rows[i]);
  }
}
