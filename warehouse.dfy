/** The warehouse tables of the deployed dashboard, built by
    scripts/create_cloud_database.py and again, statement for statement, by
    the in-memory loader of app/db_utils.py: dim_products without the NULL
    product, dim_users with an integer is_buyer flag (absent from the
    in-memory copy), fact_sessions grouped by (user_session, user_id), and
    the number formatting helper of the dashboard. */
module Warehouse {
  import opened Wrappers
  import opened Relational
  import opened Events
  import opened InitialModeling

  // ---------------------------------------------------------------------
  // dim_products: DISTINCT ON (product_id) ... WHERE product_id IS NOT NULL

  predicate HasProduct(e: Event) { e.product.Some? }

  /** The events that name a product. */
  function CatalogEvents(es: seq<Event>): (g: seq<Event>)
    ensures forall e :: e in g <==> e in es && e.product.Some?
  {
    Filter(es, HasProduct)
  }

  /** dim_products of the warehouse: the dim_products query run on the
      events that name a product. No row has a NULL product. */
  function WarehouseProducts(es: seq<Event>): (r: seq<ProductRow>)
    ensures forall row :: row in r ==> row.product.Some?
  {
    var g := CatalogEvents(es);
    var r := DimProducts(g);
    DimProductsKeys(g);
    r
  }

  /** One row per non-NULL product_id of the log, and nothing else. */
  lemma WarehouseProductsKeys(es: seq<Event>)
    ensures forall i, j :: 0 <= i < j < |WarehouseProducts(es)| ==>
      WarehouseProducts(es)[i].product != WarehouseProducts(es)[j].product
    ensures forall e :: e in es && e.product.Some? ==> exists row :: row in WarehouseProducts(es) && row.product == e.product
    ensures forall row :: row in WarehouseProducts(es) ==> exists e :: e in es && e.product == row.product
  {
    DimProductsKeys(CatalogEvents(es));
  }

  /** Each row is read off an event of its product with maximal event_time
      in the whole log, with 'unknown' for a NULL category code or brand. */
  lemma WarehouseProductsLatest(es: seq<Event>, row: ProductRow)
    requires row in WarehouseProducts(es)
    ensures exists e :: (e in es && e.product == row.product && ProductRowOf(e) == row &&
                         forall x :: x in es && x.product == row.product ==> x.time <= e.time)
    ensures row.categoryCode == "unknown" || exists e :: e in es && e.product == row.product && e.categoryCode == Some(row.categoryCode)
    ensures row.brand == "unknown" || exists e :: e in es && e.product == row.product && e.brand == Some(row.brand)
  {
    var g := CatalogEvents(es);
    DimProductsLatest(g, row);
    var e :| e in g && e.product == row.product && ProductRowOf(e) == row &&
      forall x :: x in g && x.product == row.product ==> x.time <= e.time;
    assert row.product.Some?;
    forall x | x in es && x.product == row.product ensures x.time <= e.time {
      assert x in g;
    }
  }

  // ---------------------------------------------------------------------
  // dim_users: GROUP BY user_id

  /** A dim_users row of the cloud script: is_buyer is MAX of a 0/1 flag. */
  datatype WarehouseUserRow = WarehouseUserRow(
    user: int,
    firstSeen: int,
    lastSeen: int,
    eventCount: int,
    sessionCount: nat,
    purchaseCount: int,
    totalSpend: int,
    isBuyer: int)

  /** A dim_users row of the in-memory loader, which has no is_buyer column. */
  datatype AppUserRow = AppUserRow(
    user: int,
    firstSeen: int,
    lastSeen: int,
    eventCount: int,
    sessionCount: nat,
    purchaseCount: int,
    totalSpend: int)

  function BuyerFlag(row: UserRow): int { if row.isBuyer then 1 else 0 }

  function WarehouseUserOf(row: UserRow): WarehouseUserRow {
    WarehouseUserRow(row.user, row.firstSeen, row.lastSeen, row.eventCount, row.sessionCount,
                     row.purchaseCount, row.totalSpend, BuyerFlag(row))
  }

  function AppUserOf(row: UserRow): AppUserRow {
    AppUserRow(row.user, row.firstSeen, row.lastSeen, row.eventCount, row.sessionCount,
               row.purchaseCount, row.totalSpend)
  }

  /** dim_users of the cloud script: one row per user_id of the log. */
  function WarehouseUsers(es: seq<Event>): (r: seq<WarehouseUserRow>)
    ensures |r| == |UserIds(es)|
    ensures forall i :: 0 <= i < |r| ==> r[i].user == UserIds(es)[i]
  {
    var rows := DimUsers(es);
    assert forall i :: 0 <= i < |rows| ==> rows[i].user == MapSeq(rows, RowUser)[i];
    MapSeq(rows, WarehouseUserOf)
  }

  /** dim_users of the in-memory loader: one row per user_id of the log. */
  function AppUsers(es: seq<Event>): (r: seq<AppUserRow>)
    ensures |r| == |UserIds(es)|
    ensures forall i :: 0 <= i < |r| ==> r[i].user == UserIds(es)[i]
  {
    var rows := DimUsers(es);
    assert forall i :: 0 <= i < |rows| ==> rows[i].user == MapSeq(rows, RowUser)[i];
    MapSeq(rows, AppUserOf)
  }

  /** What a cloud dim_users row says: first_seen and last_seen are the
      user's earliest and latest event times, session_count the user's
      distinct sessions, at least one event, purchases counted among them,
      spend summing purchase prices only, and is_buyer 1 exactly for users
      with a purchase, else 0. */
  lemma WarehouseUsersRow(es: seq<Event>, row: WarehouseUserRow)
    requires row in WarehouseUsers(es)
    ensures Group(es, EventUser, row.user) != []
    ensures row.firstSeen == FirstTime(Group(es, EventUser, row.user))
    ensures row.lastSeen == LastTime(Group(es, EventUser, row.user))
    ensures row.sessionCount == |SessionIds(Group(es, EventUser, row.user))|
    ensures row.firstSeen <= row.lastSeen
    ensures row.eventCount == |Group(es, EventUser, row.user)| >= 1
    ensures row.purchaseCount == KindCount(Group(es, EventUser, row.user), Purchase) <= row.eventCount
    ensures row.totalSpend == Revenue(Group(es, EventUser, row.user))
    ensures row.isBuyer == 0 || row.isBuyer == 1
    ensures row.isBuyer == 1 <==> exists e :: e in es && e.user == row.user && e.kind == Purchase
    ensures row.isBuyer == 1 <==> row.purchaseCount > 0
  {
    var rows := DimUsers(es);
    var r := WarehouseUsers(es);
    var i :| 0 <= i < |r| && r[i] == row;
    assert rows[i] in rows;
    DimUsersRow(es, rows[i]);
  }

  /** What an in-memory dim_users row says: the same times, counts and
      sums, with purchase_count and total_spend taken over purchase events
      only. */
  lemma AppUsersRow(es: seq<Event>, row: AppUserRow)
    requires row in AppUsers(es)
    ensures Group(es, EventUser, row.user) != []
    ensures row.firstSeen == FirstTime(Group(es, EventUser, row.user))
    ensures row.lastSeen == LastTime(Group(es, EventUser, row.user))
    ensures row.sessionCount == |SessionIds(Group(es, EventUser, row.user))|
    ensures row.firstSeen <= row.lastSeen
    ensures row.eventCount == |Group(es, EventUser, row.user)| >= 1
    ensures row.purchaseCount == KindCount(Group(es, EventUser, row.user), Purchase) <= row.eventCount
    ensures row.totalSpend == Revenue(Group(es, EventUser, row.user))
    ensures row.purchaseCount == 0 ==> row.totalSpend == 0
  {
    var rows := DimUsers(es);
    var r := AppUsers(es);
    var i :| 0 <= i < |r| && r[i] == row;
    assert rows[i] in rows;
    DimUsersRow(es, rows[i]);
  }

  /** Both copies of dim_users have one row per user of the log, each once. */
  lemma WarehouseUsersKeys(es: seq<Event>)
    ensures forall i, j :: 0 <= i < j < |WarehouseUsers(es)| ==> WarehouseUsers(es)[i].user != WarehouseUsers(es)[j].user
    ensures forall i, j :: 0 <= i < j < |AppUsers(es)| ==> AppUsers(es)[i].user != AppUsers(es)[j].user
    ensures forall e :: e in es ==> exists row :: row in WarehouseUsers(es) && row.user == e.user
    ensures forall e :: e in es ==> exists row :: row in AppUsers(es) && row.user == e.user
  {
    var us := UserIds(es);
    var r := WarehouseUsers(es);
    var a := AppUsers(es);
    forall e | e in es
      ensures (exists row :: row in r && row.user == e.user) && (exists row :: row in a && row.user == e.user)
    {
      var i :| 0 <= i < |us| && us[i] == e.user;
      assert r[i] in r && a[i] in a;
    }
  }

  // ---------------------------------------------------------------------
  // fact_sessions: GROUP BY user_session, user_id

  /** The grouping key: the session (NULL is a group of its own) and the user. */
  function SessionUserOf(e: Event): (Option<int>, int) { (e.session, e.user) }

  function ProductOf(e: Event): int { e.product.GetOr(0) }

  /** COUNT(DISTINCT product_id): the non-NULL products of g, each once. */
  function ProductIds(g: seq<Event>): (ps: seq<int>)
    ensures NoDup(ps)
    ensures |ps| <= |g|
    ensures forall p :: p in ps <==> exists e :: e in g && e.product == Some(p)
  {
    var w := CatalogEvents(g);
    var ps := Keys(w, ProductOf);
    assert forall e :: e in g && e.product.Some? ==> e.product.value in ps by {
      forall e | e in g && e.product.Some? ensures e.product.value in ps {
        assert e in w;
      }
    }
    ps
  }

  /** One row of the warehouse fact_sessions. */
  datatype WarehouseSessionRow = WarehouseSessionRow(
    session: Option<int>,
    user: int,
    start: int,
    end: int,
    durationSec: int,
    eventCount: int,
    uniqueProducts: nat,
    hasPurchase: int,
    revenue: int)

  /** The aggregates of one (session, user) group. */
  function WarehouseSessionRowOf(k: (Option<int>, int), g: seq<Event>): WarehouseSessionRow
    requires g != []
  {
    var start := FirstTime(g);
    var end := LastTime(g);
    WarehouseSessionRow(k.0, k.1, start, end, end - start, |g|, |ProductIds(g)|,
                        if HasKind(g, Purchase) then 1 else 0, Revenue(g))
  }

  function WarehouseSessionRowFor(es: seq<Event>, k: (Option<int>, int)): WarehouseSessionRow {
    var g := Group(es, SessionUserOf, k);
    if g == [] then WarehouseSessionRow(k.0, k.1, 0, 0, 0, 0, 0, 0, 0)
    else WarehouseSessionRowOf(k, g)
  }

  function RowKey(row: WarehouseSessionRow): (Option<int>, int) { (row.session, row.user) }

  /** fact_sessions of the warehouse: one row per distinct (user_session,
      user_id) pair of the log, the NULL session included. */
  function WarehouseSessions(es: seq<Event>): (r: seq<WarehouseSessionRow>)
    ensures MapSeq(r, RowKey) == Keys(es, SessionUserOf)
  {
    var ks := Keys(es, SessionUserOf);
    var r := MapSeq(ks, (k: (Option<int>, int)) => WarehouseSessionRowFor(es, k));
    assert MapSeq(r, RowKey) == ks;
    r
  }

  /** Exactly one row per (session, user) pair of the log, and every event,
      with or without a session, falls in one of them. */
  lemma WarehouseSessionsKeys(es: seq<Event>)
    ensures forall i, j :: 0 <= i < j < |WarehouseSessions(es)| ==> RowKey(WarehouseSessions(es)[i]) != RowKey(WarehouseSessions(es)[j])
    ensures forall e :: e in es ==> exists row :: row in WarehouseSessions(es) && RowKey(row) == SessionUserOf(e)
    ensures forall row :: row in WarehouseSessions(es) ==> exists e :: e in es && SessionUserOf(e) == RowKey(row)
  {
    KeyedRows(es, SessionUserOf, WarehouseSessions(es), RowKey);
  }

  /** The row of a pair of the log aggregates its non-empty group. */
  lemma WarehouseSessionsRowOf(es: seq<Event>, row: WarehouseSessionRow)
    requires row in WarehouseSessions(es)
    ensures Group(es, SessionUserOf, RowKey(row)) != []
    ensures row == WarehouseSessionRowOf(RowKey(row), Group(es, SessionUserOf, RowKey(row)))
  {
    var ks := Keys(es, SessionUserOf);
    var r := WarehouseSessions(es);
    var i :| 0 <= i < |r| && r[i] == row;
    assert RowKey(row) == MapSeq(r, RowKey)[i] == ks[i];
    assert ks[i] in ks;
    KeyGroupNonEmpty(es, SessionUserOf, ks[i]);
  }

  /** What a warehouse fact_sessions row says about its group of events. */
  ghost predicate WarehouseSessionMeaning(es: seq<Event>, row: WarehouseSessionRow) {
    var g := Group(es, SessionUserOf, RowKey(row));
    (exists e :: e in g && e.time == row.start) &&
    (exists e :: e in g && e.time == row.end) &&
    (forall e :: e in g ==> row.start <= e.time <= row.end) &&
    row.durationSec == row.end - row.start >= 0 &&
    row.eventCount == |g| >= 1 &&
    // unique_products counts the distinct non-NULL products of the group
    (forall p :: p in ProductIds(g) <==> exists e :: e in g && e.product == Some(p)) &&
    row.uniqueProducts == |ProductIds(g)| <= row.eventCount &&
    // has_purchase is 1 exactly when the group holds a purchase, else 0
    (row.hasPurchase == 0 || row.hasPurchase == 1) &&
    (row.hasPurchase == 1 <==> exists e :: e in g && e.kind == Purchase) &&
    row.revenue == Revenue(g) &&
    (row.hasPurchase == 0 ==> row.revenue == 0)
  }

  lemma WarehouseSessionsRow(es: seq<Event>, row: WarehouseSessionRow)
    requires row in WarehouseSessions(es)
    ensures WarehouseSessionMeaning(es, row)
  {
    WarehouseSessionsRowOf(es, row);
    var g := Group(es, SessionUserOf, RowKey(row));
    FirstNotAfterLast(g);
    if row.hasPurchase == 0 {
      HasKindCount(g, Purchase);
      RevenueWithoutPurchases(g);
    }
  }

  function SessionEventsColumn(row: WarehouseSessionRow): int { row.eventCount }
  function SessionRevenueColumn(row: WarehouseSessionRow): int { row.revenue }

  lemma WarehouseSessionColumns(es: seq<Event>, k: (Option<int>, int))
    ensures SessionEventsColumn(WarehouseSessionRowFor(es, k)) == Sum(Group(es, SessionUserOf, k), One)
    ensures SessionRevenueColumn(WarehouseSessionRowFor(es, k)) == Sum(Group(es, SessionUserOf, k), PurchasePrice)
  {
    CountStar(Group(es, SessionUserOf, k));
  }

  /** Unlike the sessionizer's table, this one loses no event: the event
      counts add up to the whole log, and the revenues to all revenue. */
  lemma WarehouseSessionTotals(es: seq<Event>)
    ensures Sum(WarehouseSessions(es), SessionEventsColumn) == |es|
    ensures Sum(WarehouseSessions(es), SessionRevenueColumn) == Revenue(es)
  {
    var ks := Keys(es, SessionUserOf);
    var mk := (k: (Option<int>, int)) => WarehouseSessionRowFor(es, k);
    assert WarehouseSessions(es) == MapSeq(ks, mk);
    forall k | k in ks
      ensures SessionEventsColumn(mk(k)) == Sum(Group(es, SessionUserOf, k), One)
      ensures SessionRevenueColumn(mk(k)) == Sum(Group(es, SessionUserOf, k), PurchasePrice)
    {
      WarehouseSessionColumns(es, k);
    }
    GroupedSum(es, SessionUserOf, ks, mk, SessionEventsColumn, One);
    GroupedSum(es, SessionUserOf, ks, mk, SessionRevenueColumn, PurchasePrice);
    CountStar(es);
  }

  // ---------------------------------------------------------------------
  // format_number

  /** The display form of a number: the value scaled to millions, to
      thousands, or unscaled; the decimal rendering is not modelled. */
  datatype Display = Millions(scaled: real) | Thousands(scaled: real) | Plain(value: real)

  function Suffix(d: Display): string {
    match d
    case Millions(_) => "M"
    case Thousands(_) => "K"
    case Plain(_) => ""
  }

  /** format_number: 'M' from one million up, 'K' from one thousand up to
      below a million, no suffix below a thousand; the shown figure times
      the suffix's scale gives the value back, and a suffixed figure is at
      least 1. */
  function FormatNumber(val: real): (d: Display)
    ensures Suffix(d) == "M" <==> val >= 1000000.0
    ensures Suffix(d) == "K" <==> 1000.0 <= val < 1000000.0
    ensures Suffix(d) == "" <==> val < 1000.0
    ensures d.Millions? ==> d.scaled * 1000000.0 == val && d.scaled >= 1.0
    ensures d.Thousands? ==> d.scaled * 1000.0 == val && 1.0 <= d.scaled < 1000.0
    ensures d.Plain? ==> d.value == val
  {
    if val >= 1000000.0 then Millions(val / 1000000.0)
    else if val >= 1000.0 then Thousands(val / 1000.0)
    else Plain(val)
  }
}
