/** The three dimensional tables built from the raw event log
    (src/processing/initial_modeling.py): dim_products, fact_daily_kpis and
    dim_users. */
module InitialModeling {
  import opened Wrappers
  import opened Relational
  import opened Events

  // ---------------------------------------------------------------------
  // dim_products: DISTINCT ON (product_id) ... ORDER BY product_id, event_time DESC

  datatype ProductRow = ProductRow(
    product: Option<int>,
    categoryId: int,
    categoryCode: string,
    brand: string,
    currentPrice: int)

  /** COALESCE(column, 'unknown'). */
  function OrUnknown(c: Option<string>): (s: string)
    ensures c.Some? ==> s == c.value
    ensures c.None? ==> s == "unknown"
  {
    c.GetOr("unknown")
  }

  /** An event of g with the greatest event_time: the row DISTINCT ON keeps.
      Among several events at that time the first in the log is taken. */
  function Latest(g: seq<Event>): (e: Event)
    requires g != []
    ensures e in g
    ensures forall x :: x in g ==> x.time <= e.time
  {
    if |g| == 1 then g[0]
    else
      var rest := Latest(g[1..]);
      assert g == [g[0]] + g[1..];
      if g[0].time >= rest.time then g[0] else rest
  }

  /** The dim_products row read off one event. */
  function ProductRowOf(e: Event): ProductRow {
    ProductRow(e.product, e.categoryId, OrUnknown(e.categoryCode), OrUnknown(e.brand), e.price)
  }

  /** The row of product p was read off an event of p with maximal event_time. */
  ghost predicate IsLatestRow(es: seq<Event>, row: ProductRow) {
    exists e :: e in es && e.product == row.product && ProductRowOf(e) == row &&
      forall x :: x in es && x.product == row.product ==> x.time <= e.time
  }

  /** The dim_products row of product p (every product of the table has events). */
  function ProductRowFor(es: seq<Event>, p: Option<int>): (row: ProductRow)
    ensures row.product == p
  {
    var g := Group(es, EventProduct, p);
    if g == [] then ProductRow(p, 0, "unknown", "unknown", 0) else ProductRowOf(Latest(g))
  }

  function RowProduct(row: ProductRow): Option<int> { row.product }

  /** One row per distinct product_id (NULL included, as DISTINCT ON groups
      it), read off a latest event of that product. */
  function DimProducts(es: seq<Event>): (r: seq<ProductRow>)
    ensures MapSeq(r, RowProduct) == Keys(es, EventProduct)
  {
    var ks := Keys(es, EventProduct);
    var r := MapSeq(ks, (p: Option<int>) => ProductRowFor(es, p));
    assert MapSeq(r, RowProduct) == ks;
    r
  }

  /** Every row was read off an event of its product with maximal event_time. */
  lemma DimProductsLatest(es: seq<Event>, row: ProductRow)
    requires row in DimProducts(es)
    ensures IsLatestRow(es, row)
  {
    var ks := Keys(es, EventProduct);
    var r := DimProducts(es);
    var i :| 0 <= i < |r| && r[i] == row;
    assert ks[i] in ks;
    KeyGroupNonEmpty(es, EventProduct, ks[i]);
    var e := Latest(Group(es, EventProduct, ks[i]));
    assert r[i] == ProductRowFor(es, ks[i]);
    assert e in es && e.product == row.product && ProductRowOf(e) == row;
  }

  /** dim_products has exactly one row per product_id of the log. */
  lemma DimProductsKeys(es: seq<Event>)
    ensures forall i, j :: 0 <= i < j < |DimProducts(es)| ==> DimProducts(es)[i].product != DimProducts(es)[j].product
    ensures forall e :: e in es ==> exists row :: row in DimProducts(es) && row.product == e.product
    ensures forall row :: row in DimProducts(es) ==> exists e :: e in es && e.product == row.product
  {
    var r := DimProducts(es);
    var ks := Keys(es, EventProduct);
    RowsOfKeys(r, RowProduct, ks);
    forall e | e in es ensures exists row :: row in r && row.product == e.product {
      assert EventProduct(e) in ks;
      var row :| row in r && RowProduct(row) == e.product;
    }
    forall row | row in r ensures exists e :: e in es && e.product == row.product {
      assert RowProduct(row) in ks;
      var e :| e in es && EventProduct(e) == row.product;
    }
  }

  /** COALESCE: a present category code or brand is kept, a NULL one becomes 'unknown'. */
  lemma DimProductsDefaults(es: seq<Event>, row: ProductRow)
    requires row in DimProducts(es)
    ensures exists e :: (e in es && e.product == row.product &&
      row.categoryCode == (if e.categoryCode.Some? then e.categoryCode.value else "unknown") &&
      row.brand == (if e.brand.Some? then e.brand.value else "unknown") &&
      row.currentPrice == e.price)
  {
    DimProductsLatest(es, row);
    var e :| e in es && e.product == row.product && ProductRowOf(e) == row &&
      forall x :: x in es && x.product == row.product ==> x.time <= e.time;
    DefaultsWitness(es, row, e);
  }

  lemma DefaultsWitness(es: seq<Event>, row: ProductRow, e: Event)
    requires e in es && e.product == row.product && ProductRowOf(e) == row
    ensures exists e :: (e in es && e.product == row.product &&
      row.categoryCode == (if e.categoryCode.Some? then e.categoryCode.value else "unknown") &&
      row.brand == (if e.brand.Some? then e.brand.value else "unknown") &&
      row.currentPrice == e.price)
  {
  }

  // ---------------------------------------------------------------------
  // fact_daily_kpis: GROUP BY CAST(event_time AS DATE) ORDER BY 1

  datatype DailyKpi = DailyKpi(
    date: int,
    totalEvents: int,
    dau: nat,
    dailySessions: nat,
    dailyRevenue: int,
    totalPurchases: int,
    totalCarts: int,
    totalViews: int)

  /** The aggregates of one day's events. */
  function DailyKpiOf(d: int, g: seq<Event>): DailyKpi {
    DailyKpi(d, Sum(g, One), |UserIds(g)|, |SessionIds(g)|, Revenue(g),
      FlagSum(g, Purchase), FlagSum(g, Cart), FlagSum(g, View))
  }

  /** The dates with events, ascending. */
  function Days(es: seq<Event>): (days: seq<int>)
    ensures Increasing(days)
    ensures forall e :: e in es ==> Day(e.time) in days
    ensures forall d :: d in days ==> exists e :: e in es && Day(e.time) == d
  {
    var mapped := MapSeq(es, EventDay);
    assert forall e :: e in es ==> Day(e.time) in mapped by {
      forall e | e in es ensures Day(e.time) in mapped {
        var i :| 0 <= i < |es| && es[i] == e;
        assert mapped[i] == Day(e.time);
      }
    }
    assert forall d :: d in mapped ==> exists e :: e in es && Day(e.time) == d by {
      forall d | d in mapped ensures exists e :: e in es && Day(e.time) == d {
        var i :| 0 <= i < |es| && mapped[i] == d;
        assert es[i] in es;
      }
    }
    SortedDistinct(mapped)
  }

  function RowDate(row: DailyKpi): int { row.date }

  /** One row per calendar date with events, in ascending date order. */
  function FactDailyKpis(es: seq<Event>): (r: seq<DailyKpi>)
    ensures MapSeq(r, RowDate) == Days(es)
  {
    var days := Days(es);
    var r := MapSeq(days, (d: int) => DailyKpiOf(d, Group(es, EventDay, d)));
    assert MapSeq(r, RowDate) == days;
    r
  }

  /** fact_daily_kpis has one row per date with events, dates ascending. */
  lemma FactDailyKpisKeys(es: seq<Event>)
    ensures forall i, j :: 0 <= i < j < |FactDailyKpis(es)| ==> FactDailyKpis(es)[i].date < FactDailyKpis(es)[j].date
    ensures forall e :: e in es ==> exists row :: row in FactDailyKpis(es) && row.date == Day(e.time)
    ensures forall row :: row in FactDailyKpis(es) ==> exists e :: e in es && Day(e.time) == row.date
  {
    FactDailyKpisAscending(es);
    FactDailyKpisCovers(es);
    FactDailyKpisWitnessed(es);
  }

  lemma FactDailyKpisDates(es: seq<Event>)
    ensures |FactDailyKpis(es)| == |Days(es)|
    ensures forall i :: 0 <= i < |FactDailyKpis(es)| ==> FactDailyKpis(es)[i].date == Days(es)[i]
  {
    var r := FactDailyKpis(es);
    forall i | 0 <= i < |r| ensures r[i].date == Days(es)[i] {
      assert r[i].date == MapSeq(r, RowDate)[i];
    }
  }

  lemma FactDailyKpisAscending(es: seq<Event>)
    ensures forall i, j :: 0 <= i < j < |FactDailyKpis(es)| ==> FactDailyKpis(es)[i].date < FactDailyKpis(es)[j].date
  {
    FactDailyKpisDates(es);
    var r, days := FactDailyKpis(es), Days(es);
    forall i, j | 0 <= i < j < |r| ensures r[i].date < r[j].date {
      assert days[i] < days[j];
    }
  }

  lemma FactDailyKpisCovers(es: seq<Event>)
    ensures forall e :: e in es ==> exists row :: row in FactDailyKpis(es) && row.date == Day(e.time)
  {
    FactDailyKpisDates(es);
    DatesHaveRows(FactDailyKpis(es), Days(es));
  }

  /** Every date listed in `days` has a row in `r` when `r`'s dates are `days`. */
  lemma DatesHaveRows(r: seq<DailyKpi>, days: seq<int>)
    requires |r| == |days|
    requires forall i :: 0 <= i < |r| ==> r[i].date == days[i]
    ensures forall d :: d in days ==> exists row :: row in r && row.date == d
  {
    forall d | d in days ensures exists row :: row in r && row.date == d {
      var i :| 0 <= i < |days| && days[i] == d;
      assert r[i] in r;
    }
  }

  lemma FactDailyKpisWitnessed(es: seq<Event>)
    ensures forall row :: row in FactDailyKpis(es) ==> exists e :: e in es && Day(e.time) == row.date
  {
    FactDailyKpisDates(es);
    var r, days := FactDailyKpis(es), Days(es);
    forall row | row in r ensures exists e :: e in es && Day(e.time) == row.date {
      var i :| 0 <= i < |r| && r[i] == row;
      assert days[i] in days;
    }
  }

  /** Each day's row counts what happened that day: at least one event,
      its distinct users and distinct sessions (bounded by the events), its
      revenue, and the purchases, carts and views among them. */
  lemma DailyKpiRow(es: seq<Event>, row: DailyKpi)
    requires row in FactDailyKpis(es)
    ensures row.totalEvents >= 1
    ensures row.totalEvents == |Group(es, EventDay, row.date)|
    ensures row.totalPurchases == KindCount(Group(es, EventDay, row.date), Purchase)
    ensures row.totalCarts == KindCount(Group(es, EventDay, row.date), Cart)
    ensures row.totalViews == KindCount(Group(es, EventDay, row.date), View)
    ensures row.totalPurchases + row.totalCarts + row.totalViews <= row.totalEvents
    ensures row.dau == |UserIds(Group(es, EventDay, row.date))|
    ensures row.dailySessions == |SessionIds(Group(es, EventDay, row.date))|
    ensures row.dailyRevenue == Revenue(Group(es, EventDay, row.date))
    ensures 1 <= row.dau <= row.totalEvents && row.dailySessions <= row.totalEvents
  {
    var days := Days(es);
    var r := FactDailyKpis(es);
    var i :| 0 <= i < |r| && r[i] == row;
    var g := Group(es, EventDay, row.date);
    assert row == DailyKpiOf(days[i], Group(es, EventDay, days[i]));
    assert days[i] in days;
    KeyGroupNonEmpty(es, EventDay, row.date);
    CountStar(g);
    FlagSumCounts(g, Purchase);
    FlagSumCounts(g, Cart);
    FlagSumCounts(g, View);
    KindCountsPartition(g);
  }

  function EventsColumn(row: DailyKpi): int { row.totalEvents }
  function RevenueColumn(row: DailyKpi): int { row.dailyRevenue }

  /** Summing the daily rows gives back the whole log: the event counts add
      up to the number of events and the daily revenues to total revenue. */
  lemma DailyTotals(es: seq<Event>)
    ensures Sum(FactDailyKpis(es), EventsColumn) == |es|
    ensures Sum(FactDailyKpis(es), RevenueColumn) == Revenue(es)
  {
    var days := Days(es);
    var mk := (d: int) => DailyKpiOf(d, Group(es, EventDay, d));
    assert FactDailyKpis(es) == MapSeq(days, mk);
    assert Sum(FactDailyKpis(es), EventsColumn) == Sum(es, One) by {
      GroupedSum(es, EventDay, days, mk, EventsColumn, One);
    }
    assert Sum(FactDailyKpis(es), RevenueColumn) == Sum(es, PurchasePrice) by {
      GroupedSum(es, EventDay, days, mk, RevenueColumn, PurchasePrice);
    }
    CountStar(es);
  }

  // ---------------------------------------------------------------------
  // dim_users: GROUP BY user_id

  datatype UserRow = UserRow(
    user: int,
    firstSeen: int,
    lastSeen: int,
    eventCount: int,
    sessionCount: nat,
    totalSpend: int,
    purchaseCount: int,
    isBuyer: bool,
    favoriteCategory: Option<string>)

  /** The aggregates of one user's events. */
  function UserRowOf(u: int, g: seq<Event>): UserRow
    requires g != []
  {
    UserRow(u, FirstTime(g), LastTime(g), Sum(g, One), |SessionIds(g)|, Revenue(g),
      FlagSum(g, Purchase), HasKind(g, Purchase), MaxViewedCategory(g))
  }

  /** The dim_users row of user u (every user of the table has events). */
  function UserRowFor(es: seq<Event>, u: int): (row: UserRow)
    ensures row.user == u
  {
    var g := Group(es, EventUser, u);
    if g == [] then UserRow(u, 0, 0, 0, 0, 0, 0, false, None) else UserRowOf(u, g)
  }

  function RowUser(row: UserRow): int { row.user }

  /** One row per distinct user_id. */
  function DimUsers(es: seq<Event>): (r: seq<UserRow>)
    ensures MapSeq(r, RowUser) == UserIds(es)
  {
    var us := UserIds(es);
    var r := MapSeq(us, (u: int) => UserRowFor(es, u));
    assert MapSeq(r, RowUser) == us;
    r
  }

  /** dim_users has exactly one row per user_id of the log. */
  lemma DimUsersKeys(es: seq<Event>)
    ensures forall i, j :: 0 <= i < j < |DimUsers(es)| ==> DimUsers(es)[i].user != DimUsers(es)[j].user
    ensures forall e :: e in es ==> exists row :: row in DimUsers(es) && row.user == e.user
    ensures forall row :: row in DimUsers(es) ==> exists e :: e in es && e.user == row.user
  {
    var r := DimUsers(es);
    var us := UserIds(es);
    RowsOfKeys(r, RowUser, us);
    forall e | e in es ensures exists row :: row in r && row.user == e.user {
      assert e.user in us;
      var row :| row in r && RowUser(row) == e.user;
    }
    forall row | row in r ensures exists e :: e in es && e.user == row.user {
      assert RowUser(row) in us;
    }
  }

  /** What a dim_users row says about its user's events. */
  ghost predicate UserRowMeaning(es: seq<Event>, row: UserRow) {
    var g := Group(es, EventUser, row.user);
    // first_seen / last_seen are the user's earliest and latest event times
    (exists e :: e in g && e.time == row.firstSeen) &&
    (forall e :: e in g ==> row.firstSeen <= e.time <= row.lastSeen) &&
    (exists e :: e in g && e.time == row.lastSeen) &&
    row.firstSeen <= row.lastSeen &&
    // event_count is the number of the user's events, at least one
    row.eventCount == |g| >= 1 &&
    // session_count is the number of the user's distinct non-NULL sessions
    row.sessionCount == |SessionIds(g)| <= row.eventCount &&
    // purchases are counted among them and spend sums their prices
    row.purchaseCount == KindCount(g, Purchase) <= row.eventCount &&
    row.totalSpend == Revenue(g) &&
    (row.purchaseCount == 0 ==> row.totalSpend == 0) &&
    // is_buyer (BOOL_OR) holds exactly for users with a purchase
    (row.isBuyer <==> row.purchaseCount > 0) &&
    (row.isBuyer <==> exists e :: e in es && e.user == row.user && e.kind == Purchase) &&
    // favorite_category_by_recency is the greatest category code among the user's views
    (row.favoriteCategory.None? <==> !exists e :: e in g && e.kind == View && e.categoryCode.Some?) &&
    (row.favoriteCategory.Some? ==> exists e :: e in g && e.kind == View && e.categoryCode == row.favoriteCategory) &&
    (row.favoriteCategory.Some? ==> forall e :: e in g && e.kind == View && e.categoryCode.Some? ==>
      LexLe(e.categoryCode.value, row.favoriteCategory.value))
  }

  lemma DimUsersRow(es: seq<Event>, row: UserRow)
    requires row in DimUsers(es)
    ensures UserRowMeaning(es, row)
    ensures Group(es, EventUser, row.user) != []
    ensures row.firstSeen == FirstTime(Group(es, EventUser, row.user))
    ensures row.lastSeen == LastTime(Group(es, EventUser, row.user))
  {
    var us := UserIds(es);
    var r := DimUsers(es);
    var i :| 0 <= i < |r| && r[i] == row;
    var g := Group(es, EventUser, row.user);
    assert row.user == MapSeq(r, RowUser)[i] == us[i];
    assert us[i] in us;
    KeyGroupNonEmpty(es, EventUser, row.user);
    assert row == UserRowOf(row.user, g);
    FirstNotAfterLast(g);
    CountStar(g);
    FlagSumCounts(g, Purchase);
    KindCountsPartition(g);
    HasKindCount(g, Purchase);
    if row.purchaseCount == 0 {
      RevenueWithoutPurchases(g);
    }
  }

  function UserEventsColumn(row: UserRow): int { row.eventCount }
  function SpendColumn(row: UserRow): int { row.totalSpend }

  /** Summing dim_users gives back the whole log, as fact_daily_kpis does. */
  lemma UserTotals(es: seq<Event>)
    ensures Sum(DimUsers(es), UserEventsColumn) == |es|
    ensures Sum(DimUsers(es), SpendColumn) == Revenue(es)
  {
    var us := UserIds(es);
    var mk := (u: int) => UserRowFor(es, u);
    assert DimUsers(es) == MapSeq(us, mk);
    forall u | u in us
      ensures UserEventsColumn(mk(u)) == Sum(Group(es, EventUser, u), One)
      ensures SpendColumn(mk(u)) == Sum(Group(es, EventUser, u), PurchasePrice)
    {
      KeyGroupNonEmpty(es, EventUser, u);
    }
    GroupedSum(es, EventUser, us, mk, UserEventsColumn, One);
    GroupedSum(es, EventUser, us, mk, SpendColumn, PurchasePrice);
    CountStar(es);
  }

  /** Both summaries agree: the daily revenues and the user spends both add
      up to total revenue, and the daily and per-user event counts both add
      up to the number of events. */
  lemma DailyAgreesWithUsers(es: seq<Event>)
    ensures Sum(FactDailyKpis(es), RevenueColumn) == Sum(DimUsers(es), SpendColumn) == Revenue(es)
    ensures Sum(FactDailyKpis(es), EventsColumn) == Sum(DimUsers(es), UserEventsColumn) == |es|
  {
    DailyTotals(es);
    UserTotals(es);
  }
}
