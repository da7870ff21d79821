/** The pre-aggregated subsets of the optimised dataset
    (summarise/optimize_dataset.py, create_indexed_subsets): a summary per
    product, a summary per user and a daily time series per event type, each
    a polars group_by. polars keeps a NULL key as a group of its own, and its
    n_unique counts NULL as a value. Writing the parquet files is not
    modelled. */
module IndexedSubsets {
  import opened Wrappers
  import opened Relational
  import opened Events
  import opened Warehouse

  // ---------------------------------------------------------------------
  // Per-type columns: pl.col("event_type").filter(event_type == k).len()

  function PurchaseFlag(e: Event): int { if e.kind == Purchase then 1 else 0 }

  /** Summing a 0/1 flag of type k counts the events of type k. */
  lemma KindColumn(g: seq<Event>, k: EventType, f: Event -> int)
    requires forall e :: f(e) == (if e.kind == k then 1 else 0)
    ensures Sum(g, f) == KindCount(g, k)
  {
    var q := (e: Event) => e.kind == k;
    SumIndicator(g, q, 1, f);
    KindCountBy(g, k, q);
  }

  /** pl.col("price").filter(event_type == "purchase").sum(): the purchase
      prices of g, 0 when there are none. */
  function PurchaseSum(g: seq<Event>): int {
    Sum(Filter(g, IsPurchase), Price)
  }

  /** Summing the prices of the purchases is the revenue of the group. */
  lemma PurchaseSumIsRevenue(g: seq<Event>)
    ensures PurchaseSum(g) == Revenue(g)
    ensures KindCount(g, Purchase) == 0 ==> PurchaseSum(g) == 0
  {
    SumFilterZero(g, IsPurchase, PurchasePrice);
    SumCongruent(Filter(g, IsPurchase), PurchasePrice, Price);
    if KindCount(g, Purchase) == 0 {
      RevenueWithoutPurchases(g);
    }
  }

  // ---------------------------------------------------------------------
  // product_summary: group_by("product_id")

  datatype ProductSummaryRow = ProductSummaryRow(
    product: Option<int>,
    totalEvents: nat,
    views: nat,
    carts: nat,
    purchases: nat,
    price: int,
    brand: Option<string>,
    categoryCode: Option<string>,
    uniqueUsers: nat)

  /** The aggregates of one product's non-empty group; price, brand and
      category_code are first(): all three from the group's first event. */
  function ProductSummaryOf(p: Option<int>, g: seq<Event>): ProductSummaryRow
    requires g != []
  {
    ProductSummaryRow(p, |g|, KindCount(g, View), KindCount(g, Cart), KindCount(g, Purchase),
                      g[0].price, g[0].brand, g[0].categoryCode, |UserIds(g)|)
  }

  function ProductSummaryFor(es: seq<Event>, p: Option<int>): ProductSummaryRow {
    var g := Group(es, EventProduct, p);
    if g == [] then ProductSummaryRow(p, 0, 0, 0, 0, 0, None, None, 0) else ProductSummaryOf(p, g)
  }

  function ProductKey(row: ProductSummaryRow): Option<int> { row.product }

  /** product_summary: one row per product_id of the log, NULL included. */
  function ProductSummary(es: seq<Event>): (r: seq<ProductSummaryRow>)
    ensures MapSeq(r, ProductKey) == Keys(es, EventProduct)
  {
    var ks := Keys(es, EventProduct);
    var r := MapSeq(ks, (p: Option<int>) => ProductSummaryFor(es, p));
    assert MapSeq(r, ProductKey) == ks;
    r
  }

  /** Exactly one row per product of the log; events without a product
      share the row whose product is NULL. */
  lemma ProductSummaryKeys(es: seq<Event>)
    ensures forall i, j :: 0 <= i < j < |ProductSummary(es)| ==> ProductSummary(es)[i].product != ProductSummary(es)[j].product
    ensures forall e :: e in es ==> exists row :: row in ProductSummary(es) && row.product == e.product
    ensures forall row :: row in ProductSummary(es) ==> exists e :: e in es && e.product == row.product
  {
    var r := ProductSummary(es);
    var ks := Keys(es, EventProduct);
    RowsOfKeys(r, ProductKey, ks);
    forall e | e in es ensures exists row :: row in r && row.product == e.product {
      assert EventProduct(e) in ks;
      var row :| row in r && ProductKey(row) == e.product;
    }
    forall row | row in r ensures exists e :: e in es && e.product == row.product {
      assert ProductKey(row) in ks;
      var e :| e in es && EventProduct(e) == row.product;
    }
  }

  lemma ProductSummaryRowOf(es: seq<Event>, row: ProductSummaryRow)
    requires row in ProductSummary(es)
    ensures Group(es, EventProduct, row.product) != []
    ensures row == ProductSummaryOf(row.product, Group(es, EventProduct, row.product))
  {
    var ks := Keys(es, EventProduct);
    var r := ProductSummary(es);
    var i :| 0 <= i < |r| && r[i] == row;
    assert row.product == MapSeq(r, ProductKey)[i] == ks[i];
    assert ks[i] in ks;
    KeyGroupNonEmpty(es, EventProduct, ks[i]);
  }

  /** What a product_summary row says about the product's events: the
      counts, a price, brand and category_code taken together from one of
      them, and unique_users, the number of distinct users among them. */
  lemma ProductSummaryMeaning(es: seq<Event>, row: ProductSummaryRow)
    requires row in ProductSummary(es)
    ensures row.totalEvents == |Group(es, EventProduct, row.product)| >= 1
    ensures row.views == KindCount(Group(es, EventProduct, row.product), View)
    ensures row.carts == KindCount(Group(es, EventProduct, row.product), Cart)
    ensures row.purchases == KindCount(Group(es, EventProduct, row.product), Purchase)
    ensures row.views + row.carts + row.purchases <= row.totalEvents
    ensures exists e :: e in es && e.product == row.product && e.price == row.price && e.brand == row.brand && e.categoryCode == row.categoryCode
    ensures forall u :: u in UserIds(Group(es, EventProduct, row.product)) <==> exists e :: e in es && e.product == row.product && e.user == u
    ensures row.uniqueUsers == |UserIds(Group(es, EventProduct, row.product))|
    ensures 1 <= row.uniqueUsers <= row.totalEvents
  {
    ProductSummaryRowOf(es, row);
    var g := Group(es, EventProduct, row.product);
    KindCountsPartition(g);
    assert g[0] in g;
  }

  function EventsColumn(row: ProductSummaryRow): int { row.totalEvents }
  function PurchasesColumn(row: ProductSummaryRow): int { row.purchases }

  lemma ProductSummaryColumns(es: seq<Event>, p: Option<int>)
    ensures EventsColumn(ProductSummaryFor(es, p)) == Sum(Group(es, EventProduct, p), One)
    ensures PurchasesColumn(ProductSummaryFor(es, p)) == Sum(Group(es, EventProduct, p), PurchaseFlag)
  {
    var g := Group(es, EventProduct, p);
    CountStar(g);
    KindColumn(g, Purchase, PurchaseFlag);
  }

  /** The NULL product keeps its group, so no event is lost: the event
      counts add up to the whole log and the purchase counts to all
      purchases. */
  lemma ProductSummaryTotals(es: seq<Event>)
    ensures Sum(ProductSummary(es), EventsColumn) == |es|
    ensures Sum(ProductSummary(es), PurchasesColumn) == KindCount(es, Purchase)
  {
    var ks := Keys(es, EventProduct);
    var mk := (p: Option<int>) => ProductSummaryFor(es, p);
    assert ProductSummary(es) == MapSeq(ks, mk);
    forall p | p in ks
      ensures EventsColumn(mk(p)) == Sum(Group(es, EventProduct, p), One)
      ensures PurchasesColumn(mk(p)) == Sum(Group(es, EventProduct, p), PurchaseFlag)
    {
      ProductSummaryColumns(es, p);
    }
    GroupedSum(es, EventProduct, ks, mk, EventsColumn, One);
    GroupedSum(es, EventProduct, ks, mk, PurchasesColumn, PurchaseFlag);
    CountStar(es);
    KindColumn(es, Purchase, PurchaseFlag);
  }

  // ---------------------------------------------------------------------
  // user_summary: group_by("user_id")

  datatype UserSummaryRow = UserSummaryRow(
    user: int,
    totalEvents: nat,
    views: nat,
    carts: nat,
    purchases: nat,
    uniqueProducts: nat,
    totalSpent: int)

  /** pl.col("product_id").n_unique(): the distinct product ids of g, NULL
      counted as one more value. */
  function ProductValues(g: seq<Event>): (ps: seq<Option<int>>)
    ensures NoDup(ps)
    ensures forall p :: p in ps <==> exists e :: e in g && e.product == p
  {
    var ps := Distinct(MapSeq(g, EventProduct));
    MapMembers(g, EventProduct);
    ps
  }

  function UserSummaryOf(u: int, g: seq<Event>): UserSummaryRow {
    UserSummaryRow(u, |g|, KindCount(g, View), KindCount(g, Cart), KindCount(g, Purchase),
                   |ProductValues(g)|, PurchaseSum(g))
  }

  function UserSummaryFor(es: seq<Event>, u: int): UserSummaryRow {
    UserSummaryOf(u, Group(es, EventUser, u))
  }

  function UserKey(row: UserSummaryRow): int { row.user }

  /** user_summary: one row per user of the log. */
  function UserSummary(es: seq<Event>): (r: seq<UserSummaryRow>)
    ensures MapSeq(r, UserKey) == Keys(es, EventUser)
  {
    var ks := Keys(es, EventUser);
    var r := MapSeq(ks, (u: int) => UserSummaryFor(es, u));
    assert MapSeq(r, UserKey) == ks;
    r
  }

  lemma UserSummaryKeys(es: seq<Event>)
    ensures forall i, j :: 0 <= i < j < |UserSummary(es)| ==> UserSummary(es)[i].user != UserSummary(es)[j].user
    ensures forall e :: e in es ==> exists row :: row in UserSummary(es) && row.user == e.user
    ensures forall row :: row in UserSummary(es) ==> exists e :: e in es && e.user == row.user
  {
    var r := UserSummary(es);
    var ks := Keys(es, EventUser);
    RowsOfKeys(r, UserKey, ks);
    forall e | e in es ensures exists row :: row in r && row.user == e.user {
      assert EventUser(e) in ks;
      var row :| row in r && UserKey(row) == e.user;
    }
    forall row | row in r ensures exists e :: e in es && e.user == row.user {
      assert UserKey(row) in ks;
      var e :| e in es && EventUser(e) == row.user;
    }
  }

  lemma UserSummaryRowOf(es: seq<Event>, row: UserSummaryRow)
    requires row in UserSummary(es)
    ensures Group(es, EventUser, row.user) != []
    ensures row == UserSummaryOf(row.user, Group(es, EventUser, row.user))
  {
    var ks := Keys(es, EventUser);
    var r := UserSummary(es);
    var i :| 0 <= i < |r| && r[i] == row;
    assert row.user == MapSeq(r, UserKey)[i] == ks[i];
    assert ks[i] in ks;
    KeyGroupNonEmpty(es, EventUser, ks[i]);
  }

  /** What a user_summary row says about the user's events: the counts, the
      distinct products touched (NULL counted as one of them) and
      total_spent, which is the user's revenue and 0 for a non-buyer. */
  lemma UserSummaryMeaning(es: seq<Event>, row: UserSummaryRow)
    requires row in UserSummary(es)
    ensures row.totalEvents == |Group(es, EventUser, row.user)| >= 1
    ensures row.views == KindCount(Group(es, EventUser, row.user), View)
    ensures row.carts == KindCount(Group(es, EventUser, row.user), Cart)
    ensures row.purchases == KindCount(Group(es, EventUser, row.user), Purchase)
    ensures row.views + row.carts + row.purchases <= row.totalEvents
    ensures forall p :: p in ProductValues(Group(es, EventUser, row.user)) <==> exists e :: e in es && e.user == row.user && e.product == p
    ensures row.uniqueProducts == |ProductValues(Group(es, EventUser, row.user))|
    ensures 1 <= row.uniqueProducts <= row.totalEvents
    ensures row.totalSpent == Revenue(Group(es, EventUser, row.user))
    ensures row.purchases == 0 ==> row.totalSpent == 0
  {
    UserSummaryRowOf(es, row);
    var g := Group(es, EventUser, row.user);
    KindCountsPartition(g);
    PurchaseSumIsRevenue(g);
    var ps := ProductValues(g);
    assert g[0] in g && ps == Distinct(MapSeq(g, EventProduct));
    assert g[0].product in ps;
  }

  /** Unlike COUNT(DISTINCT product_id) in SQL, n_unique counts the NULL
      product: unique_products is the number of distinct non-NULL products,
      plus one when the user has an event without a product. */
  lemma UniqueProductsCountsNull(g: seq<Event>)
    ensures |ProductValues(g)| == |ProductIds(g)| + (if exists e :: e in g && e.product.None? then 1 else 0)
  {
    var ps := ProductValues(g);
    var ids := ProductIds(g);
    CountSplit(ps);
    NoneCount(ps, Filter(ps, IsNone));
    assert forall x :: x in ids <==> Some(x) in ps;
    SomeValuesCount(ps, ids);
    assert (exists e :: e in g && e.product.None?) <==> None in ps;
  }

  /** The Some rows of a duplicate-free column are as many as the distinct
      values they carry. */
  lemma SomeValuesCount(ps: seq<Option<int>>, ids: seq<int>)
    requires NoDup(ps) && NoDup(ids)
    requires forall x :: x in ids <==> Some(x) in ps
    ensures |Filter(ps, IsSome)| == |ids|
  {
    var somes := Filter(ps, IsSome);
    FilterNoDup(ps, IsSome);
    var vals := MapSeq(somes, ValueOf);
    ValuesNoDup(somes);
    forall x ensures x in vals <==> x in ids {
      if x in vals {
        var i :| 0 <= i < |somes| && vals[i] == x;
        assert somes[i] in somes;
      }
      if x in ids {
        assert Some(x) in somes;
        MapMember(somes, ValueOf, Some(x));
      }
    }
    SameMembersSameLength(vals, ids);
  }

  predicate IsSome(p: Option<int>) { p.Some? }
  predicate IsNone(p: Option<int>) { p.None? }
  function ValueOf(p: Option<int>): int { p.GetOr(0) }

  /** A column of Options splits into its Some and its None rows. */
  lemma {:induction false} CountSplit(ps: seq<Option<int>>)
    ensures |ps| == |Filter(ps, IsSome)| + |Filter(ps, IsNone)|
  {
    if ps != [] {
      CountSplit(ps[1..]);
    }
  }

  /** Taking the values of distinct Some rows keeps them distinct. */
  lemma ValuesNoDup(somes: seq<Option<int>>)
    requires NoDup(somes)
    requires forall p :: p in somes ==> p.Some?
    ensures NoDup(MapSeq(somes, ValueOf))
  {
    var vals := MapSeq(somes, ValueOf);
    forall i, j | 0 <= i < j < |vals| ensures vals[i] != vals[j] {
      assert somes[i] in somes && somes[j] in somes;
      assert somes[i] != somes[j];
    }
  }

  /** A duplicate-free column holds NULL at most once. */
  lemma NoneCount(ps: seq<Option<int>>, nones: seq<Option<int>>)
    requires NoDup(ps)
    requires nones == Filter(ps, IsNone)
    ensures |nones| == if None in ps then 1 else 0
  {
    FilterNoDup(ps, IsNone);
    if |nones| >= 2 {
      assert false;
    }
    if None in ps {
      assert None in nones;
    } else {
      FilterNone(ps, IsNone);
    }
  }

  function UserEventsColumn(row: UserSummaryRow): int { row.totalEvents }
  function SpentColumn(row: UserSummaryRow): int { row.totalSpent }

  lemma UserSummaryColumns(es: seq<Event>, u: int)
    ensures UserEventsColumn(UserSummaryFor(es, u)) == Sum(Group(es, EventUser, u), One)
    ensures SpentColumn(UserSummaryFor(es, u)) == Sum(Group(es, EventUser, u), PurchasePrice)
  {
    var g := Group(es, EventUser, u);
    CountStar(g);
    PurchaseSumIsRevenue(g);
  }

  /** Every event belongs to one user: the event counts add up to the log
      and total_spent to all revenue. */
  lemma UserSummaryTotals(es: seq<Event>)
    ensures Sum(UserSummary(es), UserEventsColumn) == |es|
    ensures Sum(UserSummary(es), SpentColumn) == Revenue(es)
  {
    var ks := Keys(es, EventUser);
    var mk := (u: int) => UserSummaryFor(es, u);
    assert UserSummary(es) == MapSeq(ks, mk);
    forall u | u in ks
      ensures UserEventsColumn(mk(u)) == Sum(Group(es, EventUser, u), One)
      ensures SpentColumn(mk(u)) == Sum(Group(es, EventUser, u), PurchasePrice)
    {
      UserSummaryColumns(es, u);
    }
    GroupedSum(es, EventUser, ks, mk, UserEventsColumn, One);
    GroupedSum(es, EventUser, ks, mk, SpentColumn, PurchasePrice);
    CountStar(es);
  }

  // ---------------------------------------------------------------------
  // daily_summary: group_by(["date", "event_type"]) ... sort("date")

  datatype DailySummaryRow = DailySummaryRow(
    date: int,
    kind: EventType,
    eventCount: nat,
    uniqueUsers: nat,
    revenue: int)

  /** The grouping key: the calendar day of event_time and the event type. */
  function DayKind(e: Event): (int, EventType) { (Day(e.time), e.kind) }

  function DailySummaryOf(k: (int, EventType), g: seq<Event>): DailySummaryRow {
    DailySummaryRow(k.0, k.1, |g|, |UserIds(g)|, PurchaseSum(g))
  }

  function DailySummaryFor(es: seq<Event>, k: (int, EventType)): DailySummaryRow {
    DailySummaryOf(k, Group(es, DayKind, k))
  }

  function DateOrder(k: (int, EventType)): real { k.0 as real }

  /** The (date, event_type) keys ordered by date; the order of the types
      within a day is whatever the sort leaves. */
  function DailyKeys(es: seq<Event>): (ks: seq<(int, EventType)>)
    ensures NoDup(ks)
    ensures forall k :: k in ks <==> exists e :: e in es && DayKind(e) == k
    ensures forall i, j :: 0 <= i < j < |ks| ==> ks[i].0 <= ks[j].0
  {
    var keys := Keys(es, DayKind);
    var ks := SortBy(keys, DateOrder);
    SortByNoDup(keys, DateOrder);
    DayKindMembers(es, ks);
    DateOrderSorted(ks);
    ks
  }

  /** Any reordering of the log's (date, event_type) keys holds exactly
      the pairs some event has. */
  lemma DayKindMembers(es: seq<Event>, ks: seq<(int, EventType)>)
    requires multiset(ks) == multiset(Keys(es, DayKind))
    ensures forall k :: k in ks <==> exists e :: e in es && DayKind(e) == k
  {
    MultisetMembers(ks, Keys(es, DayKind));
  }

  lemma DateOrderSorted(ks: seq<(int, EventType)>)
    requires SortedBy(ks, DateOrder)
    ensures forall i, j :: 0 <= i < j < |ks| ==> ks[i].0 <= ks[j].0
  {
    forall i, j | 0 <= i < j < |ks| ensures ks[i].0 <= ks[j].0 {
      assert DateOrder(ks[i]) <= DateOrder(ks[j]);
    }
  }

  function DailyKey(row: DailySummaryRow): (int, EventType) { (row.date, row.kind) }

  /** daily_summary: one row per (date, event_type) pair of the log, sorted by date. */
  function DailySummary(es: seq<Event>): (r: seq<DailySummaryRow>)
    ensures MapSeq(r, DailyKey) == DailyKeys(es)
  {
    var ks := DailyKeys(es);
    var r := MapSeq(ks, (k: (int, EventType)) => DailySummaryFor(es, k));
    assert MapSeq(r, DailyKey) == ks;
    r
  }

  /** The rows are in date order, one per (date, event_type) pair of the
      log, and every event falls in one of them. */
  lemma DailySummaryKeys(es: seq<Event>)
    ensures forall i, j :: 0 <= i < j < |DailySummary(es)| ==> DailySummary(es)[i].date <= DailySummary(es)[j].date
    ensures forall i, j :: 0 <= i < j < |DailySummary(es)| ==> DailyKey(DailySummary(es)[i]) != DailyKey(DailySummary(es)[j])
    ensures forall e :: e in es ==> exists row :: row in DailySummary(es) && row.date == Day(e.time) && row.kind == e.kind
    ensures forall row :: row in DailySummary(es) ==> exists e :: e in es && Day(e.time) == row.date && e.kind == row.kind
  {
    var r := DailySummary(es);
    var ks := DailyKeys(es);
    RowsOfKeys(r, DailyKey, ks);
    forall i, j | 0 <= i < j < |r| ensures r[i].date <= r[j].date {
      assert DailyKey(r[i]) == MapSeq(r, DailyKey)[i] == ks[i];
      assert DailyKey(r[j]) == MapSeq(r, DailyKey)[j] == ks[j];
    }
    forall e | e in es ensures exists row :: row in r && row.date == Day(e.time) && row.kind == e.kind {
      assert DayKind(e) in ks;
      var row :| row in r && DailyKey(row) == DayKind(e);
    }
    forall row | row in r ensures exists e :: e in es && Day(e.time) == row.date && e.kind == row.kind {
      assert DailyKey(row) in ks;
      var e :| e in es && DayKind(e) == DailyKey(row);
    }
  }

  lemma DailySummaryRowOf(es: seq<Event>, row: DailySummaryRow)
    requires row in DailySummary(es)
    ensures Group(es, DayKind, DailyKey(row)) != []
    ensures row == DailySummaryOf(DailyKey(row), Group(es, DayKind, DailyKey(row)))
  {
    var ks := DailyKeys(es);
    var r := DailySummary(es);
    var i :| 0 <= i < |r| && r[i] == row;
    assert DailyKey(row) == MapSeq(r, DailyKey)[i] == ks[i];
    assert ks[i] in ks;
    KeyGroupNonEmpty(es, DayKind, ks[i]);
  }

  /** What a daily_summary row says: the number of events of that type on
      that day, the distinct users among them, and a revenue that is the
      revenue of those events, hence 0 for any type but purchase. */
  lemma DailySummaryMeaning(es: seq<Event>, row: DailySummaryRow)
    requires row in DailySummary(es)
    ensures row.eventCount == |Group(es, DayKind, DailyKey(row))| >= 1
    ensures forall e :: e in Group(es, DayKind, DailyKey(row)) <==> e in es && Day(e.time) == row.date && e.kind == row.kind
    ensures row.uniqueUsers == |UserIds(Group(es, DayKind, DailyKey(row)))|
    ensures 1 <= row.uniqueUsers <= row.eventCount
    ensures row.revenue == Revenue(Group(es, DayKind, DailyKey(row)))
    ensures row.kind != Purchase ==> row.revenue == 0
  {
    DailySummaryRowOf(es, row);
    var g := Group(es, DayKind, DailyKey(row));
    PurchaseSumIsRevenue(g);
    if row.kind != Purchase {
      var isP := (e: Event) => e.kind == Purchase;
      FilterNone(g, isP);
      KindCountBy(g, Purchase, isP);
    }
  }

  function DailyEventsColumn(row: DailySummaryRow): int { row.eventCount }
  function DailyRevenueColumn(row: DailySummaryRow): int { row.revenue }

  lemma DailySummaryColumns(es: seq<Event>, k: (int, EventType))
    ensures DailyEventsColumn(DailySummaryFor(es, k)) == Sum(Group(es, DayKind, k), One)
    ensures DailyRevenueColumn(DailySummaryFor(es, k)) == Sum(Group(es, DayKind, k), PurchasePrice)
  {
    var g := Group(es, DayKind, k);
    CountStar(g);
    PurchaseSumIsRevenue(g);
  }

  /** The daily series loses no event: event counts add up to the log and
      revenues to all revenue. */
  lemma DailySummaryTotals(es: seq<Event>)
    ensures Sum(DailySummary(es), DailyEventsColumn) == |es|
    ensures Sum(DailySummary(es), DailyRevenueColumn) == Revenue(es)
  {
    var ks := DailyKeys(es);
    var mk := (k: (int, EventType)) => DailySummaryFor(es, k);
    assert DailySummary(es) == MapSeq(ks, mk);
    forall k | k in ks
      ensures DailyEventsColumn(mk(k)) == Sum(Group(es, DayKind, k), One)
      ensures DailyRevenueColumn(mk(k)) == Sum(Group(es, DayKind, k), PurchasePrice)
    {
      DailySummaryColumns(es, k);
    }
    GroupedSum(es, DayKind, ks, mk, DailyEventsColumn, One);
    GroupedSum(es, DayKind, ks, mk, DailyRevenueColumn, PurchasePrice);
    CountStar(es);
  }
}
