/** The computed figures of the statistical report
    (summarise/statistical_summary.py): the buyer segment ladder over the
    user summary and its shares, the event-type distribution, the
    conversion funnel with its guarded rates and cart abandonment, and the
    buyer rate. Percentages are exact reals; their printed rounding is not
    modelled. */
module StatisticalSummary {
  import opened Wrappers
  import opened Relational
  import opened Events
  import opened IndexedSubsets

  /** x / total * 100, the share of x in total as a percentage; a zero
      total (no rows, so never evaluated by the report) gives 0. */
  function Pct(x: int, total: int): real {
    if total == 0 then 0.0 else x as real / total as real * 100.0
  }

  lemma PercentScale(x: int, total: int)
    requires total != 0
    ensures Pct(x, total) == x as real * (100.0 / total as real)
  {
  }

  lemma WholePercent(total: int)
    requires total != 0
    ensures total as real * (100.0 / total as real) == 100.0
  {
  }

  // ---------------------------------------------------------------------
  // User segmentation (user_segments)

  datatype BuyerSegment = HighBuyer | MediumBuyer | LowBuyer | CartUser | BrowserOnly

  function SegmentLabel(s: BuyerSegment): string {
    match s
    case HighBuyer => "High Buyer (10+)"
    case MediumBuyer => "Medium Buyer (5-10)"
    case LowBuyer => "Low Buyer (1-5)"
    case CartUser => "Cart User"
    case BrowserOnly => "Browser Only"
  }

  /** The when/then ladder, first match wins: each segment is a range of
      purchase counts, and the users without purchases split on carts. */
  function SegmentOf(purchases: int, carts: int): (s: BuyerSegment)
    ensures s == HighBuyer <==> purchases > 10
    ensures s == MediumBuyer <==> 6 <= purchases <= 10
    ensures s == LowBuyer <==> 1 <= purchases <= 5
    ensures s == CartUser <==> purchases <= 0 && carts > 0
    ensures s == BrowserOnly <==> purchases <= 0 && carts <= 0
  {
    if purchases > 10 then HighBuyer
    else if purchases > 5 then MediumBuyer
    else if purchases > 0 then LowBuyer
    else if carts > 0 then CartUser
    else BrowserOnly
  }

  /** The five labels are distinct, so grouping by label is grouping by segment. */
  lemma SegmentLabelsDistinct(s: BuyerSegment, t: BuyerSegment)
    requires s != t
    ensures SegmentLabel(s) != SegmentLabel(t)
  {
    assert |SegmentLabel(s)| != |SegmentLabel(t)|;
  }

  function UserSegment(u: UserSummaryRow): BuyerSegment { SegmentOf(u.purchases, u.carts) }

  /** A user of the user summary is a High Buyer exactly when the log holds
      more than ten of the user's purchases, a Cart User when it holds none
      but some cart event, and so on down the ladder. */
  lemma UserSegmentOfLog(es: seq<Event>, u: UserSummaryRow)
    requires u in UserSummary(es)
    ensures UserSegment(u) == HighBuyer <==> KindCount(Group(es, EventUser, u.user), Purchase) > 10
    ensures UserSegment(u) == CartUser <==>
      KindCount(Group(es, EventUser, u.user), Purchase) == 0 && KindCount(Group(es, EventUser, u.user), Cart) > 0
    ensures UserSegment(u) == BrowserOnly <==>
      KindCount(Group(es, EventUser, u.user), Purchase) == 0 && KindCount(Group(es, EventUser, u.user), Cart) == 0
  {
    UserSummaryMeaning(es, u);
  }

  datatype SegmentRow = SegmentRow(segment: BuyerSegment, count: nat, pct: real)

  function SegmentSize(users: seq<UserSummaryRow>, s: BuyerSegment): nat {
    |Group(users, UserSegment, s)|
  }

  function SegmentRowFor(users: seq<UserSummaryRow>, s: BuyerSegment): SegmentRow {
    SegmentRow(s, SegmentSize(users, s), Pct(SegmentSize(users, s), |users|))
  }

  /** The segments that occur, largest first (ties in any order). */
  function SegmentKeys(users: seq<UserSummaryRow>): (ks: seq<BuyerSegment>)
    ensures NoDup(ks)
    ensures forall s :: s in ks <==> exists u :: u in users && UserSegment(u) == s
    ensures forall i, j :: 0 <= i < j < |ks| ==> SegmentSize(users, ks[i]) >= SegmentSize(users, ks[j])
  {
    var keys := Keys(users, UserSegment);
    var order := (s: BuyerSegment) => -(SegmentSize(users, s) as real);
    var ks := SortBy(keys, order);
    SortByNoDup(keys, order);
    MultisetMembers(ks, keys);
    assert forall i, j :: 0 <= i < j < |ks| ==> order(ks[i]) <= order(ks[j]);
    ks
  }

  function SegmentKey(row: SegmentRow): BuyerSegment { row.segment }

  /** user_segments: one row per occurring segment with its user count and
      its share of all users, largest first. */
  function UserSegments(users: seq<UserSummaryRow>): (r: seq<SegmentRow>)
    ensures MapSeq(r, SegmentKey) == SegmentKeys(users)
    ensures forall i :: 0 <= i < |r| ==> r[i] == SegmentRowFor(users, SegmentKeys(users)[i])
  {
    var ks := SegmentKeys(users);
    var r := MapSeq(ks, (s: BuyerSegment) => SegmentRowFor(users, s));
    assert MapSeq(r, SegmentKey) == ks;
    r
  }

  /** Each row counts the users of its segment (at least one), the rows are
      in descending count order, and every user's segment has a row. */
  lemma UserSegmentsRows(users: seq<UserSummaryRow>)
    ensures forall row :: row in UserSegments(users) ==>
      row.count == |Group(users, UserSegment, row.segment)| >= 1 && row.pct == Pct(row.count, |users|)
    ensures forall i, j :: 0 <= i < j < |UserSegments(users)| ==>
      UserSegments(users)[i].segment != UserSegments(users)[j].segment &&
      UserSegments(users)[i].count >= UserSegments(users)[j].count
    ensures forall u :: u in users ==> exists row :: row in UserSegments(users) && row.segment == UserSegment(u)
  {
    var r := UserSegments(users);
    var ks := SegmentKeys(users);
    RowsOfKeys(r, SegmentKey, ks);
    forall row | row in r ensures row.count == |Group(users, UserSegment, row.segment)| >= 1 {
      SegmentRowIn(users, row);
      KeyGroupNonEmpty(users, UserSegment, row.segment);
    }
    forall u | u in users ensures exists row :: row in r && row.segment == UserSegment(u) {
      assert UserSegment(u) in ks;
      var row :| row in r && SegmentKey(row) == UserSegment(u);
    }
  }

  /** A row of user_segments is the row of an occurring segment. */
  lemma SegmentRowIn(users: seq<UserSummaryRow>, row: SegmentRow)
    requires row in UserSegments(users)
    ensures row.segment in SegmentKeys(users)
    ensures row == SegmentRowFor(users, row.segment)
  {
    var r := UserSegments(users);
    var i :| 0 <= i < |r| && r[i] == row;
    assert row.segment == MapSeq(r, SegmentKey)[i];
  }

  function SegmentCountColumn(row: SegmentRow): int { row.count }
  function SegmentPctColumn(row: SegmentRow): real { row.pct }
  function OneUser(u: UserSummaryRow): int { 1 }

  /** The segments partition the users: the counts add up to len(users). */
  lemma UserSegmentsCount(users: seq<UserSummaryRow>)
    ensures Sum(UserSegments(users), SegmentCountColumn) == |users|
  {
    var ks := SegmentKeys(users);
    var mk := (s: BuyerSegment) => SegmentRowFor(users, s);
    assert UserSegments(users) == MapSeq(ks, mk);
    forall s | s in ks ensures SegmentCountColumn(mk(s)) == Sum(Group(users, UserSegment, s), OneUser) {
      SumOnes(Group(users, UserSegment, s), OneUser);
    }
    GroupedSum(users, UserSegment, ks, mk, SegmentCountColumn, OneUser);
    SumOnes(users, OneUser);
  }

  /** With users, the segment percentages add up to 100. */
  lemma UserSegmentsPercent(users: seq<UserSummaryRow>)
    requires users != []
    ensures SumReal(UserSegments(users), SegmentPctColumn) == 100.0
  {
    var r := UserSegments(users);
    forall row | row in r ensures row.pct == Pct(row.count, |users|) {
      SegmentRowShare(users, row);
    }
    UserSegmentsCount(users);
    PercentColumnSum(r, |users|);
  }

  /** Percentages of a total that the counts add up to add up to 100. */
  lemma PercentColumnSum(r: seq<SegmentRow>, n: nat)
    requires n != 0
    requires forall row :: row in r ==> row.pct == Pct(row.count, n)
    requires Sum(r, SegmentCountColumn) == n
    ensures SumReal(r, SegmentPctColumn) == 100.0
  {
    var c := 100.0 / n as real;
    forall row | row in r ensures SegmentPctColumn(row) == SegmentCountColumn(row) as real * c {
      ScaledShare(row.count, row.pct, n);
      assert SegmentCountColumn(row) == row.count;
      assert SegmentPctColumn(row) == row.pct;
    }
    SumRealScale(r, SegmentCountColumn, SegmentPctColumn, c);
    WholePercent(n);
  }

  lemma ScaledShare(count: nat, pct: real, n: nat)
    requires n != 0 && pct == Pct(count, n)
    ensures pct == count as real * (100.0 / n as real)
  {
    PercentScale(count, n);
  }

  lemma SegmentRowShare(users: seq<UserSummaryRow>, row: SegmentRow)
    requires row in UserSegments(users)
    ensures row.pct == Pct(row.count, |users|)
  {
    var r := UserSegments(users);
    var i :| 0 <= i < |r| && r[i] == row;
    assert row == SegmentRowFor(users, SegmentKeys(users)[i]);
  }

  // ---------------------------------------------------------------------
  // Event type distribution (event_counts)

  function EventKind(e: Event): EventType { e.kind }

  datatype EventTypeRow = EventTypeRow(kind: EventType, count: nat)

  function KindSize(es: seq<Event>, k: EventType): nat { |Group(es, EventKind, k)| }

  /** Grouping by event_type counts the events of each type. */
  lemma KindSizeIsCount(es: seq<Event>, k: EventType)
    ensures KindSize(es, k) == KindCount(es, k)
  {
    var q := (e: Event) => e.kind == k;
    GroupSize(es, EventKind, k, q);
    KindCountBy(es, k, q);
  }

  /** The event types that occur, most frequent first (ties in any order). */
  function KindKeys(es: seq<Event>): (ks: seq<EventType>)
    ensures NoDup(ks)
    ensures forall k :: k in ks <==> exists e :: e in es && e.kind == k
    ensures forall i, j :: 0 <= i < j < |ks| ==> KindSize(es, ks[i]) >= KindSize(es, ks[j])
  {
    var keys := Keys(es, EventKind);
    var order := (k: EventType) => -(KindSize(es, k) as real);
    var ks := SortBy(keys, order);
    SortByNoDup(keys, order);
    MultisetMembers(ks, keys);
    assert forall i, j :: 0 <= i < j < |ks| ==> order(ks[i]) <= order(ks[j]);
    ks
  }

  function RowKind(row: EventTypeRow): EventType { row.kind }
  function RowCount(row: EventTypeRow): int { row.count }

  /** event_counts: one row per occurring event type with its count, sorted
      by count descending. */
  function EventCounts(es: seq<Event>): (r: seq<EventTypeRow>)
    ensures MapSeq(r, RowKind) == KindKeys(es)
  {
    var ks := KindKeys(es);
    var r := MapSeq(ks, (k: EventType) => EventTypeRow(k, KindSize(es, k)));
    assert MapSeq(r, RowKind) == ks;
    r
  }

  /** Each row holds the number of events of its type; the types are
      distinct and in descending count order; a type has a row exactly when
      it occurs. */
  lemma EventCountsRows(es: seq<Event>)
    ensures forall row :: row in EventCounts(es) ==> row.count == KindCount(es, row.kind) >= 1
    ensures forall i, j :: 0 <= i < j < |EventCounts(es)| ==>
      EventCounts(es)[i].kind != EventCounts(es)[j].kind && EventCounts(es)[i].count >= EventCounts(es)[j].count
    ensures forall k :: (exists row :: row in EventCounts(es) && row.kind == k) <==> KindCount(es, k) > 0
  {
    forall row | row in EventCounts(es) ensures row.count == KindCount(es, row.kind) >= 1 {
      EventCountsRow(es, row);
    }
    EventCountsOrder(es);
    forall k ensures (exists row :: row in EventCounts(es) && row.kind == k) <==> KindCount(es, k) > 0 {
      EventCountsHasKind(es, k);
    }
  }

  lemma EventCountsIndex(es: seq<Event>, i: int)
    requires 0 <= i < |EventCounts(es)|
    ensures EventCounts(es)[i] == EventTypeRow(KindKeys(es)[i], KindSize(es, KindKeys(es)[i]))
  {
  }

  lemma EventCountsRow(es: seq<Event>, row: EventTypeRow)
    requires row in EventCounts(es)
    ensures row.count == KindCount(es, row.kind) >= 1
  {
    var r := EventCounts(es);
    var ks := KindKeys(es);
    var i :| 0 <= i < |r| && r[i] == row;
    EventCountsIndex(es, i);
    assert ks[i] in ks;
    KeyGroupNonEmpty(es, EventKind, ks[i]);
    KindSizeIsCount(es, ks[i]);
  }

  lemma EventCountsOrder(es: seq<Event>)
    ensures forall i, j :: 0 <= i < j < |EventCounts(es)| ==>
      EventCounts(es)[i].kind != EventCounts(es)[j].kind && EventCounts(es)[i].count >= EventCounts(es)[j].count
  {
    forall i, j | 0 <= i < j < |EventCounts(es)|
      ensures EventCounts(es)[i].kind != EventCounts(es)[j].kind && EventCounts(es)[i].count >= EventCounts(es)[j].count
    {
      EventCountsIndex(es, i);
      EventCountsIndex(es, j);
    }
  }

  lemma EventCountsHasKind(es: seq<Event>, k: EventType)
    ensures (exists row :: row in EventCounts(es) && row.kind == k) <==> KindCount(es, k) > 0
  {
    var r := EventCounts(es);
    var ks := KindKeys(es);
    HasKindCount(es, k);
    if KindCount(es, k) > 0 {
      assert k in ks;
      var i :| 0 <= i < |ks| && ks[i] == k;
      EventCountsIndex(es, i);
      assert r[i] in r;
    }
    if exists row :: row in r && row.kind == k {
      var row :| row in r && row.kind == k;
      EventCountsRow(es, row);
    }
  }

  /** total_events, the sum of the count column, is the number of events. */
  lemma EventCountsTotal(es: seq<Event>)
    ensures Sum(EventCounts(es), RowCount) == |es|
  {
    var ks := KindKeys(es);
    var mk := (k: EventType) => EventTypeRow(k, KindSize(es, k));
    assert EventCounts(es) == MapSeq(ks, mk);
    forall k | k in ks ensures RowCount(mk(k)) == Sum(Group(es, EventKind, k), One) {
      CountStar(Group(es, EventKind, k));
    }
    GroupedSum(es, EventKind, ks, mk, RowCount, One);
    CountStar(es);
  }

  /** The percentage column: count / total_events * 100 for each row. */
  function Shares(rows: seq<EventTypeRow>, total: int): (ps: seq<real>)
    ensures |ps| == |rows|
  {
    if rows == [] then [] else [Pct(rows[0].count, total)] + Shares(rows[1..], total)
  }

  function SumOf(ps: seq<real>): real {
    if ps == [] then 0.0 else ps[0] + SumOf(ps[1..])
  }

  lemma {:induction false} SharesSum(rows: seq<EventTypeRow>, total: int)
    requires total != 0
    ensures SumOf(Shares(rows, total)) == Sum(rows, RowCount) as real * (100.0 / total as real)
  {
    if rows != [] {
      SharesSum(rows[1..], total);
      PercentScale(rows[0].count, total);
      assert Shares(rows, total)[1..] == Shares(rows[1..], total);
    }
  }

  /** The event-type percentages add up to 100 when there are events. */
  lemma EventSharesSum(es: seq<Event>)
    requires es != []
    ensures SumOf(Shares(EventCounts(es), Sum(EventCounts(es), RowCount))) == 100.0
  {
    EventCountsTotal(es);
    SharesOfTotal(EventCounts(es));
  }

  lemma SharesOfTotal(rows: seq<EventTypeRow>)
    requires Sum(rows, RowCount) != 0
    ensures SumOf(Shares(rows, Sum(rows, RowCount))) == 100.0
  {
    var t := Sum(rows, RowCount);
    SharesSum(rows, t);
    WholePercent(t);
  }

  // ---------------------------------------------------------------------
  // Conversion funnel (funnel) and key insights (buyer_rate, cart abandonment)

  /** [i for i, e in enumerate(event_type) if e == k][0]: the count of the
      first row of type k, or an IndexError when no row has that type. */
  function CountOf(rows: seq<EventTypeRow>, k: EventType): (r: Result<nat, string>)
    ensures r.Ok? <==> exists row :: row in rows && row.kind == k
    ensures r.Ok? ==> exists row :: row in rows && row.kind == k && row.count == r.value
    ensures r.Err? ==> r.error == "IndexError"
  {
    var kinds := MapSeq(rows, RowKind);
    MapMembers(rows, RowKind);
    if k in kinds then
      var i := IndexOf(kinds, k);
      assert rows[i] in rows;
      Ok(rows[i].count)
    else Err("IndexError")
  }

  /** A conversion rate in percent, 0 when the denominator is 0. */
  function Rate(num: nat, den: nat): (r: real)
    ensures r >= 0.0
    ensures den == 0 ==> r == 0.0
    ensures den > 0 ==> r == num as real / den as real * 100.0
  {
    if den > 0 then num as real / den as real * 100.0 else 0.0
  }

  datatype Funnel = Funnel(views: nat, carts: nat, purchases: nat,
                           viewToCart: real, cartToPurchase: real, viewToPurchase: real)

  /** The funnel read off the event-type counts; a missing view, cart or
      purchase row raises IndexError. */
  function ConversionFunnel(rows: seq<EventTypeRow>): Result<Funnel, string> {
    var v := CountOf(rows, View);
    var c := CountOf(rows, Cart);
    var p := CountOf(rows, Purchase);
    if v.Err? then Err(v.error)
    else if c.Err? then Err(c.error)
    else if p.Err? then Err(p.error)
    else
      Ok(Funnel(v.value, c.value, p.value,
                Rate(c.value, v.value), Rate(p.value, c.value), Rate(p.value, v.value)))
  }

  /** On the event counts of a log the funnel exists exactly when views,
      carts and purchases all occur, and then it holds their numbers. */
  lemma FunnelOfLog(es: seq<Event>)
    ensures ConversionFunnel(EventCounts(es)).Ok? <==>
      KindCount(es, View) > 0 && KindCount(es, Cart) > 0 && KindCount(es, Purchase) > 0
    ensures ConversionFunnel(EventCounts(es)).Err? ==> ConversionFunnel(EventCounts(es)).error == "IndexError"
    ensures ConversionFunnel(EventCounts(es)).Ok? ==>
      ConversionFunnel(EventCounts(es)).value.views == KindCount(es, View) &&
      ConversionFunnel(EventCounts(es)).value.carts == KindCount(es, Cart) &&
      ConversionFunnel(EventCounts(es)).value.purchases == KindCount(es, Purchase)
  {
    CountOfLog(es, View);
    CountOfLog(es, Cart);
    CountOfLog(es, Purchase);
  }

  /** Looking an event type up in the event counts of a log finds its
      number of events, or IndexError when the type does not occur. */
  lemma CountOfLog(es: seq<Event>, k: EventType)
    ensures CountOf(EventCounts(es), k).Ok? <==> KindCount(es, k) > 0
    ensures CountOf(EventCounts(es), k).Ok? ==> CountOf(EventCounts(es), k).value == KindCount(es, k)
  {
    EventCountsRows(es);
  }

  /** The rates chain: when views and carts are both non-zero,
      view_to_purchase = view_to_cart * cart_to_purchase / 100. */
  lemma FunnelRatesChain(rows: seq<EventTypeRow>, f: Funnel)
    requires ConversionFunnel(rows) == Ok(f)
    requires f.views > 0 && f.carts > 0
    ensures f.viewToPurchase == f.viewToCart * f.cartToPurchase / 100.0
  {
    assert f == Funnel(f.views, f.carts, f.purchases,
      Rate(f.carts, f.views), Rate(f.purchases, f.carts), Rate(f.purchases, f.views));
    RateChain(f);
  }

  lemma RateChain(f: Funnel)
    requires f.views > 0 && f.carts > 0
    requires f.viewToCart == Rate(f.carts, f.views) && f.cartToPurchase == Rate(f.purchases, f.carts)
    requires f.viewToPurchase == Rate(f.purchases, f.views)
    ensures f.viewToPurchase == f.viewToCart * f.cartToPurchase / 100.0
  {
    RatioChain(f.views as real, f.carts as real, f.purchases as real);
  }

  lemma RatioChain(v: real, c: real, p: real)
    requires v > 0.0 && c > 0.0
    ensures (c / v * 100.0) * (p / c * 100.0) / 100.0 == p / v * 100.0
  {
    assert (c / v) * (p / c) == p / v;
  }

  /** Cart abandonment: 100 - cart_to_purchase. */
  function CartAbandonment(f: Funnel): real {
    100.0 - f.cartToPurchase
  }

  /** Abandonment never exceeds 100; it is 100 without carts, and with carts
      it is non-negative exactly when there are no more purchases than
      carts. */
  lemma CartAbandonmentBounds(rows: seq<EventTypeRow>)
    requires ConversionFunnel(rows).Ok?
    ensures CartAbandonment(ConversionFunnel(rows).value) <= 100.0
    ensures ConversionFunnel(rows).value.carts == 0 ==> CartAbandonment(ConversionFunnel(rows).value) == 100.0
    ensures ConversionFunnel(rows).value.carts > 0 ==>
      (CartAbandonment(ConversionFunnel(rows).value) >= 0.0 <==>
       ConversionFunnel(rows).value.purchases <= ConversionFunnel(rows).value.carts)
  {
    var f := ConversionFunnel(rows).value;
    if f.carts > 0 {
      RateAtMostHundred(f.purchases, f.carts);
    }
  }

  lemma RateAtMostHundred(num: nat, den: nat)
    requires den > 0
    ensures Rate(num, den) <= 100.0 <==> num <= den
  {
    var q := num as real / den as real;
    assert q * den as real == num as real;
    if q <= 1.0 {
      assert q * den as real <= den as real;
    } else {
      assert q * den as real > den as real;
    }
  }

  predicate IsBuyer(u: UserSummaryRow) { u.purchases > 0 }

  /** buyer_rate = len(buyers) / len(users) * 100; with no users the
      division raises ZeroDivisionError. */
  function BuyerRate(users: seq<UserSummaryRow>): (r: Result<real, string>)
    ensures r.Err? <==> users == []
    ensures r.Ok? ==> r.value == Count(users, IsBuyer) as real / |users| as real * 100.0
    ensures r.Ok? ==> 0.0 <= r.value <= 100.0
    ensures r.Ok? ==> (r.value == 0.0 <==> forall u :: u in users ==> u.purchases == 0)
  {
    if users == [] then Err("ZeroDivisionError")
    else
      var b := Count(users, IsBuyer);
      FractionBounds(b, |users|);
      NoBuyers(users);
      Ok(b as real / |users| as real * 100.0)
  }

  lemma NoBuyers(users: seq<UserSummaryRow>)
    ensures Count(users, IsBuyer) == 0 <==> forall u :: u in users ==> u.purchases == 0
  {
    var f := Filter(users, IsBuyer);
    if f != [] {
      assert f[0] in f;
    }
    if exists u :: u in users && u.purchases > 0 {
      var u :| u in users && u.purchases > 0;
      assert u in f;
    }
  }
}
