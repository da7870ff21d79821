/** The figures of the Data Explorer page (app/pages/1_Data_Explorer.py):
    the event-type distribution with its percentage column, the conversion
    rates read off it with missing types counting 0, the price-range
    histogram over priced events, and the top-15 categories and brands with
    NULL grouped as 'unknown'. Prices are cents, so the dollar thresholds of
    the page are multiplied by 100. */
module DataExplorer {
  import opened Wrappers
  import opened Relational
  import opened Events
  import opened InitialModeling
  import opened StatisticalSummary

  // ---------------------------------------------------------------------
  // Event type distribution (event_dist)

  datatype DistributionRow = DistributionRow(kind: EventType, count: nat, percentage: real)

  /** COUNT(*) * 100.0 / SUM(COUNT(*)) OVER (): each count as a share of the
      sum of all counts. */
  function WithPercent(rows: seq<EventTypeRow>, total: int): (ds: seq<DistributionRow>)
    ensures |ds| == |rows|
  {
    if rows == [] then []
    else [DistributionRow(rows[0].kind, rows[0].count, Pct(rows[0].count, total))] + WithPercent(rows[1..], total)
  }

  function PercentColumn(ds: seq<DistributionRow>): (ps: seq<real>)
    ensures |ps| == |ds|
  {
    if ds == [] then [] else [ds[0].percentage] + PercentColumn(ds[1..])
  }

  /** event_dist: the event counts by type, most frequent first, with the percentage column. */
  function EventDistribution(es: seq<Event>): seq<DistributionRow> {
    var rows := EventCounts(es);
    WithPercent(rows, Sum(rows, RowCount))
  }

  lemma {:induction false} WithPercentIndex(rows: seq<EventTypeRow>, total: int, i: int)
    requires 0 <= i < |rows|
    ensures WithPercent(rows, total)[i] == DistributionRow(rows[i].kind, rows[i].count, Pct(rows[i].count, total))
  {
    if i > 0 {
      WithPercentIndex(rows[1..], total, i - 1);
    }
  }

  lemma {:induction false} PercentColumnIsShares(rows: seq<EventTypeRow>, total: int)
    ensures PercentColumn(WithPercent(rows, total)) == Shares(rows, total)
  {
    if rows != [] {
      PercentColumnIsShares(rows[1..], total);
    }
  }

  /** Each row of the distribution holds its type's number of events and
      that number as a percentage of the whole log; the rows are in
      descending count order. */
  lemma EventDistributionRow(es: seq<Event>, i: int)
    requires 0 <= i < |EventDistribution(es)|
    ensures EventDistribution(es)[i].count == KindCount(es, EventDistribution(es)[i].kind) >= 1
    ensures EventDistribution(es)[i].percentage == KindCount(es, EventDistribution(es)[i].kind) as real / |es| as real * 100.0
    ensures forall j :: i < j < |EventDistribution(es)| ==>
      EventDistribution(es)[i].kind != EventDistribution(es)[j].kind &&
      EventDistribution(es)[i].count >= EventDistribution(es)[j].count
  {
    var rows := EventCounts(es);
    EventCountsTotal(es);
    WithPercentIndex(rows, |es|, i);
    assert rows[i] in rows;
    EventCountsRow(es, rows[i]);
    forall j | i < j < |rows|
      ensures EventDistribution(es)[i].kind != EventDistribution(es)[j].kind &&
        EventDistribution(es)[i].count >= EventDistribution(es)[j].count
    {
      WithPercentIndex(rows, |es|, j);
      EventCountsOrder(es);
    }
  }

  /** The percentage column adds up to 100 on a non-empty log. */
  lemma EventDistributionPercentSum(es: seq<Event>)
    requires es != []
    ensures SumOf(PercentColumn(EventDistribution(es))) == 100.0
  {
    var rows := EventCounts(es);
    PercentColumnIsShares(rows, Sum(rows, RowCount));
    EventSharesSum(es);
  }

  // ---------------------------------------------------------------------
  // Conversion rates of the page (the funnel metrics)

  /** The count of a type, or 0 when the distribution has no row of that type. */
  function CountOrZero(rows: seq<EventTypeRow>, k: EventType): (n: nat)
    ensures (exists row :: row in rows && row.kind == k) ==> exists row :: row in rows && row.kind == k && row.count == n
    ensures (forall row :: row in rows ==> row.kind != k) ==> n == 0
  {
    match CountOf(rows, k)
    case Ok(n) => n
    case Err(_) => 0
  }

  datatype Rates = Rates(viewToCart: real, cartToPurchase: real, viewToPurchase: real)

  /** The rates box is shown only when there are views; cart to purchase is
      0 when there are no carts. */
  function PageRates(rows: seq<EventTypeRow>): Option<Rates> {
    var views := CountOrZero(rows, View);
    var carts := CountOrZero(rows, Cart);
    var purchases := CountOrZero(rows, Purchase);
    if views > 0 then Some(Rates(Rate(carts, views), Rate(purchases, carts), Rate(purchases, views)))
    else None
  }

  /** On the distribution of a log the rates are shown exactly when some
      view occurred, and then they are the percentages of the log's counts,
      a missing cart or purchase type counting 0. */
  lemma PageRatesOfLog(es: seq<Event>)
    ensures PageRates(EventCounts(es)).Some? <==> KindCount(es, View) > 0
    ensures PageRates(EventCounts(es)).Some? ==>
      PageRates(EventCounts(es)).value.viewToCart == KindCount(es, Cart) as real / KindCount(es, View) as real * 100.0 &&
      PageRates(EventCounts(es)).value.viewToPurchase == KindCount(es, Purchase) as real / KindCount(es, View) as real * 100.0
    ensures PageRates(EventCounts(es)).Some? ==>
      PageRates(EventCounts(es)).value.cartToPurchase ==
        (if KindCount(es, Cart) > 0 then KindCount(es, Purchase) as real / KindCount(es, Cart) as real * 100.0 else 0.0)
  {
    CountOrZeroOfLog(es, View);
    CountOrZeroOfLog(es, Cart);
    CountOrZeroOfLog(es, Purchase);
    PageRatesOfCounts(EventCounts(es), KindCount(es, View), KindCount(es, Cart), KindCount(es, Purchase));
  }

  /** The rates box in terms of the three counts read off the distribution. */
  lemma PageRatesOfCounts(rows: seq<EventTypeRow>, v: nat, c: nat, p: nat)
    requires CountOrZero(rows, View) == v && CountOrZero(rows, Cart) == c && CountOrZero(rows, Purchase) == p
    ensures PageRates(rows).Some? <==> v > 0
    ensures PageRates(rows).Some? ==>
      PageRates(rows).value.viewToCart == c as real / v as real * 100.0 &&
      PageRates(rows).value.viewToPurchase == p as real / v as real * 100.0
    ensures PageRates(rows).Some? ==>
      PageRates(rows).value.cartToPurchase == (if c > 0 then p as real / c as real * 100.0 else 0.0)
  {
  }

  /** Reading a type off the distribution gives its number of events, 0 when absent. */
  lemma CountOrZeroOfLog(es: seq<Event>, k: EventType)
    ensures CountOrZero(EventCounts(es), k) == KindCount(es, k)
  {
    var rows := EventCounts(es);
    if KindCount(es, k) > 0 {
      EventCountsHasKind(es, k);
      forall row | row in rows && row.kind == k ensures row.count == KindCount(es, k) {
        EventCountsRow(es, row);
      }
      CountOrZeroAgreed(rows, k, KindCount(es, k));
    } else {
      assert forall row :: row in rows ==> row.kind != k by {
        EventCountsHasKind(es, k);
      }
    }
  }

  /** When every row of type k present holds the count n, n is read off. */
  lemma CountOrZeroAgreed(rows: seq<EventTypeRow>, k: EventType, n: nat)
    requires exists row :: row in rows && row.kind == k
    requires forall row :: row in rows && row.kind == k ==> row.count == n
    ensures CountOrZero(rows, k) == n
  {
  }

  /** Where the statistical report's funnel exists and has views, the page
      shows the same three rates. */
  lemma PageRatesAgreeWithFunnel(rows: seq<EventTypeRow>)
    requires ConversionFunnel(rows).Ok? && ConversionFunnel(rows).value.views > 0
    ensures PageRates(rows) == Some(Rates(ConversionFunnel(rows).value.viewToCart,
      ConversionFunnel(rows).value.cartToPurchase, ConversionFunnel(rows).value.viewToPurchase))
  {
    assert CountOf(rows, View).Ok? && CountOf(rows, Cart).Ok? && CountOf(rows, Purchase).Ok?;
  }

  /** Unlike the report's funnel, which fails with IndexError, the page
      still shows rates for a log with views but no purchase: every rate
      into purchase is 0. */
  lemma PageRatesWithoutPurchases(es: seq<Event>)
    requires KindCount(es, View) > 0 && KindCount(es, Purchase) == 0
    ensures ConversionFunnel(EventCounts(es)).Err?
    ensures PageRates(EventCounts(es)).Some?
    ensures PageRates(EventCounts(es)).value.viewToPurchase == 0.0
    ensures PageRates(EventCounts(es)).value.cartToPurchase == 0.0
  {
    FunnelOfLog(es);
    CountOrZeroOfLog(es, View);
    CountOrZeroOfLog(es, Cart);
    CountOrZeroOfLog(es, Purchase);
    var rows := EventCounts(es);
    assert CountOrZero(rows, Purchase) == 0;
    ZeroRate(CountOrZero(rows, Cart));
    ZeroRate(CountOrZero(rows, View));
  }

  lemma ZeroRate(den: nat)
    ensures Rate(0, den) == 0.0
  {
  }

  // ---------------------------------------------------------------------
  // Price range histogram (price_buckets)

  datatype PriceRange = Under10 | Under50 | Under100 | Under500 | Under1K | From1K

  function RangeLabel(r: PriceRange): string {
    match r
    case Under10 => "$0-10"
    case Under50 => "$10-50"
    case Under100 => "$50-100"
    case Under500 => "$100-500"
    case Under1K => "$500-1K"
    case From1K => "$1K+"
  }

  /** The CASE ladder on the price, first match wins; each range is a
      half-open interval of cents. */
  function PriceRangeOf(price: int): (r: PriceRange)
    ensures r == Under10 <==> price < 1000
    ensures r == Under50 <==> 1000 <= price < 5000
    ensures r == Under100 <==> 5000 <= price < 10000
    ensures r == Under500 <==> 10000 <= price < 50000
    ensures r == Under1K <==> 50000 <= price < 100000
    ensures r == From1K <==> 100000 <= price
  {
    if price < 1000 then Under10
    else if price < 5000 then Under50
    else if price < 10000 then Under100
    else if price < 50000 then Under500
    else if price < 100000 then Under1K
    else From1K
  }

  /** The ORDER BY CASE on the range label: 1 to 5 for the named labels, 6 otherwise. */
  function SortKey(name: string): nat {
    if name == "$0-10" then 1
    else if name == "$10-50" then 2
    else if name == "$50-100" then 3
    else if name == "$100-500" then 4
    else if name == "$500-1K" then 5
    else 6
  }

  /** Position of a range in ascending price order. */
  function Rank(r: PriceRange): nat {
    match r
    case Under10 => 1
    case Under50 => 2
    case Under100 => 3
    case Under500 => 4
    case Under1K => 5
    case From1K => 6
  }

  /** The sort key of a range's label is its position in price order, so
      distinct ranges have distinct keys. */
  lemma SortKeyOfRange(r: PriceRange)
    ensures SortKey(RangeLabel(r)) == Rank(r)
  {
    match r
    case Under10 =>
    case Under50 =>
      assert |RangeLabel(r)| == 6;
    case Under100 =>
      assert |RangeLabel(r)| == 7 && RangeLabel(r)[1] == '5';
    case Under500 =>
      assert |RangeLabel(r)| == 8;
    case Under1K =>
      assert |RangeLabel(r)| == 7 && RangeLabel(r)[1] == '5' && RangeLabel(r)[3] == '0';
      assert "$50-100"[3] == '-';
    case From1K =>
      assert |RangeLabel(r)| == 4;
  }

  /** A cheaper price never falls in a later range. */
  lemma RankMonotone(p: int, q: int)
    requires p <= q
    ensures Rank(PriceRangeOf(p)) <= Rank(PriceRangeOf(q))
  {
  }

  /** A range earlier in price order holds only cheaper prices. */
  lemma RankSeparates(p: int, q: int)
    requires Rank(PriceRangeOf(p)) < Rank(PriceRangeOf(q))
    ensures p < q
  {
  }

  predicate Priced(e: Event) { e.price > 0 }
  function EventRange(e: Event): string { RangeLabel(PriceRangeOf(e.price)) }

  /** WHERE price > 0 and the price falls in the range labelled l. */
  function InRange(l: string): Event -> bool {
    (e: Event) => e.price > 0 && EventRange(e) == l
  }
  function LabelOrder(name: string): real { SortKey(name) as real }

  datatype PriceBucketRow = PriceBucketRow(range: string, count: nat)

  function BucketRange(row: PriceBucketRow): string { row.range }
  function BucketCount(row: PriceBucketRow): int { row.count }

  /** The range labels of the priced events, in the order of the sort key. */
  function BucketLabels(es: seq<Event>): (ls: seq<string>)
    ensures NoDup(ls)
    ensures forall l :: l in ls <==> exists e :: e in es && e.price > 0 && EventRange(e) == l
    ensures SortedBy(ls, LabelOrder)
  {
    var priced := Filter(es, Priced);
    var keys := Keys(priced, EventRange);
    var ls := SortBy(keys, LabelOrder);
    SortByNoDup(keys, LabelOrder);
    MultisetMembers(ls, keys);
    ls
  }

  function BucketFor(es: seq<Event>, l: string): PriceBucketRow {
    PriceBucketRow(l, |Group(Filter(es, Priced), EventRange, l)|)
  }

  /** price_buckets: one row per occurring range with its number of priced events. */
  function PriceBuckets(es: seq<Event>): (r: seq<PriceBucketRow>)
    ensures MapSeq(r, BucketRange) == BucketLabels(es)
  {
    var ls := BucketLabels(es);
    var r := MapSeq(ls, (l: string) => BucketFor(es, l));
    assert MapSeq(r, BucketRange) == ls;
    r
  }

  lemma PriceBucketsIndex(es: seq<Event>, i: int)
    requires 0 <= i < |PriceBuckets(es)|
    ensures PriceBuckets(es)[i] == BucketFor(es, BucketLabels(es)[i])
    ensures BucketLabels(es)[i] in BucketLabels(es)
  {
  }

  /** Each row is a range of some priced event, and its count is the number
      of events priced above 0 whose price falls in that range. */
  lemma PriceBucketRowMeaning(es: seq<Event>, i: int)
    requires 0 <= i < |PriceBuckets(es)|
    ensures exists r :: PriceBuckets(es)[i].range == RangeLabel(r)
    ensures PriceBuckets(es)[i].count >= 1
    ensures PriceBuckets(es)[i].count == Count(es, InRange(PriceBuckets(es)[i].range))
  {
    PriceBucketsIndex(es, i);
    var row := PriceBuckets(es)[i];
    var priced := Filter(es, Priced);
    var e :| e in es && e.price > 0 && EventRange(e) == row.range;
    assert e in priced;
    assert e in Group(priced, EventRange, row.range);
    var q := (x: Event) => EventRange(x) == row.range;
    GroupSize(priced, EventRange, row.range, q);
    CountFilterBy(es, Priced, q, InRange(row.range));
  }

  /** Rows come out in ascending price order: every event counted in an
      earlier row is cheaper than every event counted in a later one. */
  lemma PriceBucketsInPriceOrder(es: seq<Event>, i: int, j: int, a: Event, b: Event)
    requires 0 <= i < j < |PriceBuckets(es)|
    requires EventRange(a) == PriceBuckets(es)[i].range && EventRange(b) == PriceBuckets(es)[j].range
    ensures a.price < b.price
  {
    var ls := BucketLabels(es);
    PriceBucketsIndex(es, i);
    PriceBucketsIndex(es, j);
    assert LabelOrder(ls[i]) <= LabelOrder(ls[j]);
    SortKeyOfRange(PriceRangeOf(a.price));
    SortKeyOfRange(PriceRangeOf(b.price));
    assert ls[i] != ls[j];
    assert Rank(PriceRangeOf(a.price)) != Rank(PriceRangeOf(b.price));
    RankSeparates(a.price, b.price);
  }

  /** The histogram counts every priced event once and no free one. */
  lemma PriceBucketsTotal(es: seq<Event>)
    ensures Sum(PriceBuckets(es), BucketCount) == Count(es, Priced)
  {
    var priced := Filter(es, Priced);
    var ls := BucketLabels(es);
    var mk := (l: string) => BucketFor(es, l);
    assert PriceBuckets(es) == MapSeq(ls, mk);
    MultisetMembers(ls, Keys(priced, EventRange));
    forall l | l in ls ensures BucketCount(mk(l)) == Sum(Group(priced, EventRange, l), One) {
      CountStar(Group(priced, EventRange, l));
    }
    assert forall l :: l in Keys(priced, EventRange) <==> l in ls;
    GroupedSumPermuted(priced, ls, mk);
    CountStar(priced);
  }

  lemma GroupedSumPermuted(priced: seq<Event>, ls: seq<string>, mk: string -> PriceBucketRow)
    requires NoDup(ls)
    requires forall x :: x in priced ==> EventRange(x) in ls
    requires forall l :: l in ls ==> BucketCount(mk(l)) == Sum(Group(priced, EventRange, l), One)
    ensures Sum(MapSeq(ls, mk), BucketCount) == Sum(priced, One)
  {
    GroupedSum(priced, EventRange, ls, mk, BucketCount, One);
  }

  // ---------------------------------------------------------------------
  // Top categories and brands (categories, brands)

  const TopN: nat := 15

  /** COALESCE(category_code, 'unknown') and COALESCE(brand, 'unknown'). */
  function CategoryLabel(e: Event): string { OrUnknown(e.categoryCode) }
  function BrandLabel(e: Event): string { OrUnknown(e.brand) }

  datatype PopularityRow = PopularityRow(name: string, events: nat, users: nat, purchases: int)

  function LabelSize(es: seq<Event>, key: Event -> string, l: string): nat { |Group(es, key, l)| }

  /** The labels of the log, most events first (ties in any order). */
  function LabelsByEvents(es: seq<Event>, key: Event -> string): (ls: seq<string>)
    ensures NoDup(ls)
    ensures forall l :: l in ls <==> exists e :: e in es && key(e) == l
    ensures forall i, j :: 0 <= i < j < |ls| ==> LabelSize(es, key, ls[i]) >= LabelSize(es, key, ls[j])
  {
    var keys := Keys(es, key);
    var order := (l: string) => -(LabelSize(es, key, l) as real);
    var ls := SortBy(keys, order);
    SortByNoDup(keys, order);
    MultisetMembers(ls, keys);
    assert forall i, j :: 0 <= i < j < |ls| ==> order(ls[i]) <= order(ls[j]);
    ls
  }

  function PopularityFor(es: seq<Event>, key: Event -> string, l: string): PopularityRow {
    var g := Group(es, key, l);
    PopularityRow(l, |g|, |UserIds(g)|, FlagSum(g, Purchase))
  }

  function RowLabel(row: PopularityRow): string { row.name }
  function RowEvents(row: PopularityRow): int { row.events }

  /** GROUP BY label ORDER BY events DESC LIMIT 15. */
  function Popularity(es: seq<Event>, key: Event -> string): (r: seq<PopularityRow>)
    ensures |r| <= TopN
    ensures MapSeq(r, RowLabel) == LabelsByEvents(es, key)[..Min(TopN, |LabelsByEvents(es, key)|)]
  {
    var ls := LabelsByEvents(es, key);
    var top := ls[..Min(TopN, |ls|)];
    var r := MapSeq(top, (l: string) => PopularityFor(es, key, l));
    assert MapSeq(r, RowLabel) == top;
    r
  }

  function TopCategories(es: seq<Event>): seq<PopularityRow> { Popularity(es, CategoryLabel) }
  function TopBrands(es: seq<Event>): seq<PopularityRow> { Popularity(es, BrandLabel) }

  lemma PopularityIndex(es: seq<Event>, key: Event -> string, i: int)
    requires 0 <= i < |Popularity(es, key)|
    ensures i < |LabelsByEvents(es, key)|
    ensures Popularity(es, key)[i] == PopularityFor(es, key, LabelsByEvents(es, key)[i])
  {
    var ls := LabelsByEvents(es, key);
    assert MapSeq(Popularity(es, key), RowLabel)[i] == ls[i];
  }

  /** A row of the table: its label occurs, events counts its events,
      users is the number of its distinct users (at least one, at most
      events), purchases counts its purchase events. */
  lemma PopularityRowMeaning(es: seq<Event>, key: Event -> string, i: int)
    requires 0 <= i < |Popularity(es, key)|
    ensures Popularity(es, key)[i].events == |Group(es, key, Popularity(es, key)[i].name)| >= 1
    ensures Popularity(es, key)[i].users == |UserIds(Group(es, key, Popularity(es, key)[i].name))|
    ensures 1 <= Popularity(es, key)[i].users <= Popularity(es, key)[i].events
    ensures forall u :: u in UserIds(Group(es, key, Popularity(es, key)[i].name)) <==>
      exists e :: e in es && key(e) == Popularity(es, key)[i].name && e.user == u
    ensures Popularity(es, key)[i].purchases == KindCount(Group(es, key, Popularity(es, key)[i].name), Purchase)
  {
    PopularityIndex(es, key, i);
    var ls := LabelsByEvents(es, key);
    assert ls[i] in ls;
    var g := Group(es, key, ls[i]);
    var e :| e in es && key(e) == ls[i];
    assert e in g;
    FlagSumCounts(g, Purchase);
  }

  /** Labels are distinct and in descending order of events. */
  lemma PopularityOrder(es: seq<Event>, key: Event -> string, i: int, j: int)
    requires 0 <= i < j < |Popularity(es, key)|
    ensures Popularity(es, key)[i].name != Popularity(es, key)[j].name
    ensures Popularity(es, key)[i].events >= Popularity(es, key)[j].events
  {
    PopularityIndex(es, key, i);
    PopularityIndex(es, key, j);
  }

  /** LIMIT 15 keeps the most popular labels: a label of the log without a
      row is no more frequent than the last row, and is missing only when
      all 15 rows are taken. */
  lemma PopularityKeepsTop(es: seq<Event>, key: Event -> string, l: string)
    requires exists e :: e in es && key(e) == l
    requires forall row :: row in Popularity(es, key) ==> row.name != l
    ensures |Popularity(es, key)| == TopN
    ensures |Group(es, key, l)| <= Popularity(es, key)[TopN - 1].events
  {
    var ls := LabelsByEvents(es, key);
    var r := Popularity(es, key);
    var e :| e in es && key(e) == l;
    assert l in ls;
    var k :| 0 <= k < |ls| && ls[k] == l;
    forall i | 0 <= i < |r| ensures ls[i] != l {
      PopularityIndex(es, key, i);
      assert r[i] in r;
    }
    assert k >= |r|;
    assert |r| == Min(TopN, |ls|);
    assert |r| == TopN;
    PopularityIndex(es, key, TopN - 1);
    assert LabelSize(es, key, ls[TopN - 1]) >= LabelSize(es, key, ls[k]);
  }

  /** With at most 15 labels nothing is cut: every event is counted in
      exactly one row and the event column adds up to the log. */
  lemma PopularityTotal(es: seq<Event>, key: Event -> string)
    requires |LabelsByEvents(es, key)| <= TopN
    ensures Sum(Popularity(es, key), RowEvents) == |es|
  {
    var ls := LabelsByEvents(es, key);
    var mk := (l: string) => PopularityFor(es, key, l);
    assert ls[..Min(TopN, |ls|)] == ls;
    assert Popularity(es, key) == MapSeq(ls, mk);
    forall l | l in ls ensures RowEvents(mk(l)) == Sum(Group(es, key, l), One) {
      CountStar(Group(es, key, l));
    }
    GroupedSum(es, key, ls, mk, RowEvents, One);
    CountStar(es);
  }

  /** Events without a category code and events whose code is literally
      'unknown' share one row label. */
  lemma UnknownCategoryMerges(a: Event, b: Event)
    requires a.categoryCode.None? && b.categoryCode == Some("unknown")
    ensures CategoryLabel(a) == CategoryLabel(b) == "unknown"
  {
  }
}
