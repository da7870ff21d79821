/** user_rfm_segments of the warehouse (scripts/create_cloud_database.py and
    app/db_utils.py): per buyer, recency counted in days up to the current
    date, frequency as the number of distinct purchase days, monetary value;
    NTILE(5) scores with recency ordered descending, their total, and the
    six-label segment ladder. */
module WarehouseRfm {
  import opened Relational
  import opened Events
  import opened Ntile
  import opened Segmentation

  // ---------------------------------------------------------------------
  // buyer_rfm

  /** COUNT(DISTINCT CAST(event_time AS DATE)): the days of g, each once. */
  function EventDays(g: seq<Event>): (ds: seq<int>)
    ensures NoDup(ds)
    ensures |ds| <= |g|
    ensures g != [] ==> |ds| >= 1
    ensures forall d :: d in ds <==> exists e :: e in g && Day(e.time) == d
  {
    var ds := Keys(g, EventDay);
    assert g != [] ==> g[0] in g && EventDay(g[0]) in ds;
    ds
  }

  /** The metrics of one buyer, with today the CURRENT_DATE as a day number. */
  function BuyerRowFor(es: seq<Event>, today: int, u: int): RfmBase {
    var g := BuyerEvents(es, u);
    if g == [] then RfmBase(u, 0, 0, 0)
    else RfmBase(u, today - Day(LastTime(g)), |EventDays(g)|, Sum(g, Price))
  }

  /** buyer_rfm: one row per user with a purchase. A log without purchases
      gives an empty table. */
  function BuyerRfm(es: seq<Event>, today: int): (r: seq<RfmBase>)
    ensures MapSeq(r, BaseUser) == Buyers(es)
  {
    var us := Buyers(es);
    var r := MapSeq(us, (u: int) => BuyerRowFor(es, today, u));
    assert MapSeq(r, BaseUser) == us;
    r
  }

  /** Exactly the buyers get a row, each one row. */
  lemma BuyerRfmKeys(es: seq<Event>, today: int)
    ensures NoDup(BuyerRfm(es, today))
    ensures forall i, j :: 0 <= i < j < |BuyerRfm(es, today)| ==> BuyerRfm(es, today)[i].user != BuyerRfm(es, today)[j].user
    ensures forall e :: e in es && e.kind == Purchase ==> exists row :: row in BuyerRfm(es, today) && row.user == e.user
    ensures forall row :: row in BuyerRfm(es, today) ==> exists e :: e in es && e.kind == Purchase && e.user == row.user
  {
    var r := BuyerRfm(es, today);
    var us := Buyers(es);
    RowsOfKeys(r, BaseUser, us);
    forall e | e in es && e.kind == Purchase ensures exists row :: row in r && row.user == e.user {
      assert e.user in us;
      var row :| row in r && BaseUser(row) == e.user;
    }
    forall row | row in r ensures exists e :: e in es && e.kind == Purchase && e.user == row.user {
      assert BaseUser(row) in us;
    }
  }

  /** What a buyer_rfm row says about its buyer's purchases. */
  ghost predicate BuyerRfmMeaning(es: seq<Event>, today: int, row: RfmBase) {
    var g := BuyerEvents(es, row.user);
    g != [] &&
    // frequency counts distinct purchase days: at least one, at most one per purchase
    row.frequency == |EventDays(g)| &&
    1 <= row.frequency <= |g| &&
    row.monetary == Sum(g, Price) &&
    // recency_days runs from the day of the latest purchase to today
    (exists e :: e in g && row.recencyDays == today - Day(e.time) &&
                 forall e' :: e' in g ==> e'.time <= e.time)
  }

  lemma BuyerRfmRow(es: seq<Event>, today: int, row: RfmBase)
    requires row in BuyerRfm(es, today)
    ensures BuyerRfmMeaning(es, today, row)
  {
    BuyerRfmUsers(es, today);
    var r := BuyerRfm(es, today);
    var i :| 0 <= i < |r| && r[i] == row;
    assert Buyers(es)[i] in Buyers(es);
    var w :| w in es && w.kind == Purchase && w.user == row.user;
    var g := BuyerEvents(es, row.user);
    assert w in g;
    assert row == BuyerRowFor(es, today, row.user);
    var t := LastTime(g);
    var e :| e in g && e.time == t;
    assert row.recencyDays == today - Day(e.time);
  }

  /** Row i of buyer_rfm is the row of the i-th buyer. */
  lemma BuyerRfmUsers(es: seq<Event>, today: int)
    ensures |BuyerRfm(es, today)| == |Buyers(es)|
    ensures forall i :: 0 <= i < |Buyers(es)| ==> BuyerRfm(es, today)[i] == BuyerRowFor(es, today, Buyers(es)[i])
    ensures forall i :: 0 <= i < |Buyers(es)| ==> BuyerRfm(es, today)[i].user == Buyers(es)[i]
  {
    var r := BuyerRfm(es, today);
    assert forall i :: 0 <= i < |r| ==> r[i].user == MapSeq(r, BaseUser)[i];
  }

  /** When no event lies after today, no recency is negative. */
  lemma BuyerRecencyNonNegative(es: seq<Event>, today: int, row: RfmBase)
    requires forall e :: e in es ==> Day(e.time) <= today
    requires row in BuyerRfm(es, today)
    ensures row.recencyDays >= 0
  {
    BuyerRfmRow(es, today, row);
  }

  // ---------------------------------------------------------------------
  // Scores and the segment ladder

  /** The six labels of the warehouse ladder. */
  datatype WarehouseSegment = Champions | LoyalCustomers | Promising | AtRisk | Lost | Regular

  function SegmentLabel(s: WarehouseSegment): string {
    match s
    case Champions => "Champions"
    case LoyalCustomers => "Loyal Customers"
    case Promising => "Promising"
    case AtRisk => "At Risk"
    case Lost => "Lost"
    case Regular => "Regular"
  }

  /** The first-match CASE ladder on r_score and f_score. For scores in
      1..5 each label covers one region of the 5x5 grid, and 'Regular' is
      left with r_score 3 and f_score at most 2. */
  function WarehouseSegmentOf(r: int, f: int): (s: WarehouseSegment)
    ensures 1 <= r <= 5 && 1 <= f <= 5 ==>
      (s == WarehouseSegment.Champions <==> r >= 4 && f >= 4) &&
      (s == WarehouseSegment.LoyalCustomers <==> r >= 3 && f >= 3 && !(r >= 4 && f >= 4)) &&
      (s == WarehouseSegment.Promising <==> r >= 4 && f <= 2) &&
      (s == WarehouseSegment.AtRisk <==> r <= 2 && f >= 3) &&
      (s == WarehouseSegment.Lost <==> r <= 2 && f <= 2) &&
      (s == WarehouseSegment.Regular <==> r == 3 && f <= 2)
  {
    if r >= 4 && f >= 4 then WarehouseSegment.Champions
    else if r >= 3 && f >= 3 then WarehouseSegment.LoyalCustomers
    else if r >= 4 && f <= 2 then WarehouseSegment.Promising
    else if r <= 2 && f >= 3 then WarehouseSegment.AtRisk
    else if r <= 2 && f <= 2 then WarehouseSegment.Lost
    else WarehouseSegment.Regular
  }

  /** One row of user_rfm_segments. */
  datatype WarehouseRfmRow = WarehouseRfmRow(
    user: int,
    recencyDays: int,
    frequency: int,
    monetary: int,
    rScore: int,
    fScore: int,
    mScore: int,
    rfmTotal: int,
    segment: WarehouseSegment)

  /** ORDER BY recency_days DESC, as an ascending key. */
  function NegRecencyKey(row: RfmBase): real { -(row.recencyDays as real) }

  function WarehouseScoreRow(row: RfmBase, byR: seq<RfmBase>, byF: seq<RfmBase>, byM: seq<RfmBase>): WarehouseRfmRow
    requires row in byR && row in byF && row in byM
  {
    var r := Tile(byR, row);
    var f := Tile(byF, row);
    var m := Tile(byM, row);
    WarehouseRfmRow(row.user, row.recencyDays, row.frequency, row.monetary,
                    r, f, m, r + f + m, WarehouseSegmentOf(r, f))
  }

  /** user_rfm_segments, given the window orders byR (descending recency),
      byF and byM (ascending frequency and monetary value). Each row keeps
      its metrics, its scores lie in 1..5, rfm_total is their sum, in 3..15,
      and its label follows the ladder. */
  function WarehouseRfmScores(base: seq<RfmBase>, byR: seq<RfmBase>, byF: seq<RfmBase>, byM: seq<RfmBase>): (rs: seq<WarehouseRfmRow>)
    requires IsOrdering(base, byR, NegRecencyKey) && IsOrdering(base, byF, FrequencyKey) && IsOrdering(base, byM, MonetaryKey)
    ensures |rs| == |base|
    ensures forall i :: 0 <= i < |rs| ==>
      rs[i].user == base[i].user && rs[i].recencyDays == base[i].recencyDays &&
      rs[i].frequency == base[i].frequency && rs[i].monetary == base[i].monetary
    ensures forall i :: 0 <= i < |rs| ==>
      1 <= rs[i].rScore <= 5 && 1 <= rs[i].fScore <= 5 && 1 <= rs[i].mScore <= 5
    ensures forall i :: 0 <= i < |rs| ==>
      rs[i].rfmTotal == rs[i].rScore + rs[i].fScore + rs[i].mScore && 3 <= rs[i].rfmTotal <= 15
    ensures forall i :: 0 <= i < |rs| ==> rs[i].segment == WarehouseSegmentOf(rs[i].rScore, rs[i].fScore)
  {
    seq(|base|, i requires 0 <= i < |base| => WarehouseScoreRow(base[i], byR, byF, byM))
  }

  /** Recency is ordered descending: a more recent buyer never gets a lower r_score. */
  lemma WarehouseRecencyMonotone(base: seq<RfmBase>, byR: seq<RfmBase>, byF: seq<RfmBase>, byM: seq<RfmBase>, i: int, j: int)
    requires IsOrdering(base, byR, NegRecencyKey) && IsOrdering(base, byF, FrequencyKey) && IsOrdering(base, byM, MonetaryKey)
    requires 0 <= i < |base| && 0 <= j < |base|
    requires base[i].recencyDays < base[j].recencyDays
    ensures WarehouseRfmScores(base, byR, byF, byM)[i].rScore >= WarehouseRfmScores(base, byR, byF, byM)[j].rScore
  {
    assert base[i] in base && base[j] in base;
    TileMonotone(5, byR, NegRecencyKey, base[j], base[i]);
  }

  /** A buyer active on more days never gets a lower f_score. */
  lemma WarehouseFrequencyMonotone(base: seq<RfmBase>, byR: seq<RfmBase>, byF: seq<RfmBase>, byM: seq<RfmBase>, i: int, j: int)
    requires IsOrdering(base, byR, NegRecencyKey) && IsOrdering(base, byF, FrequencyKey) && IsOrdering(base, byM, MonetaryKey)
    requires 0 <= i < |base| && 0 <= j < |base|
    requires base[i].frequency < base[j].frequency
    ensures WarehouseRfmScores(base, byR, byF, byM)[i].fScore <= WarehouseRfmScores(base, byR, byF, byM)[j].fScore
  {
    assert base[i] in base && base[j] in base;
    TileMonotone(5, byF, FrequencyKey, base[i], base[j]);
  }

  /** A buyer who spent more never gets a lower m_score. */
  lemma WarehouseMonetaryMonotone(base: seq<RfmBase>, byR: seq<RfmBase>, byF: seq<RfmBase>, byM: seq<RfmBase>, i: int, j: int)
    requires IsOrdering(base, byR, NegRecencyKey) && IsOrdering(base, byF, FrequencyKey) && IsOrdering(base, byM, MonetaryKey)
    requires 0 <= i < |base| && 0 <= j < |base|
    requires base[i].monetary < base[j].monetary
    ensures WarehouseRfmScores(base, byR, byF, byM)[i].mScore <= WarehouseRfmScores(base, byR, byF, byM)[j].mScore
  {
    assert base[i] in base && base[j] in base;
    TileMonotone(5, byM, MonetaryKey, base[i], base[j]);
  }

  predicate RIs(b: int, row: WarehouseRfmRow) { row.rScore == b }
  predicate FIs(b: int, row: WarehouseRfmRow) { row.fScore == b }
  predicate MIs(b: int, row: WarehouseRfmRow) { row.mScore == b }

  /** NTILE balance: of N buyers, score b of each metric goes to
      Size(5, N, b) of them, floor(N/5) or ceil(N/5). */
  lemma WarehouseScoreBalance(base: seq<RfmBase>, byR: seq<RfmBase>, byF: seq<RfmBase>, byM: seq<RfmBase>, b: int)
    requires NoDup(base)
    requires IsOrdering(base, byR, NegRecencyKey) && IsOrdering(base, byF, FrequencyKey) && IsOrdering(base, byM, MonetaryKey)
    requires 1 <= b <= 5
    ensures Count(WarehouseRfmScores(base, byR, byF, byM), row => RIs(b, row)) == Size(5, |base|, b)
    ensures Count(WarehouseRfmScores(base, byR, byF, byM), row => FIs(b, row)) == Size(5, |base|, b)
    ensures Count(WarehouseRfmScores(base, byR, byF, byM), row => MIs(b, row)) == Size(5, |base|, b)
    ensures |base| / 5 <= Size(5, |base|, b) <= (|base| + 4) / 5
  {
    var rs := WarehouseRfmScores(base, byR, byF, byM);
    BucketCount(base, byR, NegRecencyKey, b, x => Tile(byR, x) == b);
    BucketCount(base, byF, FrequencyKey, b, x => Tile(byF, x) == b);
    BucketCount(base, byM, MonetaryKey, b, x => Tile(byM, x) == b);
    CountAlong(rs, base, row => RIs(b, row), x => Tile(byR, x) == b);
    CountAlong(rs, base, row => FIs(b, row), x => Tile(byF, x) == b);
    CountAlong(rs, base, row => MIs(b, row), x => Tile(byM, x) == b);
    SizeBalanced(5, |base|, b);
  }

  // ---------------------------------------------------------------------
  // The whole statement

  /** user_rfm_segments for CURRENT_DATE = today: one scored row per buyer,
      in buyer order; window ties are broken by the insertion order of the
      sort. */
  function WarehouseRfmAnalysis(es: seq<Event>, today: int): (r: seq<WarehouseRfmRow>)
    ensures |r| == |Buyers(es)|
    ensures forall i :: 0 <= i < |r| ==> r[i].user == Buyers(es)[i]
    ensures forall i :: 0 <= i < |r| ==> 1 <= r[i].rScore <= 5 && 1 <= r[i].fScore <= 5 && 1 <= r[i].mScore <= 5
    ensures forall i :: 0 <= i < |r| ==> r[i].segment == WarehouseSegmentOf(r[i].rScore, r[i].fScore)
  {
    var base := BuyerRfm(es, today);
    BuyerRfmUsers(es, today);
    WindowOrders(es, today);
    WarehouseRfmScores(base, SortBy(base, NegRecencyKey), SortBy(base, FrequencyKey), SortBy(base, MonetaryKey))
  }

  /** The three ORDER BY keys sort buyer_rfm into window orders. */
  lemma WindowOrders(es: seq<Event>, today: int)
    ensures IsOrdering(BuyerRfm(es, today), SortBy(BuyerRfm(es, today), NegRecencyKey), NegRecencyKey)
    ensures IsOrdering(BuyerRfm(es, today), SortBy(BuyerRfm(es, today), FrequencyKey), FrequencyKey)
    ensures IsOrdering(BuyerRfm(es, today), SortBy(BuyerRfm(es, today), MonetaryKey), MonetaryKey)
  {
    var base := BuyerRfm(es, today);
    BuyerRfmKeys(es, today);
    SortByOrdering(base, NegRecencyKey);
    SortByOrdering(base, FrequencyKey);
    SortByOrdering(base, MonetaryKey);
  }

  /** Every row of the analysis carries the metrics of its buyer. */
  lemma WarehouseRfmAnalysisRow(es: seq<Event>, today: int, i: int)
    requires 0 <= i < |WarehouseRfmAnalysis(es, today)|
    ensures BuyerRfmMeaning(es, today, BuyerRfm(es, today)[i])
    ensures WarehouseRfmAnalysis(es, today)[i].recencyDays == BuyerRfm(es, today)[i].recencyDays
    ensures WarehouseRfmAnalysis(es, today)[i].frequency == BuyerRfm(es, today)[i].frequency
    ensures WarehouseRfmAnalysis(es, today)[i].monetary == BuyerRfm(es, today)[i].monetary
  {
    var base := BuyerRfm(es, today);
    BuyerRfmUsers(es, today);
    WindowOrders(es, today);
    assert base[i] in base;
    BuyerRfmRow(es, today, base[i]);
  }
}
