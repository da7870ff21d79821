/** RFM segmentation of buyers: raw recency / frequency / monetary metrics
    per purchasing user (rfm_base), NTILE(5) scores, the three-digit
    rfm_code and the first-match eight-label segment ladder
    (analysis_rfm_segments). */
module Segmentation {
  import opened Wrappers
  import opened Relational
  import opened Events
  import opened Ntile

  // ---------------------------------------------------------------------
  // rfm_base

  /** One row of rfm_base. */
  datatype RfmBase = RfmBase(user: int, recencyDays: int, frequency: int, monetary: int)

  /** The purchase events of one user. */
  function BuyerEvents(es: seq<Event>, u: int): (g: seq<Event>)
    ensures forall e :: e in g <==> e in es && e.kind == Purchase && e.user == u
  {
    Group(Purchases(es), EventUser, u)
  }

  /** The users with at least one purchase, each once. */
  function Buyers(es: seq<Event>): (us: seq<int>)
    ensures NoDup(us)
    ensures forall u :: u in us <==> exists e :: e in es && e.kind == Purchase && e.user == u
  {
    UserIds(Purchases(es))
  }

  /** The metrics of one buyer, measured against maxTime. */
  function RfmBaseRowFor(es: seq<Event>, maxTime: int, u: int): (row: RfmBase)
    ensures row.user == u
  {
    var g := BuyerEvents(es, u);
    if g == [] then RfmBase(u, 0, 0, 0)
    else RfmBase(u, Day(maxTime) - Day(LastTime(g)), |g|, Sum(g, Price))
  }

  function BaseUser(row: RfmBase): int { row.user }

  /** rfm_base for a given max_date: one row per buyer. */
  function RfmBaseOf(es: seq<Event>, maxTime: int): (r: seq<RfmBase>)
    ensures MapSeq(r, BaseUser) == Buyers(es)
  {
    var us := Buyers(es);
    var r := MapSeq(us, (u: int) => RfmBaseRowFor(es, maxTime, u));
    assert MapSeq(r, BaseUser) == us;
    r
  }

  /** rfm_base, with max_date = MAX(event_time) over all events. On an empty
      log max_date is NULL and the query text TIMESTAMP 'None' is rejected:
      the pipeline stops with an error and builds nothing. */
  function RfmBaseTable(es: seq<Event>): (r: Result<seq<RfmBase>, string>)
    ensures r.Err? <==> es == []
    ensures r.Ok? ==> r.value == RfmBaseOf(es, LastTime(es))
  {
    if es == [] then Err("max_date is NULL: TIMESTAMP 'None' cannot be parsed")
    else Ok(RfmBaseOf(es, LastTime(es)))
  }

  /** Exactly the buyers get a row, each one row. */
  lemma RfmBaseKeys(es: seq<Event>, maxTime: int)
    ensures forall i, j :: 0 <= i < j < |RfmBaseOf(es, maxTime)| ==> RfmBaseOf(es, maxTime)[i].user != RfmBaseOf(es, maxTime)[j].user
    ensures forall e :: e in es && e.kind == Purchase ==> exists row :: row in RfmBaseOf(es, maxTime) && row.user == e.user
    ensures forall row :: row in RfmBaseOf(es, maxTime) ==> exists e :: e in es && e.kind == Purchase && e.user == row.user
  {
    var r := RfmBaseOf(es, maxTime);
    var us := Buyers(es);
    RowsOfKeys(r, BaseUser, us);
    forall e | e in es && e.kind == Purchase ensures exists row :: row in r && row.user == e.user {
      assert e.user in us;
      var row :| row in r && BaseUser(row) == e.user;
    }
    forall row | row in r ensures exists e :: e in es && e.kind == Purchase && e.user == row.user {
      assert BaseUser(row) in us;
    }
  }

  /** Rows of rfm_base are pairwise distinct, being keyed by user. */
  lemma RfmBaseDistinct(es: seq<Event>, maxTime: int)
    ensures NoDup(RfmBaseOf(es, maxTime))
  {
    RfmBaseKeys(es, maxTime);
  }

  /** The row of a buyer aggregates the buyer's non-empty purchase group. */
  lemma RfmBaseRowOf(es: seq<Event>, maxTime: int, row: RfmBase)
    requires row in RfmBaseOf(es, maxTime)
    ensures BuyerEvents(es, row.user) != []
    ensures row == RfmBaseRowFor(es, maxTime, row.user)
  {
    var r := RfmBaseOf(es, maxTime);
    var us := Buyers(es);
    var i :| 0 <= i < |r| && r[i] == row;
    assert row.user == MapSeq(r, BaseUser)[i] == us[i];
    assert us[i] in us;
    var w :| w in es && w.kind == Purchase && w.user == row.user;
    assert w in BuyerEvents(es, row.user);
  }

  /** What an rfm_base row says about its buyer's purchases. */
  ghost predicate RfmBaseMeaning(es: seq<Event>, maxTime: int, row: RfmBase) {
    var g := BuyerEvents(es, row.user);
    // frequency_count is the number of the user's purchase events, at least one
    row.frequency == |g| >= 1 &&
    // monetary_value sums their prices
    row.monetary == Sum(g, Price) &&
    // recency_days counts the days from the last purchase to max_date
    (exists e :: e in g && row.recencyDays == Day(maxTime) - Day(e.time) &&
                 forall e' :: e' in g ==> e'.time <= e.time)
  }

  lemma RfmBaseRow(es: seq<Event>, maxTime: int, row: RfmBase)
    requires row in RfmBaseOf(es, maxTime)
    ensures RfmBaseMeaning(es, maxTime, row)
  {
    RfmBaseRowOf(es, maxTime, row);
    RfmBaseForMeaning(BuyerEvents(es, row.user), maxTime, row);
  }

  /** A row computed from a non-empty purchase group g means what the
      columns of rfm_base promise about g. */
  lemma RfmBaseForMeaning(g: seq<Event>, maxTime: int, row: RfmBase)
    requires g != []
    requires row.recencyDays == Day(maxTime) - Day(LastTime(g))
    requires row.frequency == |g| && row.monetary == Sum(g, Price)
    ensures row.frequency == |g| >= 1 && row.monetary == Sum(g, Price)
    ensures exists e :: e in g && row.recencyDays == Day(maxTime) - Day(e.time) &&
                        forall e' :: e' in g ==> e'.time <= e.time
  {
    var e :| e in g && e.time == LastTime(g);
    assert forall e' :: e' in g ==> e'.time <= e.time;
    assert row.recencyDays == Day(maxTime) - Day(e.time);
  }

  /** max_date is the latest event of the whole log, so no buyer's recency is negative. */
  lemma RecencyNonNegative(es: seq<Event>, row: RfmBase)
    requires es != [] && row in RfmBaseOf(es, LastTime(es))
    ensures row.recencyDays >= 0
  {
    RfmBaseRow(es, LastTime(es), row);
    var g := BuyerEvents(es, row.user);
    var e :| e in g && row.recencyDays == Day(LastTime(es)) - Day(e.time) &&
             forall e' :: e' in g ==> e'.time <= e.time;
    DayMonotone(e.time, LastTime(es));
  }

  // ---------------------------------------------------------------------
  // Scores, rfm_code and the segment ladder

  /** The eight labels of the CASE ladder. */
  datatype Segment =
    | Champions | LoyalCustomers | NewCustomers | Promising
    | NeedAttention | CantLoseThem | Hibernating | AtRisk

  function Label(s: Segment): string {
    match s
    case Champions => "Champions"
    case LoyalCustomers => "Loyal Customers"
    case NewCustomers => "New Customers"
    case Promising => "Promising"
    case NeedAttention => "Need Attention"
    case CantLoseThem => "Cant Lose Them"
    case Hibernating => "Hibernating"
    case AtRisk => "At Risk"
  }

  /** The first-match CASE over (r_score, f_score). For scores in 1..5 every
      label is reached on exactly the region stated, the regions being
      disjoint: in particular 'At Risk' takes (r=1, f=3), (r=2, f=1) and
      (r>=3, f=2). */
  function SegmentOf(r: int, f: int): (s: Segment)
    ensures 1 <= r <= 5 && 1 <= f <= 5 ==>
      (s == Champions <==> r >= 4 && f >= 4) &&
      (s == LoyalCustomers <==> (r == 3 && f >= 3) || (r >= 4 && f == 3)) &&
      (s == NewCustomers <==> r >= 4 && f == 1) &&
      (s == Promising <==> r == 3 && f == 1) &&
      (s == NeedAttention <==> r == 2 && f >= 2) &&
      (s == CantLoseThem <==> r == 1 && f >= 4) &&
      (s == Hibernating <==> r == 1 && f <= 2) &&
      (s == AtRisk <==> (r == 1 && f == 3) || (r == 2 && f == 1) || (r >= 3 && f == 2))
  {
    if r >= 4 && f >= 4 then Champions
    else if r >= 3 && f >= 3 then LoyalCustomers
    else if r >= 4 && f == 1 then NewCustomers
    else if r >= 3 && f == 1 then Promising
    else if r == 2 && f >= 2 then NeedAttention
    else if r == 1 && f >= 4 then CantLoseThem
    else if r == 1 && f <= 2 then Hibernating
    else AtRisk
  }

  /** CAST(d AS VARCHAR) for a single decimal digit. */
  function DigitChar(d: int): char
    requires 0 <= d <= 9
  {
    ('0' as int + d) as char
  }

  function DigitValue(c: char): int {
    c as int - '0' as int
  }

  /** CAST(r AS VARCHAR) || CAST(f AS VARCHAR) || CAST(m AS VARCHAR). */
  function RfmCode(r: int, f: int, m: int): (code: string)
    requires 0 <= r <= 9 && 0 <= f <= 9 && 0 <= m <= 9
    ensures |code| == 3
    ensures forall i :: 0 <= i < 3 ==> '0' <= code[i] <= '9'
  {
    [DigitChar(r), DigitChar(f), DigitChar(m)]
  }

  /** Reading the three scores back from an rfm_code. */
  function DecodeRfmCode(code: string): (scores: Option<(int, int, int)>)
    ensures scores.Some? <==> |code| == 3
  {
    if |code| == 3 then Some((DigitValue(code[0]), DigitValue(code[1]), DigitValue(code[2]))) else None
  }

  /** The code determines the scores: decoding gives them back, so two rows
      with the same code have the same three scores. */
  lemma RfmCodeRoundTrip(r: int, f: int, m: int)
    requires 0 <= r <= 9 && 0 <= f <= 9 && 0 <= m <= 9
    ensures DecodeRfmCode(RfmCode(r, f, m)) == Some((r, f, m))
  {
    var code := RfmCode(r, f, m);
    assert code[0] == DigitChar(r) && code[1] == DigitChar(f) && code[2] == DigitChar(m);
  }

  /** One row of analysis_rfm_segments. */
  datatype RfmSegmentRow = RfmSegmentRow(
    user: int,
    recencyDays: int,
    frequency: int,
    monetary: int,
    rScore: int,
    fScore: int,
    mScore: int,
    rfmCode: string,
    segment: Segment)

  function RecencyKey(row: RfmBase): real { row.recencyDays as real }
  function FrequencyKey(row: RfmBase): real { row.frequency as real }
  function MonetaryKey(row: RfmBase): real { row.monetary as real }

  /** An ORDER BY key of the window: the rows of base, each once, ascending
      by key. Rows with equal keys may come in any order. */
  ghost predicate IsOrdering(base: seq<RfmBase>, sorted: seq<RfmBase>, key: RfmBase -> real) {
    SortedBy(sorted, key) && NoDup(sorted) && forall x :: x in sorted <==> x in base
  }

  /** NTILE(5) OVER (ORDER BY ...) of a row, given the window's order. */
  function Tile(sorted: seq<RfmBase>, x: RfmBase): int {
    if x in sorted then TileOf(5, sorted, x) else 0
  }

  function ScoreRow(row: RfmBase, byR: seq<RfmBase>, byF: seq<RfmBase>, byM: seq<RfmBase>): RfmSegmentRow
    requires row in byR && row in byF && row in byM
  {
    var r := 6 - Tile(byR, row);
    var f := Tile(byF, row);
    var m := Tile(byM, row);
    RfmSegmentRow(row.user, row.recencyDays, row.frequency, row.monetary,
                  r, f, m, RfmCode(r, f, m), SegmentOf(r, f))
  }

  /** analysis_rfm_segments, given the three window orders byR, byF and byM
      (ascending recency, frequency and monetary value). Each row keeps its
      base metrics, its three scores lie in 1..5, its code spells them out
      and its label follows the ladder. */
  function RfmSegments(base: seq<RfmBase>, byR: seq<RfmBase>, byF: seq<RfmBase>, byM: seq<RfmBase>): (rs: seq<RfmSegmentRow>)
    requires IsOrdering(base, byR, RecencyKey) && IsOrdering(base, byF, FrequencyKey) && IsOrdering(base, byM, MonetaryKey)
    ensures |rs| == |base|
    ensures forall i :: 0 <= i < |rs| ==>
      rs[i].user == base[i].user && rs[i].recencyDays == base[i].recencyDays &&
      rs[i].frequency == base[i].frequency && rs[i].monetary == base[i].monetary
    ensures forall i :: 0 <= i < |rs| ==>
      1 <= rs[i].rScore <= 5 && 1 <= rs[i].fScore <= 5 && 1 <= rs[i].mScore <= 5
    ensures forall i :: 0 <= i < |rs| ==>
      DecodeRfmCode(rs[i].rfmCode) == Some((rs[i].rScore, rs[i].fScore, rs[i].mScore)) &&
      rs[i].segment == SegmentOf(rs[i].rScore, rs[i].fScore)
  {
    var rs := seq(|base|, i requires 0 <= i < |base| => ScoreRow(base[i], byR, byF, byM));
    forall i | 0 <= i < |rs|
      ensures DecodeRfmCode(rs[i].rfmCode) == Some((rs[i].rScore, rs[i].fScore, rs[i].mScore))
    {
      RfmCodeRoundTrip(rs[i].rScore, rs[i].fScore, rs[i].mScore);
    }
    rs
  }

  /** Recency is inverted: a more recent buyer never gets a lower r_score. */
  lemma RecencyInverted(base: seq<RfmBase>, byR: seq<RfmBase>, byF: seq<RfmBase>, byM: seq<RfmBase>, i: int, j: int)
    requires IsOrdering(base, byR, RecencyKey) && IsOrdering(base, byF, FrequencyKey) && IsOrdering(base, byM, MonetaryKey)
    requires 0 <= i < |base| && 0 <= j < |base|
    requires base[i].recencyDays < base[j].recencyDays
    ensures RfmSegments(base, byR, byF, byM)[i].rScore >= RfmSegments(base, byR, byF, byM)[j].rScore
  {
    assert base[i] in base && base[j] in base;
    TileMonotone(5, byR, RecencyKey, base[i], base[j]);
  }

  /** A buyer with more purchases never gets a lower f_score. */
  lemma FrequencyMonotone(base: seq<RfmBase>, byR: seq<RfmBase>, byF: seq<RfmBase>, byM: seq<RfmBase>, i: int, j: int)
    requires IsOrdering(base, byR, RecencyKey) && IsOrdering(base, byF, FrequencyKey) && IsOrdering(base, byM, MonetaryKey)
    requires 0 <= i < |base| && 0 <= j < |base|
    requires base[i].frequency < base[j].frequency
    ensures RfmSegments(base, byR, byF, byM)[i].fScore <= RfmSegments(base, byR, byF, byM)[j].fScore
  {
    assert base[i] in base && base[j] in base;
    TileMonotone(5, byF, FrequencyKey, base[i], base[j]);
  }

  /** A buyer who spent more never gets a lower m_score. */
  lemma MonetaryMonotone(base: seq<RfmBase>, byR: seq<RfmBase>, byF: seq<RfmBase>, byM: seq<RfmBase>, i: int, j: int)
    requires IsOrdering(base, byR, RecencyKey) && IsOrdering(base, byF, FrequencyKey) && IsOrdering(base, byM, MonetaryKey)
    requires 0 <= i < |base| && 0 <= j < |base|
    requires base[i].monetary < base[j].monetary
    ensures RfmSegments(base, byR, byF, byM)[i].mScore <= RfmSegments(base, byR, byF, byM)[j].mScore
  {
    assert base[i] in base && base[j] in base;
    TileMonotone(5, byM, MonetaryKey, base[i], base[j]);
  }

  predicate FScoreIs(b: int, row: RfmSegmentRow) { row.fScore == b }
  predicate RScoreIs(b: int, row: RfmSegmentRow) { row.rScore == b }
  predicate MScoreIs(b: int, row: RfmSegmentRow) { row.mScore == b }

  /** Counting the rows of a window order that NTILE puts in bucket b. */
  lemma BucketCount(base: seq<RfmBase>, sorted: seq<RfmBase>, key: RfmBase -> real, b: nat, p: RfmBase -> bool)
    requires NoDup(base) && IsOrdering(base, sorted, key)
    requires forall x :: x in base ==> p(x) == (Tile(sorted, x) == b)
    ensures Count(base, p) == Size(5, |base|, b)
  {
    CountSameRows(base, sorted, p);
    TileBalance(5, sorted, b, p);
    CountAsSet(base, p);
    CountAsSet(sorted, p);
    assert (set x | x in base && p(x)) == (set x | x in sorted && p(x));
    SameMembersSameLength(base, sorted);
  }

  /** NTILE balance: of N buyers, NTILE bucket b of every metric holds
      Size(5, N, b) of them, which is floor(N/5) or ceil(N/5), the larger
      sizes going to the lower-numbered buckets. r_score b is NTILE bucket
      6 - b. */
  lemma ScoreBalance(base: seq<RfmBase>, byR: seq<RfmBase>, byF: seq<RfmBase>, byM: seq<RfmBase>, b: int)
    requires NoDup(base)
    requires IsOrdering(base, byR, RecencyKey) && IsOrdering(base, byF, FrequencyKey) && IsOrdering(base, byM, MonetaryKey)
    requires 1 <= b <= 5
    ensures Count(RfmSegments(base, byR, byF, byM), row => FScoreIs(b, row)) == Size(5, |base|, b)
    ensures Count(RfmSegments(base, byR, byF, byM), row => MScoreIs(b, row)) == Size(5, |base|, b)
    ensures Count(RfmSegments(base, byR, byF, byM), row => RScoreIs(b, row)) == Size(5, |base|, 6 - b)
    ensures |base| / 5 <= Size(5, |base|, b) <= (|base| + 4) / 5
  {
    var rs := RfmSegments(base, byR, byF, byM);
    BucketCount(base, byF, FrequencyKey, b, x => Tile(byF, x) == b);
    BucketCount(base, byM, MonetaryKey, b, x => Tile(byM, x) == b);
    BucketCount(base, byR, RecencyKey, 6 - b, x => Tile(byR, x) == 6 - b);
    CountAlong(rs, base, row => FScoreIs(b, row), x => Tile(byF, x) == b);
    CountAlong(rs, base, row => MScoreIs(b, row), x => Tile(byM, x) == b);
    CountAlong(rs, base, row => RScoreIs(b, row), x => Tile(byR, x) == 6 - b);
    SizeBalanced(5, |base|, b);
  }

  // ---------------------------------------------------------------------
  // The whole pipeline

  /** Ascending ORDER BY key over the rows of a table is a window order. */
  lemma SortByOrdering(base: seq<RfmBase>, key: RfmBase -> real)
    requires NoDup(base)
    ensures IsOrdering(base, SortBy(base, key), key)
  {
    var sorted := SortBy(base, key);
    SortByNoDup(base, key);
    forall x ensures x in sorted <==> x in base {
      assert x in sorted <==> x in multiset(sorted);
      assert x in base <==> x in multiset(base);
    }
  }

  /** The segmentation pipeline: rfm_base, then the scores and labels: one
      row per buyer, with scores in 1..5, the code spelling them out and the
      ladder's label. Window ties are broken by the insertion order of the
      sort. */
  function RfmAnalysis(es: seq<Event>): (r: Result<seq<RfmSegmentRow>, string>)
    ensures r.Err? <==> es == []
    ensures r.Ok? ==> |r.value| == |Buyers(es)|
    ensures r.Ok? ==> forall i :: 0 <= i < |r.value| ==> r.value[i].user == Buyers(es)[i]
    ensures r.Ok? ==> forall i :: 0 <= i < |r.value| ==>
      1 <= r.value[i].rScore <= 5 && 1 <= r.value[i].fScore <= 5 && 1 <= r.value[i].mScore <= 5
    ensures r.Ok? ==> forall i :: 0 <= i < |r.value| ==>
      DecodeRfmCode(r.value[i].rfmCode) == Some((r.value[i].rScore, r.value[i].fScore, r.value[i].mScore)) &&
      r.value[i].segment == SegmentOf(r.value[i].rScore, r.value[i].fScore)
  {
    match RfmBaseTable(es)
    case Err(msg) => Err(msg)
    case Ok(base) =>
      RfmBaseDistinct(es, LastTime(es));
      SortByOrdering(base, RecencyKey);
      SortByOrdering(base, FrequencyKey);
      SortByOrdering(base, MonetaryKey);
      Ok(RfmSegments(base, SortBy(base, RecencyKey), SortBy(base, FrequencyKey), SortBy(base, MonetaryKey)))
  }
}
