/** predictions_product_affinity of the warehouse. Both the cloud script
    (scripts/create_cloud_database.py) and the in-memory loader
    (app/db_utils.py) count sessions, not row pairs: pair_count is the
    number of distinct sessions that bought both products (A < B), the
    support of a product the number of sessions that bought it, and N the
    number of sessions with a purchase. The cloud table keeps the rules with
    lift > 1.2; the in-memory table keeps every pair with pair_count >= 3,
    guarding its divisions with NULLIF. */
module WarehouseAffinity {
  import opened Wrappers
  import opened Relational
  import opened Affinity

  // ---------------------------------------------------------------------
  // product_pairs / pair_stats

  /** The support threshold of both statements. */
  const WarehouseMinPairs: int := 3

  predicate Ascending(p: (int, int)) { p.0 < p.1 }

  /** The pairs (A, B) of products bought in some session with A < B. */
  function OrderedPairs(bs: seq<Basket>): (r: seq<(int, int)>)
    ensures NoDup(r)
    ensures forall p :: p in r <==> p.0 in PairProducts(bs) && p.1 in PairProducts(bs) && p.0 < p.1
  {
    var ps := PairProducts(bs);
    var all := AllPairs(ps, ps);
    FilterNoDup(all, Ascending);
    Filter(all, Ascending)
  }

  /** product_pairs (cloud) and pair_stats (in memory): every pair A < B
      bought together in at least three sessions, with that session count. */
  function WarehousePairs(bs: seq<Basket>): (r: seq<PairRow>)
    ensures forall row :: row in r ==> row.productA < row.productB
  {
    var kept := Filter(OrderedPairs(bs), (p: (int, int)) => SessionPairCount(bs, p.0, p.1) >= WarehouseMinPairs);
    MapSeq(kept, (p: (int, int)) => PairRow(p.0, p.1, SessionPairCount(bs, p.0, p.1)))
  }

  /** Every stored pair has A < B and is bought together in pair_count >= 3 sessions. */
  lemma WarehousePairsSound(bs: seq<Basket>, row: PairRow)
    requires row in WarehousePairs(bs)
    ensures row.productA < row.productB
    ensures row.pairCount == SessionPairCount(bs, row.productA, row.productB) >= WarehouseMinPairs
  {
    var kept := Filter(OrderedPairs(bs), (p: (int, int)) => SessionPairCount(bs, p.0, p.1) >= WarehouseMinPairs);
    var r := WarehousePairs(bs);
    var i :| 0 <= i < |r| && r[i] == row;
    assert kept[i] in kept;
  }

  /** A session that bought both products names both of them. */
  lemma SessionPairWitness(bs: seq<Basket>, pa: int, pb: int)
    requires SessionPairCount(bs, pa, pb) > 0
    ensures pa in PairProducts(bs) && pb in PairProducts(bs)
  {
    var both := Filter(BasketSessions(bs), s => Bought(bs, s, pa) && Bought(bs, s, pb));
    assert both[0] in both;
    var s := both[0];
    var x :| x in bs && x.session == Some(s) && x.product == Some(pa);
    var y :| y in bs && y.session == Some(s) && y.product == Some(pb);
  }

  /** Every pair A < B bought together in at least three sessions is stored. */
  lemma WarehousePairsComplete(bs: seq<Basket>, pa: int, pb: int)
    requires pa < pb && SessionPairCount(bs, pa, pb) >= WarehouseMinPairs
    ensures PairRow(pa, pb, SessionPairCount(bs, pa, pb)) in WarehousePairs(bs)
  {
    SessionPairWitness(bs, pa, pb);
    MapFilterMember(OrderedPairs(bs), (p: (int, int)) => SessionPairCount(bs, p.0, p.1) >= WarehouseMinPairs,
                    (p: (int, int)) => PairRow(p.0, p.1, SessionPairCount(bs, p.0, p.1)), (pa, pb));
  }

  /** No pair is stored twice. */
  lemma WarehousePairsUnique(bs: seq<Basket>)
    ensures forall i, j :: 0 <= i < j < |WarehousePairs(bs)| ==>
      (WarehousePairs(bs)[i].productA, WarehousePairs(bs)[i].productB) != (WarehousePairs(bs)[j].productA, WarehousePairs(bs)[j].productB)
  {
    var keep := (p: (int, int)) => SessionPairCount(bs, p.0, p.1) >= WarehouseMinPairs;
    var kept := Filter(OrderedPairs(bs), keep);
    var r := WarehousePairs(bs);
    FilterNoDup(OrderedPairs(bs), keep);
    forall i, j | 0 <= i < j < |r|
      ensures (r[i].productA, r[i].productB) != (r[j].productA, r[j].productB)
    {
      assert (r[i].productA, r[i].productB) == kept[i];
      assert (r[j].productA, r[j].productB) == kept[j];
    }
  }

  /** The session counts of a stored pair: 3 <= pair_count <= support of
      either product <= N. */
  lemma PairCounts(bs: seq<Basket>, row: PairRow)
    requires row in WarehousePairs(bs)
    ensures WarehouseMinPairs <= row.pairCount <= SessionSupport(bs, row.productA) <= TotalSessions(bs)
    ensures row.pairCount <= SessionSupport(bs, row.productB) <= TotalSessions(bs)
  {
    WarehousePairsSound(bs, row);
    SessionCountsBounded(bs, row.productA, row.productB);
    SessionCountsBounded(bs, row.productB, row.productA);
  }

  // ---------------------------------------------------------------------
  // Arithmetic

  /** x / y on doubles; only reached with y != 0. */
  function Ratio(x: real, y: real): real {
    if y == 0.0 then 0.0 else x / y
  }

  /** (pc / sa) / (sb / n) == pc * n / (sa * sb) for positive counts. */
  lemma LiftIdentity(pc: int, sa: int, sb: int, n: int)
    requires sa >= 1 && sb >= 1 && n >= 1
    ensures Ratio(Quotient(pc, sa), Quotient(sb, n)) == Quotient(pc * n, sa * sb)
  {
    ProductAtLeastOne(sa, sb);
    var c := pc as real / sa as real;
    var d := sb as real / n as real;
    assert c * sa as real == pc as real;
    assert d * n as real == sb as real;
    assert d > 0.0;
    var l := c / d;
    assert l * d == c;
    ScaleIdentity(l, c, d, pc as real, sa as real, sb as real, n as real);
    assert (sa * sb) as real == sa as real * sb as real;
    assert (pc * n) as real == pc as real * n as real;
  }

  /** From l * d == c, c * sa == pc and d * n == sb: l == pc * n / (sa * sb). */
  lemma ScaleIdentity(l: real, c: real, d: real, pc: real, sa: real, sb: real, n: real)
    requires sa > 0.0 && sb > 0.0 && n > 0.0
    requires l * d == c && c * sa == pc && d * n == sb
    ensures l == (pc * n) / (sa * sb)
  {
    assert l * sb == l * d * n == c * n;
    assert l * (sa * sb) == c * n * sa == pc * n;
  }

  // ---------------------------------------------------------------------
  // Cloud rules: lift > 1.2

  /** confidence = pair_count / support(A); lift = confidence / (support(B) / N). */
  function CloudRuleOf(bs: seq<Basket>, row: PairRow): Rule {
    var sa := SessionSupport(bs, row.productA);
    var sb := SessionSupport(bs, row.productB);
    var conf := Quotient(row.pairCount, sa);
    Rule(row.productA, row.productB, row.pairCount, conf, Ratio(conf, Quotient(sb, TotalSessions(bs))))
  }

  /** predictions_product_affinity of the cloud script: the rules of the
      stored pairs with lift > 1.2, by lift descending. */
  function CloudRules(bs: seq<Basket>): (rs: seq<Rule>)
    ensures forall r :: r in rs ==> r.lift > LiftThreshold
    ensures forall i, j :: 0 <= i < j < |rs| ==> rs[i].lift >= rs[j].lift
    ensures forall r :: r in rs <==> r in Filter(MapSeq(WarehousePairs(bs), row => CloudRuleOf(bs, row)), StrongLift)
  {
    var candidates := Filter(MapSeq(WarehousePairs(bs), row => CloudRuleOf(bs, row)), StrongLift);
    var rs := SortBy(candidates, NegLift);
    MultisetMembers(rs, candidates);
    rs
  }

  /** A cloud rule is the rule of a stored pair. */
  lemma CloudRuleSource(bs: seq<Basket>, r: Rule)
    requires r in CloudRules(bs)
    ensures PairRow(r.productA, r.productB, r.pairCount) in WarehousePairs(bs)
    ensures r == CloudRuleOf(bs, PairRow(r.productA, r.productB, r.pairCount))
  {
    var rows := WarehousePairs(bs);
    var mapped := MapSeq(rows, row => CloudRuleOf(bs, row));
    assert r in mapped;
    var i :| 0 <= i < |mapped| && mapped[i] == r;
    assert rows[i] in rows;
  }

  /** The figures of the rule of a stored pair: confidence lies in (0, 1],
      lift equals pair_count * N / (support(A) * support(B)), and the lift
      test is 5 * pair_count * N > 6 * support(A) * support(B). */
  lemma CloudRuleFigures(bs: seq<Basket>, row: PairRow)
    requires row in WarehousePairs(bs)
    ensures WarehouseMinPairs <= row.pairCount <= SessionSupport(bs, row.productA)
    ensures CloudRuleOf(bs, row).confidence ==
      row.pairCount as real / SessionSupport(bs, row.productA) as real
    ensures 0.0 < CloudRuleOf(bs, row).confidence <= 1.0
    ensures CloudRuleOf(bs, row).lift ==
      Quotient(row.pairCount * TotalSessions(bs), SessionSupport(bs, row.productA) * SessionSupport(bs, row.productB))
    ensures CloudRuleOf(bs, row).lift > LiftThreshold <==>
      5 * row.pairCount * TotalSessions(bs) > 6 * SessionSupport(bs, row.productA) * SessionSupport(bs, row.productB)
  {
    var pc := row.pairCount;
    var sa := SessionSupport(bs, row.productA);
    var sb := SessionSupport(bs, row.productB);
    var n := TotalSessions(bs);
    PairCounts(bs, row);
    FractionBounds(pc, sa);
    PositiveFraction(pc, sa);
    LiftIdentity(pc, sa, sb, n);
    RuleArithmetic(pc, n, sa, sb);
  }

  lemma PositiveFraction(a: int, b: int)
    requires 0 < a <= b
    ensures a as real / b as real > 0.0
  {
  }

  /** What a cloud rule says: it comes from a stored pair, its confidence
      is pair_count / support(A) in (0, 1], its lift pair_count * N /
      (support(A) * support(B)), and it passed 5 * pair_count * N >
      6 * support(A) * support(B), i.e. lift > 1.2. */
  lemma CloudRuleMeaning(bs: seq<Basket>, r: Rule)
    requires r in CloudRules(bs)
    ensures PairRow(r.productA, r.productB, r.pairCount) in WarehousePairs(bs)
    ensures r.productA < r.productB && WarehouseMinPairs <= r.pairCount <= SessionSupport(bs, r.productA)
    ensures r.confidence == r.pairCount as real / SessionSupport(bs, r.productA) as real
    ensures 0.0 < r.confidence <= 1.0
    ensures r.lift == Quotient(r.pairCount * TotalSessions(bs), SessionSupport(bs, r.productA) * SessionSupport(bs, r.productB))
    ensures 5 * r.pairCount * TotalSessions(bs) > 6 * SessionSupport(bs, r.productA) * SessionSupport(bs, r.productB)
  {
    CloudRuleSource(bs, r);
    var row := PairRow(r.productA, r.productB, r.pairCount);
    WarehousePairsSound(bs, row);
    CloudRuleFigures(bs, row);
  }

  /** Every stored pair that passes the lift test has its rule in the table. */
  lemma CloudRuleComplete(bs: seq<Basket>, row: PairRow)
    requires row in WarehousePairs(bs)
    requires 5 * row.pairCount * TotalSessions(bs) > 6 * SessionSupport(bs, row.productA) * SessionSupport(bs, row.productB)
    ensures CloudRuleOf(bs, row) in CloudRules(bs)
  {
    CloudRuleFigures(bs, row);
    MapMember(WarehousePairs(bs), r => CloudRuleOf(bs, r), row);
  }

  // ---------------------------------------------------------------------
  // In-memory rules: NULLIF-guarded, no lift filter

  /** One row of the in-memory predictions_product_affinity; confidence and
      lift are NULL when a NULLIF divisor is. */
  datatype AppRule = AppRule(productA: int, productB: int, pairCount: int, confidence: Option<real>, lift: Option<real>)

  /** NULLIF(x, 0) as a double. */
  function NullIfZero(x: int): (r: Option<real>)
    ensures r.None? <==> x == 0
    ensures r.Some? ==> r.value == x as real && r.value != 0.0
  {
    if x == 0 then None else Some(x as real)
  }

  /** Division of doubles with NULL propagation. */
  function FloatDiv(x: Option<real>, y: Option<real>): (r: Option<real>)
    ensures r.Some? <==> x.Some? && y.Some? && y.value != 0.0
    ensures r.Some? ==> r.value * y.value == x.value
  {
    if x.Some? && y.Some? && y.value != 0.0 then Some(x.value / y.value) else None
  }

  function AppRuleOf(bs: seq<Basket>, row: PairRow): AppRule {
    var conf := FloatDiv(Some(row.pairCount as real), NullIfZero(SessionSupport(bs, row.productA)));
    var share := FloatDiv(Some(SessionSupport(bs, row.productB) as real), NullIfZero(TotalSessions(bs)));
    AppRule(row.productA, row.productB, row.pairCount, conf, FloatDiv(conf, share))
  }

  /** ORDER BY lift DESC, as an ascending key; the lift is never NULL. */
  function AppNegLift(r: AppRule): real { -r.lift.GetOr(0.0) }

  /** predictions_product_affinity of the in-memory loader: one rule per
      stored pair, by lift descending. */
  function AppRules(bs: seq<Basket>): (rs: seq<AppRule>)
    ensures |rs| == |WarehousePairs(bs)|
    ensures forall i, j :: 0 <= i < j < |rs| ==> rs[i].lift.GetOr(0.0) >= rs[j].lift.GetOr(0.0)
    ensures forall r :: r in rs <==> exists row :: row in WarehousePairs(bs) && r == AppRuleOf(bs, row)
  {
    var rows := WarehousePairs(bs);
    var candidates := MapSeq(rows, row => AppRuleOf(bs, row));
    var rs := SortBy(candidates, AppNegLift);
    MultisetMembers(rs, candidates);
    MapMembers(rows, row => AppRuleOf(bs, row));
    rs
  }

  /** On a stored pair the NULLIF guards never fire, and the in-memory rule
      carries exactly the confidence and lift of the cloud rule. */
  lemma AppRuleAgrees(bs: seq<Basket>, row: PairRow)
    requires row in WarehousePairs(bs)
    ensures AppRuleOf(bs, row) ==
      AppRule(row.productA, row.productB, row.pairCount,
              Some(CloudRuleOf(bs, row).confidence), Some(CloudRuleOf(bs, row).lift))
  {
    var sa := SessionSupport(bs, row.productA);
    var sb := SessionSupport(bs, row.productB);
    var n := TotalSessions(bs);
    PairCounts(bs, row);
    PositiveFraction(row.pairCount, sa);
    PositiveFraction(sb, n);
  }

  /** What an in-memory rule says: it comes from a stored pair, its
      confidence is pair_count / support(A) in (0, 1] and its lift
      pair_count * N / (support(A) * support(B)); neither is NULL. */
  lemma AppRuleMeaning(bs: seq<Basket>, r: AppRule)
    requires r in AppRules(bs)
    ensures PairRow(r.productA, r.productB, r.pairCount) in WarehousePairs(bs)
    ensures r.productA < r.productB && WarehouseMinPairs <= r.pairCount <= SessionSupport(bs, r.productA)
    ensures r.confidence == Some(r.pairCount as real / SessionSupport(bs, r.productA) as real)
    ensures 0.0 < r.confidence.value <= 1.0
    ensures r.lift == Some(Quotient(r.pairCount * TotalSessions(bs), SessionSupport(bs, r.productA) * SessionSupport(bs, r.productB)))
  {
    var row :| row in WarehousePairs(bs) && r == AppRuleOf(bs, row);
    WarehousePairsSound(bs, row);
    AppRuleAgrees(bs, row);
    CloudRuleFigures(bs, row);
  }

  /** The cloud table is the in-memory table cut at lift > 1.2: a rule is
      in the cloud table iff its pair's in-memory rule has that lift. */
  lemma CloudIsAppAboveThreshold(bs: seq<Basket>, row: PairRow)
    requires row in WarehousePairs(bs)
    ensures CloudRuleOf(bs, row) in CloudRules(bs) <==>
      AppRuleOf(bs, row) in AppRules(bs) && AppRuleOf(bs, row).lift.GetOr(0.0) > LiftThreshold
  {
    AppRuleAgrees(bs, row);
    CloudRuleFigures(bs, row);
    if CloudRuleOf(bs, row).lift > LiftThreshold {
      CloudRuleComplete(bs, row);
    }
  }
}
