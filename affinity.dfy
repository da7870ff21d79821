/** Market-basket affinity: purchase baskets, product co-occurrence counts
    and the confidence / lift association rules built from them. */
module Affinity {
  import opened Wrappers
  import opened Relational
  import opened Events

  // ---------------------------------------------------------------------
  // Baskets

  /** One row of baskets: the session and product of a purchase event. */
  datatype Basket = Basket(session: Option<int>, product: Option<int>)

  function BasketOf(e: Event): Basket { Basket(e.session, e.product) }

  /** baskets: one (user_session, product_id) row per purchase event; views,
      carts and removals contribute nothing. */
  function Baskets(es: seq<Event>): (bs: seq<Basket>)
    ensures |bs| == KindCount(es, Purchase)
    ensures forall x :: x in bs <==> exists e :: e in es && e.kind == Purchase && BasketOf(e) == x
  {
    var ps := Purchases(es);
    KindCountBy(es, Purchase, IsPurchase);
    var bs := MapSeq(ps, BasketOf);
    assert forall x :: x in bs ==> exists e :: e in ps && BasketOf(e) == x by {
      forall x | x in bs ensures exists e :: e in ps && BasketOf(e) == x {
        var i :| 0 <= i < |bs| && bs[i] == x;
        assert ps[i] in ps;
      }
    }
    assert forall e :: e in ps ==> BasketOf(e) in bs by {
      forall e | e in ps ensures BasketOf(e) in bs {
        var i :| 0 <= i < |ps| && ps[i] == e;
        assert bs[i] == BasketOf(e);
      }
    }
    bs
  }

  predicate InSession(x: Basket) { x.session.Some? }
  function BasketSession(x: Basket): int { x.session.GetOr(0) }

  /** The distinct non-null sessions of the baskets: COUNT(DISTINCT user_session). */
  function BasketSessions(bs: seq<Basket>): (ss: seq<int>)
    ensures NoDup(ss)
    ensures forall s :: s in ss <==> exists x :: x in bs && x.session == Some(s)
  {
    var ws := Filter(bs, InSession);
    var ss := Keys(ws, BasketSession);
    assert forall x :: x in bs && x.session.Some? ==> x.session.value in ss by {
      forall x | x in bs && x.session.Some? ensures x.session.value in ss {
        assert x in ws;
      }
    }
    ss
  }

  /** The number of purchase rows of product p in session s. */
  function CountIn(bs: seq<Basket>, s: int, p: int): nat {
    Count(bs, (x: Basket) => x.session == Some(s) && x.product == Some(p))
  }

  // ---------------------------------------------------------------------
  // product_pairs: the self-join on user_session, as written

  /** Row x of alias a joins row y of alias b for the pair (pa, pb): same
      non-null session, product pa on the left, a different product pb on
      the right. */
  predicate Joins(x: Basket, y: Basket, pa: int, pb: int) {
    pa != pb && x.session.Some? && y.session == x.session && x.product == Some(pa) && y.product == Some(pb)
  }

  /** The number of right-hand rows that row x joins for the pair (pa, pb). */
  function Partners(bs: seq<Basket>, x: Basket, pa: int, pb: int): nat {
    Count(bs, (y: Basket) => Joins(x, y, pa, pb))
  }

  /** COUNT(*) of the joined rows grouped by (product_a, product_b). */
  function PairCount(bs: seq<Basket>, pa: int, pb: int): int {
    Sum(bs, (x: Basket) => Partners(bs, x, pa, pb))
  }

  /** A left-hand row with product pa in session s joins exactly the rows of pb in s. */
  lemma PartnersOf(bs: seq<Basket>, x: Basket, pa: int, pb: int)
    ensures Partners(bs, x, pa, pb) ==
      if pa != pb && x.session.Some? && x.product == Some(pa) then CountIn(bs, x.session.value, pb) else 0
  {
    if pa != pb && x.session.Some? && x.product == Some(pa) {
      CountCongruent(bs, (y: Basket) => Joins(x, y, pa, pb), (y: Basket) => y.session == Some(x.session.value) && y.product == Some(pb));
    } else {
      FilterNone(bs, (y: Basket) => Joins(x, y, pa, pb));
    }
  }

  /** The per-session product of counts. */
  function SessionProduct(bs: seq<Basket>, pa: int, pb: int, s: int): int {
    CountIn(bs, s, pa) * CountIn(bs, s, pb)
  }

  /** Within one session, the left-hand rows of A contribute the rows of A
      times the rows of B. */
  lemma SessionGroupSum(bs: seq<Basket>, pa: int, pb: int, s: int)
    requires pa != pb
    ensures Sum(Group(Filter(bs, InSession), BasketSession, s), (x: Basket) => Partners(bs, x, pa, pb)) == SessionProduct(bs, pa, pb, s)
  {
    var ws := Filter(bs, InSession);
    var g := Group(ws, BasketSession, s);
    var h := (x: Basket) => Partners(bs, x, pa, pb);
    forall x | x in g
      ensures h(x) == if x.product == Some(pa) then CountIn(bs, s, pb) else 0
    {
      PartnersOf(bs, x, pa, pb);
    }
    SumIndicator(g, (x: Basket) => x.product == Some(pa), CountIn(bs, s, pb), h);
    CountGroupBy(ws, BasketSession, s, (x: Basket) => x.product == Some(pa),
                 (x: Basket) => BasketSession(x) == s && x.product == Some(pa));
    CountFilterBy(bs, InSession, (x: Basket) => BasketSession(x) == s && x.product == Some(pa),
                  (x: Basket) => x.session == Some(s) && x.product == Some(pa));
  }

  /** pair_count counts joined row pairs: over the sessions, the number of
      rows of A times the number of rows of B, and nothing for A = B. */
  lemma PairCountBySessions(bs: seq<Basket>, pa: int, pb: int)
    ensures PairCount(bs, pa, pb) ==
      if pa == pb then 0 else Sum(BasketSessions(bs), s => SessionProduct(bs, pa, pb, s))
  {
    if pa == pb {
      PairCountSame(bs, pa);
    } else {
      PairCountDistinct(bs, pa, pb);
    }
  }

  lemma PairCountSame(bs: seq<Basket>, pa: int)
    ensures PairCount(bs, pa, pa) == 0
  {
    var h := (x: Basket) => Partners(bs, x, pa, pa);
    forall x | x in bs ensures h(x) == 0 {
      PartnersOf(bs, x, pa, pa);
    }
    SumIndicator(bs, (x: Basket) => false, 0, h);
  }

  lemma PairCountDistinct(bs: seq<Basket>, pa: int, pb: int)
    requires pa != pb
    ensures PairCount(bs, pa, pb) == Sum(BasketSessions(bs), s => SessionProduct(bs, pa, pb, s))
  {
    var h := (x: Basket) => Partners(bs, x, pa, pb);
    var ws := Filter(bs, InSession);
    var ss := BasketSessions(bs);
    var col := s => SessionProduct(bs, pa, pb, s);
    var id := (s: int) => s;
    assert Sum(ws, h) == Sum(bs, h) by {
      forall x | x in bs && !InSession(x) ensures h(x) == 0 {
        PartnersOf(bs, x, pa, pb);
      }
      SumFilterZero(bs, InSession, h);
    }
    assert Sum(MapSeq(ss, id), col) == Sum(ws, h) by {
      SessionsCover(bs);
      forall s | s in ss
        ensures col(id(s)) == Sum(Group(ws, BasketSession, s), h)
      {
        SessionGroupSum(bs, pa, pb, s);
      }
      GroupedSum(ws, BasketSession, ss, id, col, h);
    }
    assert MapSeq(ss, id) == ss;
  }

  /** Every basket row with a session has its session among BasketSessions. */
  lemma SessionsCover(bs: seq<Basket>)
    ensures forall x :: x in Filter(bs, InSession) ==> BasketSession(x) in BasketSessions(bs)
  {
    forall x | x in Filter(bs, InSession) ensures BasketSession(x) in BasketSessions(bs) {
      assert x in bs && x.session == Some(BasketSession(x));
    }
  }

  /** Pairs are counted symmetrically: (A, B) and (B, A) have the same pair_count. */
  lemma PairCountSymmetric(bs: seq<Basket>, pa: int, pb: int)
    ensures PairCount(bs, pa, pb) == PairCount(bs, pb, pa)
  {
    PairCountBySessions(bs, pa, pb);
    PairCountBySessions(bs, pb, pa);
    if pa != pb {
      var ss := BasketSessions(bs);
      SumCongruent(ss, s => SessionProduct(bs, pa, pb, s), s => SessionProduct(bs, pb, pa, s));
    }
  }

  /** A pair with a positive count has a joined row pair behind it. */
  lemma PairWitness(bs: seq<Basket>, pa: int, pb: int)
    requires PairCount(bs, pa, pb) != 0
    ensures exists x, y :: x in bs && y in bs && Joins(x, y, pa, pb)
  {
    SumNonZero(bs, (x: Basket) => Partners(bs, x, pa, pb));
    var x :| x in bs && Partners(bs, x, pa, pb) != 0;
    var f := Filter(bs, (y: Basket) => Joins(x, y, pa, pb));
    assert f[0] in f;
  }

  predicate Pairable(x: Basket) { x.session.Some? && x.product.Some? }
  function BasketProduct(x: Basket): int { x.product.GetOr(0) }

  /** The products bought in some session, each once. */
  function PairProducts(bs: seq<Basket>): (ps: seq<int>)
    ensures NoDup(ps)
    ensures forall p :: p in ps <==> exists x :: x in bs && x.session.Some? && x.product == Some(p)
  {
    var ws := Filter(bs, Pairable);
    var ps := Keys(ws, BasketProduct);
    assert forall x :: x in bs && x.session.Some? && x.product.Some? ==> x.product.value in ps by {
      forall x | x in bs && x.session.Some? && x.product.Some? ensures x.product.value in ps {
        assert x in ws;
      }
    }
    ps
  }

  /** (a, b) for every b of qs other than a. */
  function PairsFrom(a: int, qs: seq<int>): (r: seq<(int, int)>)
    ensures forall p :: p in r <==> p.0 == a && p.1 in qs && p.1 != a
    ensures NoDup(qs) ==> NoDup(r)
  {
    if qs == [] then []
    else
      var rest := PairsFrom(a, qs[1..]);
      assert forall y :: y in qs <==> y == qs[0] || y in qs[1..] by {
        assert qs == [qs[0]] + qs[1..];
      }
      if qs[0] == a then rest
      else
        assert NoDup(qs) ==> NoDup([(a, qs[0])] + rest) by {
          if NoDup(qs) {
            NoDupTail(qs);
            NoDupAppend([(a, qs[0])], rest);
          }
        }
        [(a, qs[0])] + rest
  }

  /** Every ordered pair of different values, the first from ps, the second from qs. */
  function AllPairs(ps: seq<int>, qs: seq<int>): (r: seq<(int, int)>)
    ensures forall p :: p in r <==> p.0 in ps && p.1 in qs && p.0 != p.1
    ensures NoDup(ps) && NoDup(qs) ==> NoDup(r)
  {
    if ps == [] then []
    else
      var rest := AllPairs(ps[1..], qs);
      assert forall y :: y in ps <==> y == ps[0] || y in ps[1..] by {
        assert ps == [ps[0]] + ps[1..];
      }
      assert NoDup(ps) && NoDup(qs) ==> NoDup(PairsFrom(ps[0], qs) + rest) by {
        if NoDup(ps) && NoDup(qs) {
          NoDupTail(ps);
          NoDupAppend(PairsFrom(ps[0], qs), rest);
        }
      }
      PairsFrom(ps[0], qs) + rest
  }

  /** One row of product_pairs. */
  datatype PairRow = PairRow(productA: int, productB: int, pairCount: int)

  /** The support threshold of product_pairs. */
  const MinPairCount: int := 5

  /** product_pairs: every pair of different products whose joined row
      count reaches the threshold (GROUP BY 1, 2 HAVING COUNT(*) >= 5). */
  function ProductPairs(bs: seq<Basket>): (r: seq<PairRow>)
    ensures forall row :: row in r ==> row.productA != row.productB
  {
    var ps := PairProducts(bs);
    var kept := Filter(AllPairs(ps, ps), (p: (int, int)) => PairCount(bs, p.0, p.1) >= MinPairCount);
    MapSeq(kept, (p: (int, int)) => PairRow(p.0, p.1, PairCount(bs, p.0, p.1)))
  }

  /** Every stored row is a pair of different products with pair_count >= 5
      and the pair_count of its pair. */
  lemma ProductPairsSound(bs: seq<Basket>, row: PairRow)
    requires row in ProductPairs(bs)
    ensures row.productA != row.productB
    ensures row.pairCount == PairCount(bs, row.productA, row.productB) >= MinPairCount
  {
    var ps := PairProducts(bs);
    var kept := Filter(AllPairs(ps, ps), (p: (int, int)) => PairCount(bs, p.0, p.1) >= MinPairCount);
    var r := ProductPairs(bs);
    var i :| 0 <= i < |r| && r[i] == row;
    assert kept[i] in kept;
  }

  /** Both products of a pair with a positive count are among PairProducts. */
  lemma PairInProducts(bs: seq<Basket>, pa: int, pb: int)
    requires PairCount(bs, pa, pb) != 0
    ensures pa in PairProducts(bs) && pb in PairProducts(bs)
  {
    PairWitness(bs, pa, pb);
    var x, y :| x in bs && y in bs && Joins(x, y, pa, pb);
    assert x.session.Some? && x.product == Some(pa);
    assert y.session.Some? && y.product == Some(pb);
  }

  /** Every pair of different products with pair_count >= 5 is stored. */
  lemma ProductPairsComplete(bs: seq<Basket>, pa: int, pb: int)
    requires pa != pb && PairCount(bs, pa, pb) >= MinPairCount
    ensures PairRow(pa, pb, PairCount(bs, pa, pb)) in ProductPairs(bs)
  {
    var ps := PairProducts(bs);
    var all := AllPairs(ps, ps);
    var kept := Filter(all, (p: (int, int)) => PairCount(bs, p.0, p.1) >= MinPairCount);
    var r := ProductPairs(bs);
    PairInProducts(bs, pa, pb);
    assert (pa, pb) in all;
    assert (pa, pb) in kept;
    var i :| 0 <= i < |kept| && kept[i] == (pa, pb);
    assert r[i] == PairRow(pa, pb, PairCount(bs, pa, pb));
  }

  /** No pair is stored twice. */
  lemma ProductPairsUnique(bs: seq<Basket>)
    ensures forall i, j :: 0 <= i < j < |ProductPairs(bs)| ==>
      (ProductPairs(bs)[i].productA, ProductPairs(bs)[i].productB) != (ProductPairs(bs)[j].productA, ProductPairs(bs)[j].productB)
  {
    var ps := PairProducts(bs);
    var all := AllPairs(ps, ps);
    var keep := (p: (int, int)) => PairCount(bs, p.0, p.1) >= MinPairCount;
    var kept := Filter(all, keep);
    var r := ProductPairs(bs);
    FilterNoDup(all, keep);
    forall i, j | 0 <= i < j < |r|
      ensures (r[i].productA, r[i].productB) != (r[j].productA, r[j].productB)
    {
      assert (r[i].productA, r[i].productB) == kept[i];
      assert (r[j].productA, r[j].productB) == kept[j];
    }
  }

  /** The table is symmetric: (A, B) is kept iff (B, A) is, with the same count. */
  lemma ProductPairsSymmetric(bs: seq<Basket>, row: PairRow)
    requires row in ProductPairs(bs)
    ensures PairRow(row.productB, row.productA, row.pairCount) in ProductPairs(bs)
  {
    ProductPairsSound(bs, row);
    PairCountSymmetric(bs, row.productA, row.productB);
    ProductPairsComplete(bs, row.productB, row.productA);
  }

  // ---------------------------------------------------------------------
  // Association rules

  /** product_counts.cnt: the purchase rows of product p (any session). */
  function ProductCount(bs: seq<Basket>, p: int): nat {
    Count(bs, (x: Basket) => x.product == Some(p))
  }

  /** total_sessions: distinct non-null sessions among the baskets. */
  function TotalSessions(bs: seq<Basket>): nat {
    |BasketSessions(bs)|
  }

  /** One row of predictions_product_affinity. */
  datatype Rule = Rule(productA: int, productB: int, pairCount: int, confidence: real, lift: real)

  /** x / y as a double; only reached with y > 0. */
  function Quotient(x: int, y: int): real {
    if y == 0 then 0.0 else x as real / y as real
  }

  /** confidence = pair_count / cnt(A) and lift = pair_count * N / (cnt(A) * cnt(B)). */
  function RuleOf(bs: seq<Basket>, row: PairRow): Rule {
    var ca := ProductCount(bs, row.productA);
    var cb := ProductCount(bs, row.productB);
    Rule(row.productA, row.productB, row.pairCount,
         Quotient(row.pairCount, ca), Quotient(row.pairCount * TotalSessions(bs), ca * cb))
  }

  const LiftThreshold: real := 1.2

  predicate StrongLift(r: Rule) { r.lift > LiftThreshold }
  function NegLift(r: Rule): real { -r.lift }

  /** predictions_product_affinity: the rules with lift > 1.2, by lift descending. */
  function AffinityRules(bs: seq<Basket>): (rs: seq<Rule>)
    ensures forall r :: r in rs ==> r.lift > LiftThreshold
    ensures forall i, j :: 0 <= i < j < |rs| ==> rs[i].lift >= rs[j].lift
    ensures forall r :: r in rs <==> r in Filter(MapSeq(ProductPairs(bs), row => RuleOf(bs, row)), StrongLift)
  {
    var candidates := Filter(MapSeq(ProductPairs(bs), row => RuleOf(bs, row)), StrongLift);
    var rs := SortBy(candidates, NegLift);
    MultisetMembers(rs, candidates);
    rs
  }

  /** A stored pair's products occur in the baskets. */
  lemma PairProductsCounted(bs: seq<Basket>, row: PairRow)
    requires row in ProductPairs(bs)
    ensures ProductCount(bs, row.productA) >= 1 && ProductCount(bs, row.productB) >= 1
  {
    ProductPairsSound(bs, row);
    PairWitness(bs, row.productA, row.productB);
    var x, y :| x in bs && y in bs && Joins(x, y, row.productA, row.productB);
    assert x in Filter(bs, (z: Basket) => z.product == Some(row.productA));
    assert y in Filter(bs, (z: Basket) => z.product == Some(row.productB));
  }

  /** The lift test in integers: pair * N / (cntA * cntB) > 1.2 iff 5 * pair * N > 6 * cntA * cntB. */
  lemma LiftTest(x: int, d: int)
    requires d >= 1
    ensures Quotient(x, d) > LiftThreshold <==> 5 * x > 6 * d
  {
    var q := x as real / d as real;
    assert q * d as real == x as real;
    if q > LiftThreshold {
      assert q * d as real > LiftThreshold * d as real;
    }
    if 5 * x > 6 * d {
      assert x as real > LiftThreshold * d as real;
      assert q * d as real > LiftThreshold * d as real;
    }
  }

  lemma ProductAtLeastOne(a: int, b: int)
    requires a >= 1 && b >= 1
    ensures a * b >= 1
  {
  }

  /** A stored rule is the rule of a stored pair and passed the lift filter. */
  lemma RuleSource(bs: seq<Basket>, r: Rule)
    requires r in AffinityRules(bs)
    ensures PairRow(r.productA, r.productB, r.pairCount) in ProductPairs(bs)
    ensures r.confidence == Quotient(r.pairCount, ProductCount(bs, r.productA))
    ensures r.lift == Quotient(r.pairCount * TotalSessions(bs), ProductCount(bs, r.productA) * ProductCount(bs, r.productB))
    ensures r.lift > LiftThreshold
  {
    var rows := ProductPairs(bs);
    var mapped := MapSeq(rows, row => RuleOf(bs, row));
    assert r in mapped;
    var i :| 0 <= i < |mapped| && mapped[i] == r;
    assert rows[i] in rows;
  }

  /** The arithmetic of one rule with positive product counts ca and cb. */
  lemma RuleArithmetic(pc: int, n: int, ca: int, cb: int)
    requires ca >= 1 && cb >= 1
    ensures Quotient(pc, ca) == pc as real / ca as real
    ensures Quotient(pc * n, ca * cb) == (pc * n) as real / (ca * cb) as real
    ensures Quotient(pc * n, ca * cb) > LiftThreshold <==> 5 * pc * n > 6 * ca * cb
  {
    ProductAtLeastOne(ca, cb);
    LiftTest(pc * n, ca * cb);
    assert 5 * (pc * n) == 5 * pc * n;
    assert 6 * (ca * cb) == 6 * ca * cb;
  }

  /** What a stored rule says: it comes from a stored pair, its confidence is
      pair_count / cnt(A) and its lift is pair_count * N / (cnt(A) * cnt(B)). */
  lemma AffinityRuleMeaning(bs: seq<Basket>, r: Rule)
    requires r in AffinityRules(bs)
    ensures PairRow(r.productA, r.productB, r.pairCount) in ProductPairs(bs)
    ensures ProductCount(bs, r.productA) >= 1 && ProductCount(bs, r.productB) >= 1
    ensures r.confidence == r.pairCount as real / ProductCount(bs, r.productA) as real
    ensures r.lift == (r.pairCount * TotalSessions(bs)) as real / (ProductCount(bs, r.productA) * ProductCount(bs, r.productB)) as real
  {
    RuleSource(bs, r);
    PairProductsCounted(bs, PairRow(r.productA, r.productB, r.pairCount));
    RuleArithmetic(r.pairCount, TotalSessions(bs), ProductCount(bs, r.productA), ProductCount(bs, r.productB));
  }

  /** A stored rule passed the lift filter: 5 * pair_count * N > 6 * cnt(A) * cnt(B). */
  lemma AffinityRuleThreshold(bs: seq<Basket>, r: Rule)
    requires r in AffinityRules(bs)
    ensures 5 * r.pairCount * TotalSessions(bs) > 6 * ProductCount(bs, r.productA) * ProductCount(bs, r.productB)
  {
    AffinityRuleMeaning(bs, r);
    RuleSource(bs, r);
    LiftThresholdTest(r.lift, r.pairCount, TotalSessions(bs), ProductCount(bs, r.productA), ProductCount(bs, r.productB));
  }

  /** The lift filter in integers. */
  lemma LiftThresholdTest(lift: real, pc: int, n: int, ca: int, cb: int)
    requires ca >= 1 && cb >= 1
    requires lift == Quotient(pc * n, ca * cb) && lift > LiftThreshold
    ensures 5 * pc * n > 6 * ca * cb
  {
    RuleArithmetic(pc, n, ca, cb);
  }

  /** Every stored pair whose lift passes the threshold gives a rule. */
  lemma AffinityRuleComplete(bs: seq<Basket>, row: PairRow)
    requires row in ProductPairs(bs)
    requires 5 * row.pairCount * TotalSessions(bs) > 6 * ProductCount(bs, row.productA) * ProductCount(bs, row.productB)
    ensures RuleOf(bs, row) in AffinityRules(bs)
  {
    var rows := ProductPairs(bs);
    PairProductsCounted(bs, row);
    RuleArithmetic(row.pairCount, TotalSessions(bs), ProductCount(bs, row.productA), ProductCount(bs, row.productB));
    assert StrongLift(RuleOf(bs, row));
    var i :| 0 <= i < |rows| && rows[i] == row;
    assert MapSeq(rows, row => RuleOf(bs, row))[i] == RuleOf(bs, row);
  }

  // ---------------------------------------------------------------------
  // Counting sessions instead of row pairs

  /** Whether session s holds a purchase of product p. */
  predicate Bought(bs: seq<Basket>, s: int, p: int) {
    exists x :: x in bs && x.session == Some(s) && x.product == Some(p)
  }

  /** COUNT(DISTINCT user_session) of the join: sessions that bought both products. */
  function SessionPairCount(bs: seq<Basket>, pa: int, pb: int): nat {
    Count(BasketSessions(bs), s => Bought(bs, s, pa) && Bought(bs, s, pb))
  }

  /** COUNT(DISTINCT user_session) per product: sessions that bought it. */
  function SessionSupport(bs: seq<Basket>, p: int): nat {
    Count(BasketSessions(bs), s => Bought(bs, s, p))
  }

  /** Counting sessions, a pair is never supported by more sessions than
      either of its products, and no product by more sessions than there
      are: confidence = pair / support(A) and support(A) / N lie in [0, 1]. */
  lemma SessionCountsBounded(bs: seq<Basket>, pa: int, pb: int)
    ensures SessionPairCount(bs, pa, pb) <= SessionSupport(bs, pa)
    ensures SessionPairCount(bs, pa, pb) <= SessionSupport(bs, pb)
    ensures SessionSupport(bs, pa) <= TotalSessions(bs)
  {
    var ss := BasketSessions(bs);
    CountMono(ss, s => Bought(bs, s, pa) && Bought(bs, s, pb), s => Bought(bs, s, pa));
    CountMono(ss, s => Bought(bs, s, pa) && Bought(bs, s, pb), s => Bought(bs, s, pb));
  }

  /** Session confidence never exceeds 1. */
  lemma SessionConfidenceAtMostOne(bs: seq<Basket>, pa: int, pb: int)
    requires SessionSupport(bs, pa) > 0
    ensures SessionPairCount(bs, pa, pb) as real / SessionSupport(bs, pa) as real <= 1.0
  {
    var pair := SessionPairCount(bs, pa, pb);
    var support := SessionSupport(bs, pa);
    SessionCountsBounded(bs, pa, pb);
    FractionBounds(pair, support);
  }

  // ---------------------------------------------------------------------
  // The row-pair count is not a session count

  /** One session buying product 10 once and product 20 five times, and a
      second session buying product 30. */
  function SkewedBaskets(): seq<Basket> {
    [Basket(Some(1), Some(10)),
     Basket(Some(1), Some(20)), Basket(Some(1), Some(20)), Basket(Some(1), Some(20)),
     Basket(Some(1), Some(20)), Basket(Some(1), Some(20)),
     Basket(Some(2), Some(30))]
  }

  /** Baskets whose sessions are a and b, both present, have the sessions [a, b] in some order. */
  lemma TwoSessions(bs: seq<Basket>, a: int, b: int, i: int, j: int)
    requires a != b && 0 <= i < |bs| && 0 <= j < |bs|
    requires bs[i].session == Some(a) && bs[j].session == Some(b)
    requires forall x :: x in bs ==> x.session == Some(a) || x.session == Some(b)
    ensures BasketSessions(bs) == [a, b] || BasketSessions(bs) == [b, a]
  {
    var ss := BasketSessions(bs);
    assert bs[i] in bs && bs[j] in bs;
    forall s | s in ss ensures s == a || s == b {
      var x :| x in bs && x.session == Some(s);
    }
    NoDupPair(ss, a, b);
  }

  /** The skewed baskets have exactly the sessions 1 and 2. */
  lemma SkewedSessions()
    ensures BasketSessions(SkewedBaskets()) == [1, 2] || BasketSessions(SkewedBaskets()) == [2, 1]
  {
    var bs := SkewedBaskets();
    assert forall x :: x in bs ==> x.session == Some(1) || x.session == Some(2);
    TwoSessions(bs, 1, 2, 0, 6);
  }

  /** With two sessions a and b, pair_count adds the two per-session products. */
  lemma PairCountTwoSessions(bs: seq<Basket>, a: int, b: int, pa: int, pb: int)
    requires pa != pb
    requires BasketSessions(bs) == [a, b] || BasketSessions(bs) == [b, a]
    ensures PairCount(bs, pa, pb) == SessionProduct(bs, pa, pb, a) + SessionProduct(bs, pa, pb, b)
  {
    PairCountBySessions(bs, pa, pb);
    SumTwo(BasketSessions(bs), s => SessionProduct(bs, pa, pb, s), a, b);
  }

  /** With two sessions a and b, the session counts add one per session that qualifies. */
  lemma SessionCountsTwoSessions(bs: seq<Basket>, a: int, b: int, pa: int, pb: int)
    requires BasketSessions(bs) == [a, b] || BasketSessions(bs) == [b, a]
    ensures SessionPairCount(bs, pa, pb) ==
      (if Bought(bs, a, pa) && Bought(bs, a, pb) then 1 else 0) + (if Bought(bs, b, pa) && Bought(bs, b, pb) then 1 else 0)
    ensures SessionSupport(bs, pa) == (if Bought(bs, a, pa) then 1 else 0) + (if Bought(bs, b, pa) then 1 else 0)
  {
    var ss := BasketSessions(bs);
    CountTwo(ss, s => Bought(bs, s, pa) && Bought(bs, s, pb), a, b);
    CountTwo(ss, s => Bought(bs, s, pa), a, b);
  }

  /** n copies of one basket row. */
  function Repeat(x: Basket, n: nat): (r: seq<Basket>)
    ensures |r| == n && forall i :: 0 <= i < n ==> r[i] == x
  {
    if n == 0 then [] else [x] + Repeat(x, n - 1)
  }

  lemma {:induction false} CountRepeat(x: Basket, n: nat, p: Basket -> bool)
    ensures Count(Repeat(x, n), p) == if p(x) then n else 0
  {
    if n > 0 {
      CountRepeat(x, n - 1, p);
      assert ([x] + Repeat(x, n - 1))[1..] == Repeat(x, n - 1);
    }
  }

  /** The skewed baskets are one row of 10, five rows of 20 and one row of 30. */
  lemma SkewedShape()
    ensures SkewedBaskets() == [Basket(Some(1), Some(10))] + Repeat(Basket(Some(1), Some(20)), 5) + [Basket(Some(2), Some(30))]
  {
  }

  /** A count over the skewed baskets adds up its three kinds of rows. */
  lemma SkewedCount(p: Basket -> bool)
    ensures Count(SkewedBaskets(), p) ==
      (if p(Basket(Some(1), Some(10))) then 1 else 0) + (if p(Basket(Some(1), Some(20))) then 5 else 0) +
      (if p(Basket(Some(2), Some(30))) then 1 else 0)
  {
    var a, b, c := Basket(Some(1), Some(10)), Basket(Some(1), Some(20)), Basket(Some(2), Some(30));
    SkewedShape();
    FilterAppend([a] + Repeat(b, 5), [c], p);
    FilterAppend([a], Repeat(b, 5), p);
    CountRepeat(b, 5, p);
  }

  /** Per session purchase rows of the skewed baskets. */
  lemma SkewedCountIn10()
    ensures CountIn(SkewedBaskets(), 1, 10) == 1
    ensures CountIn(SkewedBaskets(), 2, 10) == 0
  {
    SkewedCount((x: Basket) => x.session == Some(1) && x.product == Some(10));
    SkewedCount((x: Basket) => x.session == Some(2) && x.product == Some(10));
  }

  lemma SkewedCountIn20()
    ensures CountIn(SkewedBaskets(), 1, 20) == 5
  {
    SkewedCount((x: Basket) => x.session == Some(1) && x.product == Some(20));
  }

  /** Per product purchase rows of the skewed baskets. */
  lemma SkewedProductCount10()
    ensures ProductCount(SkewedBaskets(), 10) == 1
  {
    SkewedCount((x: Basket) => x.product == Some(10));
  }

  lemma SkewedProductCount20()
    ensures ProductCount(SkewedBaskets(), 20) == 5
  {
    SkewedCount((x: Basket) => x.product == Some(20));
  }

  /** The row-pair count of (10, 20) in the skewed baskets is 1 * 5. */
  lemma SkewedPairCount()
    ensures PairCount(SkewedBaskets(), 10, 20) == 5
  {
    SkewedSessions();
    SkewedCountIn10();
    SkewedCountIn20();
    PairCountTwoSessions(SkewedBaskets(), 1, 2, 10, 20);
  }

  /** A pair of different products with pair_count >= 5 whose lift passes
      the threshold gives a stored rule. */
  lemma RuleOfFrequentPair(bs: seq<Basket>, pa: int, pb: int)
    requires pa != pb && PairCount(bs, pa, pb) >= MinPairCount
    requires 5 * PairCount(bs, pa, pb) * TotalSessions(bs) > 6 * ProductCount(bs, pa) * ProductCount(bs, pb)
    ensures RuleOf(bs, PairRow(pa, pb, PairCount(bs, pa, pb))) in AffinityRules(bs)
  {
    ProductPairsComplete(bs, pa, pb);
    AffinityRuleComplete(bs, PairRow(pa, pb, PairCount(bs, pa, pb)));
  }

  /** The skewed baskets have two sessions. */
  lemma SkewedTotalSessions()
    ensures TotalSessions(SkewedBaskets()) == 2
  {
    SkewedSessions();
  }

  /** The rule 10 -> 20 of the skewed baskets is stored. */
  lemma SkewedRule(bs: seq<Basket>)
    requires bs == SkewedBaskets()
    ensures RuleOf(bs, PairRow(10, 20, 5)) in AffinityRules(bs)
  {
    SkewedTotalSessions();
    SkewedProductCount10();
    SkewedProductCount20();
    SkewedPairCount();
    SkewedLift(PairCount(bs, 10, 20), TotalSessions(bs), ProductCount(bs, 10), ProductCount(bs, 20));
    RuleOfFrequentPair(bs, 10, 20);
  }

  /** Its confidence is 5 / 1. */
  lemma SkewedConfidence(bs: seq<Basket>)
    requires bs == SkewedBaskets()
    ensures RuleOf(bs, PairRow(10, 20, 5)).confidence == 5.0
  {
    SkewedProductCount10();
  }

  /** The lift test for pair_count 5, two sessions and product counts 1 and 5. */
  lemma SkewedLift(pc: int, n: int, ca: int, cb: int)
    requires pc == 5 && n == 2 && ca == 1 && cb == 5
    ensures 5 * pc * n > 6 * ca * cb
  {
  }

  /** Session 1 of the skewed baskets bought 10 and 20, session 2 bought neither. */
  lemma SkewedBought()
    ensures Bought(SkewedBaskets(), 1, 10) && Bought(SkewedBaskets(), 1, 20)
    ensures !Bought(SkewedBaskets(), 2, 10)
  {
    var bs := SkewedBaskets();
    assert bs[0] == Basket(Some(1), Some(10)) && bs[1] == Basket(Some(1), Some(20));
    assert forall x :: x in bs && x.session == Some(2) ==> x.product == Some(30);
  }

  /** Counting sessions, the pair (10, 20) and product 10 each have one session. */
  lemma SkewedSessionCounts()
    ensures SessionPairCount(SkewedBaskets(), 10, 20) == 1 && SessionSupport(SkewedBaskets(), 10) == 1
  {
    SkewedSessions();
    SkewedBought();
    SessionCountsTwoSessions(SkewedBaskets(), 1, 2, 10, 20);
  }

  /** With the row-pair count, the rule 10 -> 20 is stored with confidence
      5.0 although only one session bought both: "confidence" is not a
      probability. Counting sessions gives 1 / 1. */
  lemma RowPairConfidenceAboveOne()
    ensures exists r :: r in AffinityRules(SkewedBaskets()) && r.confidence > 1.0
    ensures SessionPairCount(SkewedBaskets(), 10, 20) == 1 && SessionSupport(SkewedBaskets(), 10) == 1
  {
    SkewedRule(SkewedBaskets());
    SkewedConfidence(SkewedBaskets());
    SkewedSessionCounts();
  }

  /** A duplicate-free sequence whose values are exactly a and b is [a, b] or [b, a]. */
  lemma NoDupPair(s: seq<int>, a: int, b: int)
    requires NoDup(s) && a != b && a in s && b in s
    requires forall x :: x in s ==> x == a || x == b
    ensures s == [a, b] || s == [b, a]
  {
    var i :| 0 <= i < |s| && s[i] == a;
    var j :| 0 <= j < |s| && s[j] == b;
    if |s| > 2 {
      var k := if i != 0 && j != 0 then 0 else if i != 1 && j != 1 then 1 else 2;
      OneOfTwo(s, a, b, k);
      assert false;
    }
  }

  lemma OneOfTwo(s: seq<int>, a: int, b: int, k: int)
    requires forall x :: x in s ==> x == a || x == b
    requires 0 <= k < |s|
    ensures s[k] == a || s[k] == b
  {
    assert s[k] in s;
  }

  lemma SumTwo(s: seq<int>, f: int -> int, a: int, b: int)
    requires s == [a, b] || s == [b, a]
    ensures Sum(s, f) == f(a) + f(b)
  {
    assert Sum([a], f) == f(a) && Sum([b], f) == f(b);
    if s == [a, b] {
      assert s[1..] == [b];
    } else {
      assert s[1..] == [a];
    }
  }

  lemma CountTwo(s: seq<int>, p: int -> bool, a: int, b: int)
    requires s == [a, b] || s == [b, a]
    ensures Count(s, p) == (if p(a) then 1 else 0) + (if p(b) then 1 else 0)
  {
    assert Count([a], p) == (if p(a) then 1 else 0) by { assert [a][1..] == []; }
    assert Count([b], p) == (if p(b) then 1 else 0) by { assert [b][1..] == []; }
    if s == [a, b] {
      assert s[1..] == [b];
    } else {
      assert s[1..] == [a];
    }
  }
}
