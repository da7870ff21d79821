/** The feature store (src/processing/features.py): session_features
    aggregates fact_sessions per user, and features_users left-joins
    dim_users with analysis_rfm_segments and session_features, filling in
    defaults for the users that either table lacks. */
module Features {
  import opened Wrappers
  import opened Relational
  import opened Events
  import opened InitialModeling
  import opened Sessionization
  import opened Segmentation

  // ---------------------------------------------------------------------
  // session_features: GROUP BY user_id over fact_sessions

  /** One row of session_features (std_session_duration is not modelled). */
  datatype SessionFeatureRow = SessionFeatureRow(
    user: int,
    totalSessions: nat,
    avgSessionDuration: real,
    avgEventsPerSession: real,
    cartRate: real,
    checkoutRate: real)

  function SessionUser(row: SessionRow): int { row.user }
  function DurationColumn(row: SessionRow): int { row.durationSec }

  /** AVG(f) over a non-empty group. */
  function Avg(g: seq<SessionRow>, f: SessionRow -> int): real
    requires g != []
  {
    Sum(g, f) as real / |g| as real
  }

  /** The aggregates of one user's (non-empty) group of sessions. The
      checkout rate is guarded by a CASE: 0 when no session has a cart. */
  function SessionFeatureOf(u: int, g: seq<SessionRow>): SessionFeatureRow
    requires g != []
  {
    var carts := Sum(g, CartFlag);
    var purchases := Sum(g, PurchaseFlag);
    SessionFeatureRow(u, |g|, Avg(g, DurationColumn), Avg(g, EventCountColumn),
      carts as real / |g| as real,
      if carts == 0 then 0.0 else purchases as real / carts as real)
  }

  function SessionFeatureFor(rows: seq<SessionRow>, u: int): SessionFeatureRow {
    var g := Group(rows, SessionUser, u);
    if g == [] then SessionFeatureRow(u, 0, 0.0, 0.0, 0.0, 0.0) else SessionFeatureOf(u, g)
  }

  function FeatureUser(row: SessionFeatureRow): int { row.user }

  /** session_features over the rows of fact_sessions: one row per user_id. */
  function SessionFeatures(rows: seq<SessionRow>): (r: seq<SessionFeatureRow>)
    ensures MapSeq(r, FeatureUser) == Keys(rows, SessionUser)
  {
    var us := Keys(rows, SessionUser);
    var r := MapSeq(us, (u: int) => SessionFeatureFor(rows, u));
    assert MapSeq(r, FeatureUser) == us;
    r
  }

  /** One row per user that has a session, each user once. */
  lemma SessionFeaturesKeys(rows: seq<SessionRow>)
    ensures NoDup(MapSeq(SessionFeatures(rows), FeatureUser))
    ensures forall s :: s in rows ==> exists f :: f in SessionFeatures(rows) && f.user == s.user
    ensures forall f :: f in SessionFeatures(rows) ==> exists s :: s in rows && s.user == f.user
  {
    var r := SessionFeatures(rows);
    var ks := Keys(rows, SessionUser);
    RowsOfKeys(r, FeatureUser, ks);
    forall s | s in rows ensures exists f :: f in r && f.user == s.user {
      assert SessionUser(s) in ks;
      var f :| f in r && FeatureUser(f) == s.user;
    }
    forall f | f in r ensures exists s :: s in rows && s.user == f.user {
      assert FeatureUser(f) in ks;
      var s :| s in rows && SessionUser(s) == f.user;
    }
  }

  /** The row of a user is the aggregate of the user's non-empty group. */
  lemma SessionFeaturesRowOf(rows: seq<SessionRow>, f: SessionFeatureRow)
    requires f in SessionFeatures(rows)
    ensures Group(rows, SessionUser, f.user) != []
    ensures f == SessionFeatureOf(f.user, Group(rows, SessionUser, f.user))
  {
    var r := SessionFeatures(rows);
    var us := Keys(rows, SessionUser);
    var i :| 0 <= i < |r| && r[i] == f;
    assert f.user == MapSeq(r, FeatureUser)[i] == us[i];
    assert us[i] in us;
    var s :| s in rows && s.user == f.user;
    assert s in Group(rows, SessionUser, f.user);
  }

  /** total_sessions counts the user's sessions (at least one), cart_rate is
      the share of them with a cart, in [0, 1], and checkout_rate is 0 when
      none has a cart, else purchase-sessions over cart-sessions. */
  lemma SessionFeaturesRow(rows: seq<SessionRow>, f: SessionFeatureRow)
    requires f in SessionFeatures(rows)
    ensures f.totalSessions == |Group(rows, SessionUser, f.user)| >= 1
    ensures f.cartRate == Count(Group(rows, SessionUser, f.user), RowHasCart) as real / f.totalSessions as real
    ensures 0.0 <= f.cartRate <= 1.0
    ensures Count(Group(rows, SessionUser, f.user), RowHasCart) == 0 ==> f.checkoutRate == 0.0
    ensures Count(Group(rows, SessionUser, f.user), RowHasCart) > 0 ==>
      f.checkoutRate == Count(Group(rows, SessionUser, f.user), RowHasPurchase) as real /
                        Count(Group(rows, SessionUser, f.user), RowHasCart) as real
    ensures f.checkoutRate >= 0.0
  {
    SessionFeaturesRowOf(rows, f);
    var g := Group(rows, SessionUser, f.user);
    SumIndicator(g, RowHasCart, 1, CartFlag);
    SumIndicator(g, RowHasPurchase, 1, PurchaseFlag);
    FractionBounds(Count(g, RowHasCart), |g|);
    NonNegativeRate(Count(g, RowHasPurchase), Count(g, RowHasCart));
  }

  lemma NonNegativeRate(a: nat, b: nat)
    ensures b > 0 ==> a as real / b as real >= 0.0
  {
  }

  /** checkout_rate is at most 1 when every session of the user with a
      purchase also has a cart event; otherwise it can exceed 1. */
  lemma CheckoutRateAtMostOne(rows: seq<SessionRow>, f: SessionFeatureRow)
    requires f in SessionFeatures(rows)
    requires forall s :: s in rows && s.user == f.user && s.hasPurchase ==> s.hasCart
    ensures f.checkoutRate <= 1.0
  {
    SessionFeaturesRow(rows, f);
    var g := Group(rows, SessionUser, f.user);
    CountMono(g, RowHasPurchase, RowHasCart);
    if Count(g, RowHasCart) > 0 {
      FractionBounds(Count(g, RowHasPurchase), Count(g, RowHasCart));
    }
  }

  /** One user with two sessions, both purchasing and only one with a cart
      event: checkout_rate is 2. */
  lemma CheckoutRateAboveOne()
    ensures SessionFeatureOf(7, [
      SessionRow(1, 7, 0, 0, 0, 2, true, true, false, true, 100, None),
      SessionRow(2, 7, 0, 0, 0, 1, false, false, false, true, 100, None)]).checkoutRate == 2.0
  {
    var rows := [
      SessionRow(1, 7, 0, 0, 0, 2, true, true, false, true, 100, None),
      SessionRow(2, 7, 0, 0, 0, 1, false, false, false, true, 100, None)];
    assert rows[1..][1..] == [];
    assert Sum(rows, CartFlag) == 1;
    assert Sum(rows, PurchaseFlag) == 2;
  }

  // ---------------------------------------------------------------------
  // features_users: the two LEFT JOINs

  /** One row of features_users (std_session_duration is not modelled). */
  datatype FeatureRow = FeatureRow(
    user: int,
    totalSpend: int,
    purchaseCount: int,
    eventCount: int,
    firstSeen: int,
    lastSeen: int,
    recencyDays: int,
    frequencyRaw: int,
    monetaryRaw: int,
    rfmSegment: string,
    rfmCode: string,
    totalSessions: int,
    avgSessionDuration: real,
    avgEventsPerSession: real,
    cartRate: real,
    checkoutRate: real)

  function RfmUser(row: RfmSegmentRow): int { row.user }

  /** The output row for a dim_users row and the joined rows (None where the
      LEFT JOIN found nothing), with the COALESCE defaults. */
  function JoinRow(u: UserRow, r: Option<RfmSegmentRow>, s: Option<SessionFeatureRow>): FeatureRow {
    FeatureRow(u.user, u.totalSpend, u.purchaseCount, u.eventCount, u.firstSeen, u.lastSeen,
      if r.Some? then r.value.recencyDays else -1,
      if r.Some? then r.value.frequency else 0,
      if r.Some? then r.value.monetary else 0,
      if r.Some? then Label(r.value.segment) else "Browser",
      if r.Some? then r.value.rfmCode else "000",
      if s.Some? then s.value.totalSessions else 0,
      if s.Some? then s.value.avgSessionDuration else 0.0,
      if s.Some? then s.value.avgEventsPerSession else 0.0,
      if s.Some? then s.value.cartRate else 0.0,
      if s.Some? then s.value.checkoutRate else 0.0)
  }

  /** The right-hand rows a LEFT JOIN pairs with key u: every matching row,
      or a single NULL row when none matches. */
  function LeftMatches<T(!new)>(s: seq<T>, key: T -> int, u: int): (m: seq<Option<T>>)
    ensures m != []
    ensures None in m <==> forall x :: x in s ==> key(x) != u
  {
    var g := Group(s, key, u);
    if g == [] then [None]
    else
      var m := MapSeq(g, (x: T) => Some(x));
      assert g[0] in s;
      assert None !in m;
      m
  }

  /** The rows one dim_users row contributes: every combination of its
      matches in the two right-hand tables. */
  function Pairings(u: UserRow, rs: seq<Option<RfmSegmentRow>>, ss: seq<Option<SessionFeatureRow>>): (r: seq<FeatureRow>)
    ensures |r| == |rs| * |ss|
  {
    if rs == [] then []
    else
      var r := MapSeq(ss, (y: Option<SessionFeatureRow>) => JoinRow(u, rs[0], y)) + Pairings(u, rs[1..], ss);
      assert |rs| * |ss| == |ss| + (|rs| - 1) * |ss|;
      r
  }

  function JoinUser(u: UserRow, rfm: seq<RfmSegmentRow>, sf: seq<SessionFeatureRow>): (r: seq<FeatureRow>)
    ensures |r| >= 1
  {
    var rs := LeftMatches(rfm, RfmUser, u.user);
    var ss := LeftMatches(sf, FeatureUser, u.user);
    PositiveProduct(|rs|, |ss|);
    Pairings(u, rs, ss)
  }

  lemma PositiveProduct(a: nat, b: nat)
    requires a >= 1 && b >= 1
    ensures a * b >= 1
  {
  }

  /** features_users: dim_users LEFT JOIN analysis_rfm_segments LEFT JOIN
      session_features, in dim_users order. A LEFT JOIN drops no user. */
  function FeaturesUsers(users: seq<UserRow>, rfm: seq<RfmSegmentRow>, sf: seq<SessionFeatureRow>): (r: seq<FeatureRow>)
    ensures |r| >= |users|
  {
    if users == [] then [] else JoinUser(users[0], rfm, sf) + FeaturesUsers(users[1..], rfm, sf)
  }

  /** The row of key u in a table keyed uniquely, if any. */
  function Lookup<T(!new)>(s: seq<T>, key: T -> int, u: int): (m: Option<T>)
    ensures m.None? <==> forall x :: x in s ==> key(x) != u
    ensures m.Some? ==> m.value in s && key(m.value) == u
  {
    var g := Group(s, key, u);
    if g == [] then None
    else
      assert g[0] in g;
      Some(g[0])
  }

  /** In a table keyed uniquely, a LEFT JOIN finds exactly one row (or NULL). */
  lemma LeftMatchesUnique<T(!new)>(s: seq<T>, key: T -> int, u: int)
    requires NoDup(MapSeq(s, key))
    ensures LeftMatches(s, key, u) == [Lookup(s, key, u)]
  {
    CountNoDupKey(s, key, u);
  }

  /** With both joined tables keyed uniquely by user_id, features_users has
      exactly one row per dim_users row, built from that user's matches. */
  lemma {:induction false} FeaturesUsersExact(users: seq<UserRow>, rfm: seq<RfmSegmentRow>, sf: seq<SessionFeatureRow>)
    requires NoDup(MapSeq(rfm, RfmUser)) && NoDup(MapSeq(sf, FeatureUser))
    ensures |FeaturesUsers(users, rfm, sf)| == |users|
    ensures forall i :: 0 <= i < |users| ==>
      FeaturesUsers(users, rfm, sf)[i] == JoinRow(users[i], Lookup(rfm, RfmUser, users[i].user), Lookup(sf, FeatureUser, users[i].user))
  {
    if users != [] {
      var u := users[0];
      LeftMatchesUnique(rfm, RfmUser, u.user);
      LeftMatchesUnique(sf, FeatureUser, u.user);
      var first := JoinRow(u, Lookup(rfm, RfmUser, u.user), Lookup(sf, FeatureUser, u.user));
      assert JoinUser(u, rfm, sf) == [first];
      FeaturesUsersExact(users[1..], rfm, sf);
      var r := FeaturesUsers(users, rfm, sf);
      assert r == [first] + FeaturesUsers(users[1..], rfm, sf);
      forall i | 0 <= i < |users|
        ensures r[i] == JoinRow(users[i], Lookup(rfm, RfmUser, users[i].user), Lookup(sf, FeatureUser, users[i].user))
      {
        if i > 0 {
          assert users[i] == users[1..][i - 1];
        }
      }
    }
  }

  // ---------------------------------------------------------------------
  // The feature-store pipeline over the event log

  /** build_feature_store: session_features from fact_sessions, then
      features_users. analysis_rfm_segments cannot be built from an empty
      log (its max_date is NULL), so neither can the feature store. */
  function FeatureStore(es: seq<Event>): (r: Result<seq<FeatureRow>, string>)
    ensures r.Err? <==> es == []
    ensures r.Ok? ==> |r.value| == |DimUsers(es)|
  {
    match RfmAnalysis(es)
    case Err(msg) => Err(msg)
    case Ok(rfm) =>
      PipelineKeysUnique(es);
      FeaturesUsersExact(DimUsers(es), rfm, SessionFeatures(FactSessions(es)));
      Ok(FeaturesUsers(DimUsers(es), rfm, SessionFeatures(FactSessions(es))))
  }

  /** Both joined tables of the pipeline are keyed uniquely by user_id. */
  lemma PipelineKeysUnique(es: seq<Event>)
    requires es != []
    ensures NoDup(MapSeq(RfmAnalysis(es).value, RfmUser))
    ensures NoDup(MapSeq(SessionFeatures(FactSessions(es)), FeatureUser))
  {
    var rfm := RfmAnalysis(es).value;
    assert MapSeq(rfm, RfmUser) == Buyers(es);
    SessionFeaturesKeys(FactSessions(es));
  }

  /** features_users has exactly one row per dim_users row, in the same
      order, and carries over the user's profile columns. */
  lemma FeatureStoreRows(es: seq<Event>)
    requires es != []
    ensures forall i :: 0 <= i < |DimUsers(es)| ==>
      var (f, u) := (FeatureStore(es).value[i], DimUsers(es)[i]);
      f.user == u.user && f.totalSpend == u.totalSpend && f.purchaseCount == u.purchaseCount &&
      f.eventCount == u.eventCount && f.firstSeen == u.firstSeen && f.lastSeen == u.lastSeen
  {
    PipelineKeysUnique(es);
    var users := DimUsers(es);
    var rfm := RfmAnalysis(es).value;
    var sf := SessionFeatures(FactSessions(es));
    var r := FeatureStore(es).value;
    assert r == FeaturesUsers(users, rfm, sf);
    FeaturesUsersExact(users, rfm, sf);
    forall i | 0 <= i < |users|
      ensures r[i].user == users[i].user && r[i].totalSpend == users[i].totalSpend &&
        r[i].purchaseCount == users[i].purchaseCount && r[i].eventCount == users[i].eventCount &&
        r[i].firstSeen == users[i].firstSeen && r[i].lastSeen == users[i].lastSeen
    {
      assert r[i] == JoinRow(users[i], Lookup(rfm, RfmUser, users[i].user), Lookup(sf, FeatureUser, users[i].user));
    }
  }

  /** No label of the ladder is 'Browser'. */
  lemma LabelNotBrowser(s: Segment)
    ensures Label(s) != "Browser"
  {
    match s
    case Champions => assert Label(s)[0] == 'C';
    case LoyalCustomers => assert Label(s)[0] == 'L';
    case NewCustomers => assert Label(s)[0] == 'N';
    case Promising => assert Label(s)[0] == 'P';
    case NeedAttention => assert Label(s)[0] == 'N';
    case CantLoseThem => assert Label(s)[0] == 'C';
    case Hibernating => assert Label(s)[0] == 'H';
    case AtRisk => assert Label(s)[0] == 'A';
  }

  /** The RFM columns of features_users: a user is labelled 'Browser'
      exactly when the user never purchased, and then gets recency -1,
      frequency 0, monetary 0 and rfm_code '000'. */
  lemma FeatureStoreRfm(es: seq<Event>, i: int)
    requires es != [] && 0 <= i < |DimUsers(es)|
    ensures FeatureStore(es).value[i].rfmSegment == "Browser" <==>
      !exists e :: e in es && e.kind == Purchase && e.user == DimUsers(es)[i].user
    ensures (!exists e :: e in es && e.kind == Purchase && e.user == DimUsers(es)[i].user) ==>
      var f := FeatureStore(es).value[i];
      f.recencyDays == -1 && f.frequencyRaw == 0 && f.monetaryRaw == 0 && f.rfmCode == "000"
  {
    FeatureStoreRows(es);
    PipelineKeysUnique(es);
    var rfm := RfmAnalysis(es).value;
    var u := DimUsers(es)[i];
    FeaturesUsersExact(DimUsers(es), rfm, SessionFeatures(FactSessions(es)));
    var m := Lookup(rfm, RfmUser, u.user);
    BuyerHasRfmRow(es, u.user);
    if m.Some? {
      LabelNotBrowser(m.value.segment);
    }
  }

  /** A user has a row of analysis_rfm_segments iff the user purchased. */
  lemma BuyerHasRfmRow(es: seq<Event>, u: int)
    requires es != []
    ensures Lookup(RfmAnalysis(es).value, RfmUser, u).Some? <==> exists e :: e in es && e.kind == Purchase && e.user == u
  {
    if exists e :: e in es && e.kind == Purchase && e.user == u {
      BuyerRowExists(es, u);
    }
    if Lookup(RfmAnalysis(es).value, RfmUser, u).Some? {
      RfmRowIsBuyer(es, Lookup(RfmAnalysis(es).value, RfmUser, u).value);
    }
  }

  lemma BuyerRowExists(es: seq<Event>, u: int)
    requires es != [] && u in Buyers(es)
    ensures exists x :: x in RfmAnalysis(es).value && RfmUser(x) == u
  {
    var rfm := RfmAnalysis(es).value;
    var bs := Buyers(es);
    var j :| 0 <= j < |bs| && bs[j] == u;
    assert rfm[j] in rfm && RfmUser(rfm[j]) == u;
  }

  lemma RfmRowIsBuyer(es: seq<Event>, x: RfmSegmentRow)
    requires es != [] && x in RfmAnalysis(es).value
    ensures x.user in Buyers(es)
  {
    var rfm := RfmAnalysis(es).value;
    var bs := Buyers(es);
    var j :| 0 <= j < |rfm| && rfm[j] == x;
    assert bs[j] in bs;
  }

  /** The behavioural columns of features_users: total_sessions counts the
      user's rows of fact_sessions (0 when there are none), and the two
      rates are 0 for a user without sessions, cart_rate lying in [0, 1]. */
  lemma FeatureStoreSessions(es: seq<Event>, i: int)
    requires es != [] && 0 <= i < |DimUsers(es)|
    ensures FeatureStore(es).value[i].totalSessions == |Group(FactSessions(es), SessionUser, DimUsers(es)[i].user)|
    ensures 0.0 <= FeatureStore(es).value[i].cartRate <= 1.0
    ensures FeatureStore(es).value[i].checkoutRate >= 0.0
    ensures FeatureStore(es).value[i].totalSessions == 0 ==>
      FeatureStore(es).value[i].cartRate == 0.0 && FeatureStore(es).value[i].checkoutRate == 0.0 &&
      FeatureStore(es).value[i].avgSessionDuration == 0.0 && FeatureStore(es).value[i].avgEventsPerSession == 0.0
  {
    FeatureStoreRows(es);
    PipelineKeysUnique(es);
    var sf := SessionFeatures(FactSessions(es));
    var u := DimUsers(es)[i];
    FeaturesUsersExact(DimUsers(es), RfmAnalysis(es).value, sf);
    var m := Lookup(sf, FeatureUser, u.user);
    if m.Some? {
      SessionFeaturesRow(FactSessions(es), m.value);
    } else {
      SessionFeaturesKeys(FactSessions(es));
      NoSessions(FactSessions(es), u.user);
    }
  }

  lemma NoSessions(rows: seq<SessionRow>, u: int)
    requires forall s :: s in rows ==> s.user != u
    ensures |Group(rows, SessionUser, u)| == 0
  {
    GroupNone(rows, SessionUser, u);
  }
}
