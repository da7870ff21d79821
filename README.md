# E-commerce event analytics, modelled in Dafny

This project models the analytics pipeline of an e-commerce clickstream
warehouse. The raw event log holds one row per user interaction: a view, a
cart, a removal from the cart, or a purchase. Every derived table is a
deterministic SQL or polars query over that log. Each query here is a pure
function from `seq<Event>` to a sequence of row records, and its promises are
proved about that function. The promises include:
- one row per key, and counts that add up;
- the bounds of rates;
- first-match CASE ladders;
- NTILE bucket balance;
- the affinity lift formula.

The modules follow the program's files:

- `events.dfy` (Events): the event record, plus the day and week of a time and the per-group aggregates the queries share. These are COUNT(*), the 0/1 flag sums, revenue, COUNT(DISTINCT ...), MIN/MAX of event_time and MAX over viewed category codes.
- `relational.dfy` (Relational): generic relational operators. These are projection, WHERE, GROUP BY keys and groups, ORDER BY (a stable insertion sort), SUM/COUNT, mode and string MAX, with the bridge lemmas between grouped sums and whole-table sums.
- `ntile.dfy` (Ntile): DuckDB's NTILE(n) window function.
- `initial_modeling.dfy` (InitialModeling): dim_products, fact_daily_kpis and dim_users.
- `sessionization.dfy` (Sessionization): fact_sessions and the session funnel.
- `segmentation.dfy` (Segmentation): rfm_base, the NTILE scores, rfm_code and the 8-label ladder.
- `retention.dfy` (Retention): weekly cohort retention and churn status.
- `features.dfy` (Features): session_features and the features_users LEFT JOIN with its COALESCE defaults.
- `affinity.dfy` (Affinity): the market-basket rules of the model training code.
- `warehouse.dfy`, `warehouse_rfm.dfy` and `warehouse_affinity.dfy` (Warehouse, WarehouseRfm, WarehouseAffinity): the tables of the cloud build script and of the in-memory loader, plus `format_number`.
- `propensity.dfy` (Propensity): the training set of the purchase-propensity model.
- `dataset_chunks.dfy` and `indexed_subsets.dfy` (DatasetChunks, IndexedSubsets): the dataset optimisation script.
  - Chunk planning is the one imperative piece, a method with a loop.
  - The other parts are the sampling filter and the three pre-aggregated subsets.
- `statistical_summary.dfy` (StatisticalSummary): the summary report's segment ladder, event shares, funnel, abandonment and buyer rate.
- `data_explorer.dfy` (DataExplorer): the Data Explorer page's event distribution, rates, price histogram and top categories and brands.

Representation:
- Times are integer seconds since the Unix epoch.
  - A day is `t / 86400`.
  - A week is Monday-aligned: week w holds days 7w-3 .. 7w+3.
- Prices are integer cents, so the dollar thresholds of the Data Explorer price ladder appear multiplied by 100.
- The session UUID is an `Option<int>`.
- product_id, category_code and brand are `Option`s.
- Divisions into doubles are `real` quotients. So are the in-memory affinity figures, which app/db_utils.py:193-195 computes in float32 (CAST AS FLOAT), while the cloud script (scripts/create_cloud_database.py:236-237) uses doubles: the model does not distinguish the two roundings.
- Values the source leaves to the engine become parameters or admissible choices. These are the window order of tied rows, the row DISTINCT ON keeps among equal times, mode ties, and CURRENT_DATE.

Where the repository holds divergent copies of a query, each copy has its own
function. The statements of `app/db_utils.py` that are textually the same as
those of `scripts/create_cloud_database.py` are modelled once, by the
Warehouse functions. These are dim_products, fact_sessions, fact_daily_kpis
and RFM. Both fact_daily_kpis statements are, column for column, the
statement `InitialModeling.FactDailyKpis` models, so they are not modelled a
second time.

Behaviour the model makes explicit, where a reader of the source might expect otherwise:
- **Row-pair counting in the training code's affinity rules.** pair_count counts joined row pairs, not sessions. Its "confidence" can therefore exceed 1 (see Findings).
- **checkout_rate in session_features can exceed 1.** A session may hold a purchase without a cart event (`Features.CheckoutRateAboveOne`).
- **'unknown' labels merge.** COALESCE(category_code, 'unknown') puts events without a code and events whose code is literally 'unknown' under one label.
- **Missing event types.** The summary report's funnel raises IndexError when the log lacks any of view, cart or purchase. The Data Explorer page instead counts a missing type as 0 and still shows its rates.
- **NULL in polars group_by and n_unique.** polars keeps a NULL group key and counts NULL in `n_unique`. The product summary therefore has a NULL-product row, and a user's unique_products counts a product-less event as one more product.
- **Segment labels do not match the ranges.** The summary report labels its top segments "(10+)" and "(5-10)", but the ladder puts 11 or more purchases in the high segment and 6..10 in the medium one; only "(1-5)" matches its range 1..5. The model follows the code.
- **Empty log.** MAX(event_time) is NULL on an empty log, and the query text `TIMESTAMP 'None'` is rejected. RFM segmentation, churn risk and hence the feature store then return an error.
- **Training-set recency.** recency_oct is at least 1, not just non-negative: the last October event falls on a day before the cutoff's midnight.

## Model

| member | source | states |
|---|---|---|
| Events.Purchases | src/analysis/segmentation.py:38 | WHERE event_type = 'purchase' keeps exactly the purchase events |
| Events.FlagSumCounts | src/processing/initial_modeling.py:57-59 | SUM(CASE WHEN event_type = k THEN 1 ELSE 0 END) is the number of events of type k |
| Events.KindCountsPartition | src/processing/initial_modeling.py:53-59 | the four event types partition a group: their counts add up to COUNT(*) |
| Events.RevenueWithoutPurchases | src/processing/sessionization.py:50 | revenue is a sum over purchase events only, so a group without purchases has revenue 0 |
| Events.SessionIds | src/processing/sessionization.py:56-57 | COUNT(DISTINCT user_session): each non-null session of the group once, and nothing else |
| Events.UserIds | src/processing/initial_modeling.py:54 | COUNT(DISTINCT user_id): each user of the group once, and nothing else |
| Events.FirstTime | src/processing/initial_modeling.py:75 | MIN(event_time): the time of some event of the group, and no event is earlier |
| Events.LastTime | src/processing/initial_modeling.py:76 | MAX(event_time): the time of some event of the group, and no event is later |
| Events.FirstNotAfterLast | src/processing/initial_modeling.py:75-76 | first_seen <= last_seen for every non-empty group |
| Events.MaxViewedCategory | src/processing/initial_modeling.py:83 | MAX over viewed category codes: NULL iff no view carries a code, else a viewed code no smaller than any other |
| Events.DayBounds | src/processing/initial_modeling.py:52 | CAST(event_time AS DATE): day d covers exactly the seconds 86400d .. 86400d + 86399 |
| Events.WeekBounds | src/analysis/retention.py:33-34 | date_trunc('week', ...): week w covers exactly the days 7w-3 .. 7w+3 (Monday to Sunday) |
| Ntile.Ntile | src/analysis/segmentation.py:58-60 | NTILE(n) gives each of the N rows a bucket in 1 .. m, where m <= n and m <= N |
| Ntile.NtileIff | src/analysis/segmentation.py:58-60 | row i is in bucket b iff Start(b) <= i < Start(b + 1): buckets are contiguous runs of rows |
| Ntile.NtileMonotone | src/analysis/segmentation.py:58-60 | a later row in window order never gets an earlier bucket |
| Ntile.SizeBalanced | src/analysis/segmentation.py:44-46 | every bucket holds floor(N/n) or ceil(N/n) rows |
| Ntile.SizeDecreasing | src/analysis/segmentation.py:44-46 | the larger buckets come first: bucket sizes never increase with the bucket number |
| Ntile.CountBucketTotal | src/analysis/segmentation.py:58-60 | exactly Size(b) of the N rows fall in bucket b |
| Ntile.TileMonotone | src/analysis/segmentation.py:58-60 | in a table sorted by key, a row with a strictly smaller key never gets a higher bucket |
| Ntile.TileBalance | src/analysis/segmentation.py:58-60 | over a duplicate-free sorted table, bucket b holds exactly Size(b) rows |
| InitialModeling.OrUnknown | src/processing/initial_modeling.py:36-37 | COALESCE(x, 'unknown'): a present value is kept, NULL becomes 'unknown' |
| InitialModeling.Latest | src/processing/initial_modeling.py:33-40 | the row DISTINCT ON keeps is an event of the group with maximal event_time |
| InitialModeling.DimProducts | src/processing/initial_modeling.py:31-41 | dim_products holds one row per distinct product_id; the row order is not modelled |
| InitialModeling.DimProductsKeys | src/processing/initial_modeling.py:33 | exactly one row per product_id of the log (NULL included), no two rows for one product |
| InitialModeling.DimProductsLatest | src/processing/initial_modeling.py:33-40 | price, category_code and brand of a row come from one event of that product with maximal event_time |
| InitialModeling.DimProductsDefaults | src/processing/initial_modeling.py:36-37 | a NULL category_code or brand of that event becomes 'unknown', a present one is kept |
| InitialModeling.Days | src/processing/initial_modeling.py:52-62 | the dates with events, each once, strictly ascending |
| InitialModeling.FactDailyKpis | src/processing/initial_modeling.py:49-63 | one row per date with events, in date order |
| InitialModeling.FactDailyKpisKeys | src/processing/initial_modeling.py:52-62 | the rows' dates are exactly the log's dates, strictly ascending |
| InitialModeling.DailyKpiRow | src/processing/initial_modeling.py:53-59 | a day's row counts its events (at least one); dau is the number of distinct users of the day and daily_sessions of its distinct non-NULL sessions; daily_revenue is the day's purchase revenue; purchases, carts and views count their types, with purchases + carts + views <= total_events and 1 <= dau <= total_events |
| InitialModeling.DailyTotals | src/processing/initial_modeling.py:53-56 | the daily event counts add up to the size of the log and the daily revenues to total revenue |
| InitialModeling.DimUsers | src/processing/initial_modeling.py:71-86 | one row per distinct user_id; the row order is not modelled |
| InitialModeling.DimUsersKeys | src/processing/initial_modeling.py:85 | exactly one row per user of the log |
| InitialModeling.DimUsersRow | src/processing/initial_modeling.py:74-83 | first_seen <= last_seen are the user's first and last event times (MIN and MAX), event_count >= 1, session_count is the user's distinct non-NULL sessions (<= event_count), purchase_count <= event_count, total_spend is the user's revenue, is_buyer iff a purchase exists, favorite category is the greatest viewed code |
| InitialModeling.UserTotals | src/processing/initial_modeling.py:77-80 | the per-user event counts add up to the log and the spends to total revenue |
| InitialModeling.DailyAgreesWithUsers | src/processing/initial_modeling.py:98 | daily revenue and user spend add up to the same total, as do daily and per-user event counts |
| Sessionization.SessionEvents | src/processing/sessionization.py:56-57 | the events of one session, after WHERE user_session IS NOT NULL |
| Sessionization.TopCategory | src/processing/sessionization.py:53 | mode(category_code): NULL iff no event has a code, else a code no other code outnumbers |
| Sessionization.FactSessions | src/processing/sessionization.py:33-58 | one row per distinct non-null user_session |
| Sessionization.FactSessionsKeys | src/processing/sessionization.py:56-57 | exactly one row per non-null session of the log; events without a session have no row |
| Sessionization.FactSessionsRow | src/processing/sessionization.py:37-53 | user_id is the largest user of the session; session_start <= session_end are its first and last times; duration_sec is their difference, >= 0; event_count >= 1; each has_* flag holds iff the session has that type; revenue is its purchase revenue, 0 without a purchase |
| Sessionization.SessionTotals | src/processing/sessionization.py:41-50 | event counts add up to the events that have a session, revenues to their revenue |
| Sessionization.SqlSum | src/processing/sessionization.py:78-80 | SUM over no rows is NULL, otherwise the sum |
| Sessionization.SqlDiv | src/processing/sessionization.py:83-85 | a / b is NULL when an operand is NULL or b = 0, otherwise the quotient |
| Sessionization.FunnelCounts | src/processing/sessionization.py:78-85 | each funnel count is the number of sessions with that step; overall_conversion is NULL iff there are no sessions, else in [0, 1] |
| Sessionization.FunnelNulls | src/processing/sessionization.py:83-85 | a rate is NULL exactly when its denominator counts no session |
| Sessionization.SessionFunnelCounts | src/processing/sessionization.py:76-87 | over the log, each count is the number of distinct sessions containing an event of that type |
| Segmentation.Buyers | src/analysis/segmentation.py:38-39 | the users with a purchase, each once |
| Segmentation.RfmBaseOf | src/analysis/segmentation.py:30-39 | rfm_base for a given max_date: one row per buyer, in buyer order |
| Segmentation.RfmBaseTable | src/analysis/segmentation.py:27-39 | an error exactly when the log is empty (max_date NULL), else rfm_base against the log's latest event time |
| Segmentation.RfmBaseKeys | src/analysis/segmentation.py:38-39 | exactly the users with a purchase get a row, each one row |
| Segmentation.RfmBaseRow | src/analysis/segmentation.py:34-36 | frequency_count = number of the user's purchases >= 1, monetary_value = their price sum, recency_days = days from the latest purchase to max_date |
| Segmentation.RecencyNonNegative | src/analysis/segmentation.py:27-34 | max_date is the log's latest event, so recency_days >= 0 |
| Segmentation.SegmentOf | src/analysis/segmentation.py:69-78 | first-match ladder: for scores in 1..5, each of the 8 labels holds iff (r, f) lies in its region, e.g. Champions iff r >= 4 and f >= 4, Cant Lose Them iff r = 1 and f >= 4, At Risk on (1,3), (2,1) and (r >= 3, f = 2) |
| Segmentation.RfmCode | src/analysis/segmentation.py:66 | the three-character concatenation of the score digits |
| Segmentation.RfmCodeRoundTrip | src/analysis/segmentation.py:66 | decoding rfm_code gives back (r, f, m), so the code determines the scores |
| Segmentation.RfmSegments | src/analysis/segmentation.py:49-79 | per row: base metrics kept, three scores in 1..5 (r_score = 6 - NTILE), code spelling them, label by the ladder |
| Segmentation.RecencyInverted | src/analysis/segmentation.py:58 | a smaller recency_days never gets a lower r_score |
| Segmentation.FrequencyMonotone | src/analysis/segmentation.py:59 | a larger frequency_count never gets a lower f_score |
| Segmentation.MonetaryMonotone | src/analysis/segmentation.py:60 | a larger monetary_value never gets a lower m_score |
| Segmentation.ScoreBalance | src/analysis/segmentation.py:44-46 | of N buyers, each score value of each metric goes to Size(5, N, b) buyers, floor(N/5) or ceil(N/5), larger buckets first |
| Segmentation.RfmAnalysis | src/analysis/segmentation.py:27-80 | the whole pipeline: an error iff the log is empty, else one row per buyer in buyer order, with r, f and m scores in 1..5, an rfm_code that decodes back to them and the segment of the ladder for (r_score, f_score) |
| Retention.FirstSeenOfDimUsers | src/analysis/retention.py:33-35 | the cohort's first_seen is the dim_users first_seen of the user |
| Retention.FirstSeenIsFirst | src/analysis/retention.py:33 | no event of a user precedes first_seen |
| Retention.UserActivity | src/analysis/retention.py:30-37 | dim_users JOIN events: one activity row per event, with the user's cohort and the event's week |
| Retention.ActivityAfterCohort | src/analysis/retention.py:49 | weeks_since_first >= 0 on every activity row |
| Retention.CohortUsers | src/analysis/retention.py:38-45 | cohort_size counts exactly the users whose first_seen falls in that week, each once |
| Retention.ActiveUsers | src/analysis/retention.py:50 | active_users counts the cohort members with an event in that week, each once |
| Retention.WeeklyRetention | src/analysis/retention.py:46-55 | one row per (cohort_week, weeks_since_first) of user_activity |
| Retention.WeeklyRetentionOrdered | src/analysis/retention.py:54-55 | rows unique per key, ordered by cohort then offset; every activity key has a row |
| Retention.WeeklyRetentionRow | src/analysis/retention.py:47-51 | weeks_since_first >= 0; 1 <= active_users <= cohort_size; retention_rate = active/size, in (0, 1] |
| Retention.RetentionAtWeekZero | src/analysis/retention.py:49-51 | at weeks_since_first = 0 every cohort member is active: the rate is exactly 1 |
| Retention.StatusOf | src/analysis/retention.py:75-79 | first match: Churned iff days > 14, At Risk iff 7 < days <= 14, Active iff days <= 7 |
| Retention.ChurnRisk | src/analysis/retention.py:66-81 | an error iff the log is empty, else one row per dim_users row, with its user and last_seen and the status the ladder gives its days_inactive |
| Retention.ChurnRiskRow | src/analysis/retention.py:72-79 | days_inactive is the day distance from the user's last_seen, the time of one of the user's events, to the log's last event, and is >= 0 |
| Retention.LatestUserActive | src/analysis/retention.py:74-78 | the user of the log's last event is Active |
| Features.SessionFeatures | src/processing/features.py:53-73 | one row per user_id of fact_sessions; the row order is not modelled |
| Features.SessionFeaturesKeys | src/processing/features.py:71-72 | exactly the users with a session get a row, each once |
| Features.SessionFeaturesRow | src/processing/features.py:57-69 | total_sessions >= 1 counts the user's sessions; cart_rate = cart sessions / sessions in [0, 1]; checkout_rate = 0 without cart sessions, else purchase sessions / cart sessions |
| Features.CheckoutRateAtMostOne | src/processing/features.py:66-69 | checkout_rate <= 1 when every purchasing session of the user also has a cart |
| Features.CheckoutRateAboveOne | src/processing/features.py:66-69 | a user with two purchasing sessions, one with a cart, has checkout_rate 2 |
| Features.LeftMatches | src/processing/features.py:110-112 | a LEFT JOIN pairs a key with every matching row, or with one NULL row when none matches |
| Features.FeaturesUsers | src/processing/features.py:83-113 | features_users keeps every dim_users row (a LEFT JOIN drops none) |
| Features.LeftMatchesUnique | src/processing/features.py:110-112 | against a uniquely keyed table the LEFT JOIN finds exactly one row or NULL |
| Features.FeaturesUsersExact | src/processing/features.py:110-112 | with both joined tables keyed uniquely, one output row per dim_users row, built from that user's matches |
| Features.FeatureStore | src/processing/features.py:74-113 | session_features then features_users; an error iff the log is empty |
| Features.PipelineKeysUnique | src/processing/features.py:111-112 | analysis_rfm_segments and session_features are each keyed uniquely by user_id |
| Features.FeatureStoreRows | src/processing/features.py:86-93 | one row per dim_users row, in order, with the profile columns carried over |
| Features.FeatureStoreRfm | src/processing/features.py:96-100 | rfm_segment is 'Browser' iff the user never purchased, and then recency -1, frequency 0, monetary 0, rfm_code '000' |
| Features.BuyerHasRfmRow | src/processing/features.py:111 | a user has an analysis_rfm_segments row iff the user purchased |
| Features.FeatureStoreSessions | src/processing/features.py:103-108 | total_sessions counts the user's fact_sessions rows (0 when none); both rates 0 without sessions; cart_rate in [0, 1] |
| Affinity.Baskets | src/models/recommendations.py:31-38 | one (session, product) row per purchase event; other event types contribute nothing |
| Affinity.BasketSessions | src/models/recommendations.py:68 | total_sessions: the distinct non-null sessions of the baskets |
| Affinity.PairCountBySessions | src/models/recommendations.py:47-54 | pair_count = sum over sessions of (#rows of A) * (#rows of B), and 0 for A = B |
| Affinity.PairCountSymmetric | src/models/recommendations.py:50-54 | pair_count(A, B) = pair_count(B, A) |
| Affinity.PairProducts | src/models/recommendations.py:51-53 | the products bought in some session, each once |
| Affinity.ProductPairs | src/models/recommendations.py:45-56 | product_pairs: no stored pair has product_a = product_b |
| Affinity.ProductPairsSound | src/models/recommendations.py:50-55 | every stored row carries its pair's count, which is >= 5 |
| Affinity.ProductPairsComplete | src/models/recommendations.py:53-55 | every pair of distinct products with count >= 5 is stored |
| Affinity.ProductPairsUnique | src/models/recommendations.py:54 | no pair is stored twice |
| Affinity.ProductPairsSymmetric | src/models/recommendations.py:50-54 | (A, B) is stored iff (B, A) is, with the same count |
| Affinity.AffinityRules | src/models/recommendations.py:77-97 | every rule has lift > 1.2, rules are in descending lift, and a rule is stored iff it is the rule of a stored pair passing the filter |
| Affinity.AffinityRuleMeaning | src/models/recommendations.py:85-91 | a rule comes from a stored pair; product counts >= 1; confidence = pair_count / cnt(A); lift = pair_count * N / (cnt(A) * cnt(B)) |
| Affinity.AffinityRuleThreshold | src/models/recommendations.py:96 | a stored rule satisfies 5 * pair_count * N > 6 * cnt(A) * cnt(B) |
| Affinity.LiftTest | src/models/recommendations.py:96 | x / d > 1.2 iff 5x > 6d, for d >= 1 |
| Affinity.AffinityRuleComplete | src/models/recommendations.py:93-96 | every stored pair passing the integer lift test has its rule stored |
| Affinity.SessionCountsBounded | src/models/recommendations.py:85 | counted by distinct sessions, a pair never outnumbers either product, nor a product the sessions |
| Affinity.SessionConfidenceAtMostOne | src/models/recommendations.py:85 | session-counted confidence never exceeds 1 |
| Affinity.RowPairConfidenceAboveOne | src/models/recommendations.py:50-54 | for concrete baskets the stored rule 10 -> 20 has confidence 5.0 while one session bought both |
| Warehouse.CatalogEvents | scripts/create_cloud_database.py:84 | WHERE product_id IS NOT NULL keeps exactly the events with a product |
| Warehouse.WarehouseProducts | scripts/create_cloud_database.py:75-86 | no row of the warehouse dim_products has a NULL product |
| Warehouse.WarehouseProductsKeys | app/db_utils.py:48-59 | one row per non-null product_id of the log, and nothing else |
| Warehouse.WarehouseProductsLatest | scripts/create_cloud_database.py:77-85 | each row comes from an event of its product with maximal time, with 'unknown' for a NULL code or brand |
| Warehouse.WarehouseUsers | scripts/create_cloud_database.py:93-106 | one row per user of the log; the row order is not modelled |
| Warehouse.WarehouseUsersRow | scripts/create_cloud_database.py:96-103 | first_seen and last_seen are the user's MIN and MAX event_time, session_count the user's distinct sessions, event_count >= 1, purchase counts and spend over purchases, is_buyer = 1 iff the user purchased, else 0 |
| Warehouse.AppUsers | app/db_utils.py:62-74 | one row per user of the log, with no is_buyer column |
| Warehouse.AppUsersRow | app/db_utils.py:65-72 | first_seen and last_seen are the user's MIN and MAX event_time, session_count the user's distinct sessions, and the same counts and sums, purchase_count and total_spend over purchase events only |
| Warehouse.WarehouseUsersKeys | app/db_utils.py:73 | both dim_users copies have one row per user of the log |
| Warehouse.ProductIds | scripts/create_cloud_database.py:122 | COUNT(DISTINCT product_id): the non-null products, each once |
| Warehouse.WarehouseSessions | scripts/create_cloud_database.py:113-127 | one row per (user_session, user_id) pair of the log, NULL session included |
| Warehouse.WarehouseSessionsKeys | scripts/create_cloud_database.py:126 | exactly one row per (session, user) pair; every event, with or without a session, falls in one, and every row is the pair of some event |
| Warehouse.WarehouseSessionsRow | app/db_utils.py:94-108 | start <= end with duration their difference, event_count >= 1, unique_products the distinct non-null products, has_purchase = 1 iff a purchase occurs, revenue over purchases and 0 without one |
| Warehouse.WarehouseSessionTotals | scripts/create_cloud_database.py:116-124 | event counts add up to the whole log and revenues to total revenue |
| Warehouse.FormatNumber | app/db_utils.py:228-234 | 'M' iff val >= 1,000,000, 'K' iff 1,000 <= val < 1,000,000, no suffix below; shown figure times scale gives val back |
| WarehouseRfm.EventDays | scripts/create_cloud_database.py:161 | COUNT(DISTINCT CAST(event_time AS DATE)): the distinct days, at least one for a non-empty group and at most one per event |
| WarehouseRfm.BuyerRfm | scripts/create_cloud_database.py:155-166 | one row per buyer, in buyer order |
| WarehouseRfm.BuyerRfmKeys | scripts/create_cloud_database.py:164-165 | exactly the buyers get a row, each once |
| WarehouseRfm.BuyerRfmRow | scripts/create_cloud_database.py:160-162 | frequency = distinct purchase days, in 1 .. #purchases; monetary = purchase sum; recency = days from the latest purchase to CURRENT_DATE |
| WarehouseRfm.BuyerRecencyNonNegative | app/db_utils.py:116 | when no event lies after CURRENT_DATE, recency_days >= 0 |
| WarehouseRfm.WarehouseSegmentOf | scripts/create_cloud_database.py:187-194 | first-match 6-label ladder: each label iff (r, f) is in its region; Regular iff r = 3 and f <= 2 |
| WarehouseRfm.WarehouseRfmScores | scripts/create_cloud_database.py:168-196 | metrics kept, scores in 1..5, rfm_total = r + f + m in 3..15, label by the ladder |
| WarehouseRfm.WarehouseRecencyMonotone | scripts/create_cloud_database.py:173 | NTILE over recency DESC: a smaller recency never gets a lower r_score |
| WarehouseRfm.WarehouseFrequencyMonotone | scripts/create_cloud_database.py:174 | more purchase days never give a lower f_score |
| WarehouseRfm.WarehouseMonetaryMonotone | scripts/create_cloud_database.py:175 | a larger spend never gives a lower m_score |
| WarehouseRfm.WarehouseScoreBalance | scripts/create_cloud_database.py:173-175 | each score value goes to Size(5, N, b) buyers, floor(N/5) or ceil(N/5) |
| WarehouseRfm.WarehouseRfmAnalysis | app/db_utils.py:111-152 | one row per buyer, scores in 1..5, label by the 6-label ladder |
| WarehouseRfm.WindowOrders | scripts/create_cloud_database.py:173-175 | the three ORDER BY keys sort buyer_rfm into valid window orders |
| WarehouseRfm.WarehouseRfmAnalysisRow | scripts/create_cloud_database.py:155-186 | each analysed row carries its buyer's rfm_base metrics |
| WarehouseAffinity.OrderedPairs | scripts/create_cloud_database.py:213 | the pairs A < B of products bought in some session, each once |
| WarehouseAffinity.WarehousePairs | scripts/create_cloud_database.py:205-218 | every stored pair has product_a < product_b |
| WarehouseAffinity.WarehousePairsSound | scripts/create_cloud_database.py:209-217 | pair_count = number of distinct sessions buying both, >= 3 |
| WarehouseAffinity.WarehousePairsComplete | app/db_utils.py:166-179 | every pair A < B bought together in >= 3 sessions is stored |
| WarehouseAffinity.WarehousePairsUnique | scripts/create_cloud_database.py:216 | no pair is stored twice |
| WarehouseAffinity.PairCounts | app/db_utils.py:181-188 | 3 <= pair_count <= support(A) <= N and pair_count <= support(B) |
| WarehouseAffinity.LiftIdentity | scripts/create_cloud_database.py:236-237 | (pc / sa) / (sb / n) = pc * n / (sa * sb) |
| WarehouseAffinity.CloudRules | scripts/create_cloud_database.py:233-244 | lift > 1.2, descending lift, and a rule is stored iff a stored pair's rule passes |
| WarehouseAffinity.CloudRuleMeaning | scripts/create_cloud_database.py:236-242 | a rule comes from a stored pair; confidence = pair_count / support(A) in (0, 1]; lift = pc * N / (sa * sb); 5 * pc * N > 6 * sa * sb |
| WarehouseAffinity.CloudRuleComplete | scripts/create_cloud_database.py:242 | every stored pair passing the lift test has its rule stored |
| WarehouseAffinity.NullIfZero | app/db_utils.py:193-196 | NULLIF(x, 0) is NULL iff x = 0, else x |
| WarehouseAffinity.FloatDiv | app/db_utils.py:193-196 | division is non-NULL iff both sides are and the divisor is non-zero, and then it inverts multiplication |
| WarehouseAffinity.AppRules | app/db_utils.py:189-202 | one rule per stored pair (no lift filter), in descending lift |
| WarehouseAffinity.AppRuleAgrees | app/db_utils.py:193-196 | on a stored pair no NULLIF guard fires and the figures equal the cloud rule's over exact reals (the float32 rounding of CAST AS FLOAT is not modelled) |
| WarehouseAffinity.AppRuleMeaning | app/db_utils.py:181-196 | confidence = pair_count / support(A) in (0, 1] and lift = pc * N / (sa * sb), neither NULL |
| WarehouseAffinity.CloudIsAppAboveThreshold | scripts/create_cloud_database.py:242 | the cloud table is the in-memory table cut at lift > 1.2 |
| Propensity.CutoffIsMidnight | src/models/train_propensity.py:50 | '2019-11-01' is the midnight starting day 18201 |
| Propensity.FeatureEvents | src/models/train_propensity.py:50 | the feature window holds exactly the events before the cutoff |
| Propensity.Converted | src/models/train_propensity.py:53-60 | the users with a purchase at or after the cutoff, each once |
| Propensity.TrainingSet | src/models/train_propensity.py:61-74 | one row per user of the feature window; the row order is not modelled |
| Propensity.TrainingSetKeys | src/models/train_propensity.py:49-51 | exactly the users with an event before the cutoff get a row, each once |
| Propensity.TrainRowCounts | src/models/train_propensity.py:42-46 | oct_events >= 1 counts the user's window events; views, carts, removes count their types and add to at most oct_events; oct_sessions is the number of the user's distinct window sessions, <= oct_events |
| Propensity.TrainRowTimes | src/models/train_propensity.py:48-70 | active_span_days is the day difference between the user's first and last window events (>= 0); recency_oct is the day difference from the last window event to 2019-11-01 (>= 1) |
| Propensity.TrainRowTarget | src/models/train_propensity.py:72 | target is 0 or 1, and 1 iff the user purchased at or after the cutoff |
| Propensity.LaterEventsChangeOnlyTarget | src/models/train_propensity.py:39-60 | appending events from the cutoff on changes no feature column, only the target |
| DatasetChunks.NChunksCeiling | summarise/optimize_dataset.py:120 | n_chunks * size >= total, (n_chunks - 1) * size < total when total > 0, and 0 chunks for 0 rows |
| DatasetChunks.Slice | summarise/optimize_dataset.py:132 | slice(offset, len) returns min(len, rows left after offset) rows |
| DatasetChunks.Pad3 | summarise/optimize_dataset.py:128 | f"{i:03d}" has width 3 for i < 1000 and denotes i |
| DatasetChunks.DigitsValue | summarise/optimize_dataset.py:128 | reading the decimal digits of n gives n back |
| DatasetChunks.ChunkNamesDistinct | summarise/optimize_dataset.py:128 | different chunk indexes get different file names |
| DatasetChunks.CreateAnalysisReadyChunks | summarise/optimize_dataset.py:97-139 | n_chunks chunks; chunk i is named from i and holds the slice at i * size; concatenated they are the rows; all but the last are full, the last non-empty |
| DatasetChunks.FullChunk | summarise/optimize_dataset.py:126-132 | every chunk before the last is full |
| DatasetChunks.ChunkStart | summarise/optimize_dataset.py:127 | every chunk starts inside the table |
| DatasetChunks.SampleDivisorOfReciprocal | summarise/optimize_dataset.py:163 | int(1 / (1/k)) = k |
| DatasetChunks.LoadForAnalysis | summarise/optimize_dataset.py:142-165 | a falsy sample_frac keeps all rows; otherwise exactly the rows whose user_id is divisible by int(1/sample_frac) |
| DatasetChunks.SampleKeepsWholeUsers | summarise/optimize_dataset.py:163 | a user's events are all kept or all dropped |
| DatasetChunks.SampleByReciprocal | summarise/optimize_dataset.py:161-163 | with sample_frac = 1/k the kept rows are those of users divisible by k |
| IndexedSubsets.ProductSummary | summarise/optimize_dataset.py:182-195 | one row per product_id, NULL included |
| IndexedSubsets.ProductSummaryKeys | summarise/optimize_dataset.py:183 | exactly one row per product of the log, events without a product sharing the NULL row |
| IndexedSubsets.ProductSummaryMeaning | summarise/optimize_dataset.py:185-192 | counts of events and of each type, views + carts + purchases <= total_events, price/brand/category from one event of the product, unique_users the number of distinct users of the product, between 1 and total_events |
| IndexedSubsets.ProductSummaryTotals | summarise/optimize_dataset.py:183-188 | event counts add up to the log and purchase counts to all purchases |
| IndexedSubsets.PurchaseSumIsRevenue | summarise/optimize_dataset.py:209 | the filtered price sum is the revenue of purchases, 0 without purchases |
| IndexedSubsets.UserSummary | summarise/optimize_dataset.py:201-212 | one row per user of the log |
| IndexedSubsets.UserSummaryKeys | summarise/optimize_dataset.py:202 | exactly one row per user, each once |
| IndexedSubsets.UserSummaryMeaning | summarise/optimize_dataset.py:204-209 | counts per type, unique_products the number of distinct product values of the user (NULL counted), total_spent = the user's revenue, 0 for non-buyers |
| IndexedSubsets.UniqueProductsCountsNull | summarise/optimize_dataset.py:208 | n_unique = distinct non-null products, plus one when some event has no product |
| IndexedSubsets.UserSummaryTotals | summarise/optimize_dataset.py:204-209 | event counts add up to the log, total_spent to all revenue |
| IndexedSubsets.DailyKeys | summarise/optimize_dataset.py:219-227 | the (date, event_type) keys of the log, each once, in date order |
| IndexedSubsets.DailySummary | summarise/optimize_dataset.py:218-228 | one row per (date, event_type) key, in date order |
| IndexedSubsets.DailySummaryKeys | summarise/optimize_dataset.py:220-227 | rows sorted by date, one per key, and every event falls in one |
| IndexedSubsets.DailySummaryMeaning | summarise/optimize_dataset.py:222-224 | event_count, unique_users the number of distinct users of the (date, type) group, and revenue = that group's purchase revenue, 0 for non-purchase types |
| IndexedSubsets.DailySummaryTotals | summarise/optimize_dataset.py:220-224 | event counts add up to the log and revenues to all revenue |
| StatisticalSummary.SegmentOf | summarise/statistical_summary.py:151-155 | first match: High iff purchases > 10, Medium iff 6..10, Low iff 1..5, Cart User iff no purchase and carts > 0, else Browser Only |
| StatisticalSummary.SegmentLabelsDistinct | summarise/statistical_summary.py:151-155 | distinct segments have distinct labels |
| StatisticalSummary.UserSegmentOfLog | summarise/statistical_summary.py:151-155 | on the user summary of a log, the segment follows the user's purchase and cart events |
| StatisticalSummary.UserSegments | summarise/statistical_summary.py:148-164 | one row per occurring segment, largest first |
| StatisticalSummary.UserSegmentsRows | summarise/statistical_summary.py:158-163 | each row counts its segment's users (>= 1), descending counts, every user's segment has a row |
| StatisticalSummary.UserSegmentsCount | summarise/statistical_summary.py:160 | segment counts add up to len(users) |
| StatisticalSummary.UserSegmentsPercent | summarise/statistical_summary.py:161 | with users, segment percentages add up to 100 |
| StatisticalSummary.EventCounts | summarise/statistical_summary.py:105-110 | one row per occurring event type, by count descending |
| StatisticalSummary.EventCountsRows | summarise/statistical_summary.py:105-110 | each row's count is its type's number of events; types distinct, descending counts; a type has a row iff it occurs |
| StatisticalSummary.EventCountsTotal | summarise/statistical_summary.py:112 | total_events is the number of events |
| StatisticalSummary.EventSharesSum | summarise/statistical_summary.py:112-117 | with events, the type percentages add up to 100 |
| StatisticalSummary.CountOf | summarise/statistical_summary.py:213-219 | the count of the first row of the type, an IndexError iff no row has it |
| StatisticalSummary.Rate | summarise/statistical_summary.py:221-223 | num / den * 100, 0 when den = 0 |
| StatisticalSummary.FunnelOfLog | summarise/statistical_summary.py:212-223 | the funnel exists iff view, cart and purchase all occur, and then holds their counts |
| StatisticalSummary.FunnelRatesChain | summarise/statistical_summary.py:221-223 | with views and carts, view_to_purchase = view_to_cart * cart_to_purchase / 100 |
| StatisticalSummary.CartAbandonmentBounds | summarise/statistical_summary.py:376 | 100 - cart_to_purchase <= 100; 100 without carts; >= 0 iff purchases <= carts |
| StatisticalSummary.BuyerRate | summarise/statistical_summary.py:364-365 | an error iff there are no users, else buyers / users * 100 in [0, 100] |
| StatisticalSummary.NoBuyers | summarise/statistical_summary.py:364-365 | the buyer rate is 0 iff no user purchased |
| DataExplorer.EventDistributionRow | app/pages/1_Data_Explorer.py:68-76 | each row: count = its type's events >= 1, percentage = count / events * 100, later rows distinct with no larger count |
| DataExplorer.EventDistributionPercentSum | app/pages/1_Data_Explorer.py:72 | on a non-empty log the percentage column adds up to 100 |
| DataExplorer.CountOrZero | app/pages/1_Data_Explorer.py:103-105 | a type's count, 0 when absent |
| DataExplorer.CountOrZeroOfLog | app/pages/1_Data_Explorer.py:103-105 | on the distribution of a log, the number of events of that type |
| DataExplorer.PageRatesOfLog | app/pages/1_Data_Explorer.py:107-112 | the rates are shown iff a view occurs, and are the log's percentages, cart to purchase 0 without carts |
| DataExplorer.PageRatesAgreeWithFunnel | app/pages/1_Data_Explorer.py:107-112 | where the report's funnel exists with views, the page shows the same three rates |
| DataExplorer.PageRatesWithoutPurchases | app/pages/1_Data_Explorer.py:103-112 | with views and no purchase, the report's funnel fails but the page shows rates into purchase of 0 |
| DataExplorer.PriceRangeOf | app/pages/1_Data_Explorer.py:231-238 | first match: each range holds exactly its half-open price interval |
| DataExplorer.SortKeyOfRange | app/pages/1_Data_Explorer.py:243-251 | the ORDER BY key of a range label is its position in price order, 1..6 |
| DataExplorer.RankSeparates | app/pages/1_Data_Explorer.py:231-251 | a range with a smaller sort key holds only cheaper prices |
| DataExplorer.BucketLabels | app/pages/1_Data_Explorer.py:241-251 | the labels of priced events, each once, in sort-key order |
| DataExplorer.PriceBucketRowMeaning | app/pages/1_Data_Explorer.py:239-242 | each row's count is the number of events with price > 0 in its range, >= 1 |
| DataExplorer.PriceBucketsInPriceOrder | app/pages/1_Data_Explorer.py:243-251 | an event counted in an earlier row is cheaper than one counted in a later row |
| DataExplorer.PriceBucketsTotal | app/pages/1_Data_Explorer.py:241 | the counts add up to the number of events with price > 0 |
| DataExplorer.LabelsByEvents | app/pages/1_Data_Explorer.py:285-286 | the labels of the log, each once, most events first |
| DataExplorer.Popularity | app/pages/1_Data_Explorer.py:278-288 | at most 15 rows, for the first 15 labels by events |
| DataExplorer.PopularityRowMeaning | app/pages/1_Data_Explorer.py:280-283 | events counts the label's events (>= 1), users is the number of its distinct users (1 <= users <= events), purchases its purchase events |
| DataExplorer.PopularityOrder | app/pages/1_Data_Explorer.py:286 | labels distinct, events descending |
| DataExplorer.PopularityKeepsTop | app/pages/1_Data_Explorer.py:286-287 | a label without a row is missing only when 15 rows are taken, and has no more events than the last row |
| DataExplorer.PopularityTotal | app/pages/1_Data_Explorer.py:281-285 | with at most 15 labels, the event column adds up to the log |
| DataExplorer.UnknownCategoryMerges | app/pages/1_Data_Explorer.py:280 | a NULL category code and the code 'unknown' give the same label |

## Left out

- I/O: reading and writing parquet, DuckDB connections and settings, logging, printing and all Streamlit rendering. Model fitting (LightGBM) and its metrics are also left out.
- AVG, STDDEV, median, percentiles, ROUND and the decimal rendering of numbers and currency are floating-point presentation. avg_session_duration, avg_events_per_session, std_session_duration and the average order value are therefore not columns of the model.
- The overview statistics and the temporal, user and session sections of the Data Explorer page, and the brand, category, time and data-quality sections of the summary report: they are further aggregates shown only on screen.
- The feature query of src/processing/features.py:32-50 is never executed (line 74 runs the guarded one), so it is not modelled.
- CURRENT_DATE is a clock read: the warehouse RFM takes it as the parameter `today`.
- Ties are left to the engine. These are the window order among equal metrics, the DISTINCT ON row among equal times, mode ties, polars `first()`, and the order of equal sort keys. The model fixes one admissible order (a stable sort, the first row in log order), and its contracts state only what every admissible choice satisfies.
- The output order of GROUP BY without ORDER BY is unspecified. The model lists groups in order of last appearance (SELECT DISTINCT keeps the last copy of a repeated key), and no contract depends on it.
- WarehouseAffinity.AppRuleAgrees: equal to the cloud figures over exact reals; the float32 rounding of CAST AS FLOAT in app/db_utils.py:193-195 against the doubles of the cloud script is not modelled, because the model has no floating point.
- InitialModeling.DimProducts: the ORDER BY product_id of dim_products (src/processing/initial_modeling.py:40) only fixes the row order of the stored table; the model keeps its rows in the unspecified group order, and states which rows exist, not their order.
- Calendar detail: DuckDB's ISO weeks and dates are abstracted to integer day and week numbers; date_diff on weeks is the difference of week numbers.
- Integer widths (BIGINT, Int32, Float32 prices) do not overflow at the sizes involved and are modelled as unbounded integers; prices are exact cents.
- The in-memory dim_users has no is_buyer column although the home page reads one; the home page is UI and is not part of this model.
- format_number's decimal rendering (one decimal place, thousands separators) is not modelled; FormatNumber states the suffix and the scale.
- DatasetChunks.CreateAnalysisReadyChunks: requires chunk_size > 0; Python's range with chunk_size <= 0 is not modelled.
- DatasetChunks.LoadForAnalysis: a sample_frac above 1 gives int(1/sample_frac) = 0, and polars' modulo by zero yields NULL, which the filter drops; the model keeps this reading and does not model an error.
- The file-system effects of the chunk writer (mkdir, sink_parquet) are modelled as the returned sequence of named chunks.
- Sessionization.TopCategory: mode() among equally frequent codes picks one of them; the model states only that no code outnumbers it.

## Findings

| source | as written | input that shows it | evidently intended | confidence | as-written member | corrected member |
|---|---|---|---|---|---|---|
| src/models/recommendations.py:50-54 | pair_count is COUNT(*) over the self-join, i.e. purchase rows of A times purchase rows of B per session, and cnt(A) counts purchase rows, so "confidence" = pair_count / cnt(A) is not a probability | one session buying product 10 once and product 20 five times, plus a second session buying product 30: pair (10, 20) has pair_count 5, cnt(10) = 1, lift 2 > 1.2, and the stored confidence is 5.0 | count distinct sessions, as the cloud script does, so that confidence = P(B given A) lies in [0, 1] | not executed | Affinity.RowPairConfidenceAboveOne | Affinity.SessionConfidenceAtMostOne |
