/** NTILE(n) OVER (ORDER BY key): the window function every RFM score uses.
    Rows are numbered 0 .. N-1 in key order and cut into contiguous buckets;
    with m buckets, q = N / m and r = N % m, the first r buckets hold q + 1
    rows and the others q. DuckDB uses m = n buckets, or N buckets of one
    row when n exceeds N. */
module Ntile {
  import opened Relational

  // ---------------------------------------------------------------------
  // Integer division facts

  lemma DivMod(i: int, d: int)
    requires d > 0
    ensures i == d * (i / d) + i % d && 0 <= i % d < d
  {
  }

  /** Multiplying by a non-negative factor keeps order. */
  lemma MulMono(d: int, x: int, y: int)
    requires d >= 0
    ensures x <= y ==> d * x <= d * y
  {
    if x <= y {
      assert d * y - d * x == d * (y - x);
    }
  }

  /** i < k * d gives i / d < k. */
  lemma DivBelow(i: nat, d: nat, k: nat)
    requires d >= 1 && i < k * d
    ensures i / d < k
  {
    DivMod(i, d);
    MulMono(d, k, i / d);
  }

  /** The quotient is the unique k with d * k <= x < d * k + d. */
  lemma DivUnique(x: int, d: int, k: int)
    requires d > 0 && d * k <= x < d * k + d
    ensures x / d == k
  {
    DivMod(x, d);
    MulMono(d, k + 1, x / d);
    MulMono(d, x / d + 1, k);
  }

  // ---------------------------------------------------------------------
  // The bucket formula, for m buckets of size q with r of them one larger

  /** The bucket (1-based) of row i. */
  function Formula(q: nat, r: nat, i: nat): nat
    requires q >= 1
  {
    if i < r * (q + 1) then i / (q + 1) + 1 else (i - r * (q + 1)) / q + r + 1
  }

  /** The first row of bucket b. */
  function StartF(q: nat, r: nat, b: nat): nat
    requires b >= 1
  {
    (b - 1) * q + (if b - 1 < r then b - 1 else r)
  }

  lemma FormulaBounds(m: nat, q: nat, r: nat, i: nat)
    requires q >= 1 && r < m && i < m * q + r
    ensures 1 <= Formula(q, r, i) <= m
  {
    if i < r * (q + 1) {
      DivBelow(i, q + 1, r);
    } else {
      var j := i - r * (q + 1);
      assert j < (m - r) * q by {
        assert (m - r) * q == m * q - r * q;
        assert r * (q + 1) == r * q + r;
      }
      DivBelow(j, q, m - r);
    }
  }

  lemma RangeLow(q: nat, r: nat, i: nat, k: nat)
    requires q >= 1 && k < r && (q + 1) * k <= i < (q + 1) * k + (q + 1)
    ensures StartF(q, r, k + 1) <= i < StartF(q, r, k + 2)
  {
    assert StartF(q, r, k + 1) == k * q + k == (q + 1) * k;
    assert StartF(q, r, k + 2) == (k + 1) * q + (k + 1) == (q + 1) * k + (q + 1);
  }

  lemma RangeHigh(q: nat, r: nat, i: nat, k: nat)
    requires q >= 1 && r * (q + 1) + q * k <= i < r * (q + 1) + q * k + q
    ensures StartF(q, r, k + r + 1) <= i < StartF(q, r, k + r + 2)
  {
    assert StartF(q, r, k + r + 1) == (k + r) * q + r == r * (q + 1) + q * k;
    assert StartF(q, r, k + r + 2) == (k + r + 1) * q + r == r * (q + 1) + q * k + q;
  }

  lemma FormulaRange(q: nat, r: nat, i: nat)
    requires q >= 1
    ensures StartF(q, r, Formula(q, r, i)) <= i < StartF(q, r, Formula(q, r, i) + 1)
  {
    if i < r * (q + 1) {
      DivMod(i, q + 1);
      DivBelow(i, q + 1, r);
      RangeLow(q, r, i, i / (q + 1));
    } else {
      var j := i - r * (q + 1);
      DivMod(j, q);
      RangeHigh(q, r, i, j / q);
    }
  }

  lemma StartFStep(q: nat, r: nat, b: nat)
    requires b >= 1
    ensures StartF(q, r, b + 1) == StartF(q, r, b) + q + (if b <= r then 1 else 0)
  {
    assert b * q == (b - 1) * q + q;
  }

  lemma {:induction false} StartFMonotone(q: nat, r: nat, b: nat, c: nat)
    requires 1 <= b <= c
    ensures StartF(q, r, b) + (c - b) * q <= StartF(q, r, c)
  {
    if b < c {
      StartFMonotone(q, r, b, c - 1);
      StartFStep(q, r, c - 1);
      assert (c - b) * q == (c - 1 - b) * q + q;
    }
  }

  // ---------------------------------------------------------------------
  // NTILE(n) over N rows

  /** The number of buckets actually used. */
  function Buckets(n: nat, total: nat): (m: nat)
    requires n >= 1
    ensures m <= n && m <= total
    ensures total > 0 ==> m >= 1
  {
    if n > total then total else n
  }

  /** The common bucket size q. */
  function Small(n: nat, total: nat): (q: nat)
    requires n >= 1 && total > 0
    ensures q >= 1
  {
    var m := Buckets(n, total);
    DivMod(total, m);
    MulMono(m, 1, total / m);
    total / m
  }

  /** The number r of buckets holding one extra row. */
  function Large(n: nat, total: nat): (r: nat)
    requires n >= 1 && total > 0
    ensures r < Buckets(n, total)
  {
    DivMod(total, Buckets(n, total));
    total % Buckets(n, total)
  }

  /** The m buckets hold q rows each, plus the r extra rows. */
  lemma Split(n: nat, total: nat)
    requires n >= 1 && total > 0
    ensures total == Buckets(n, total) * Small(n, total) + Large(n, total)
  {
    DivMod(total, Buckets(n, total));
  }

  /** The bucket (1-based) DuckDB gives row i of N. */
  function Ntile(n: nat, total: nat, i: nat): (b: nat)
    requires n >= 1 && i < total
    ensures 1 <= b <= Buckets(n, total)
  {
    Split(n, total);
    FormulaBounds(Buckets(n, total), Small(n, total), Large(n, total), i);
    Formula(Small(n, total), Large(n, total), i)
  }

  /** The first row of bucket b; Start(m + 1) is N. */
  function Start(n: nat, total: nat, b: nat): nat
    requires n >= 1 && total > 0 && b >= 1
  {
    StartF(Small(n, total), Large(n, total), b)
  }

  /** The number of rows of bucket b in a table of N rows. */
  function Size(n: nat, total: nat, b: nat): nat
    requires n >= 1
  {
    if total == 0 || b < 1 || b > Buckets(n, total) then 0
    else Small(n, total) + (if b <= Large(n, total) then 1 else 0)
  }

  lemma StartEnds(n: nat, total: nat)
    requires n >= 1 && total > 0
    ensures Start(n, total, 1) == 0
    ensures Start(n, total, Buckets(n, total) + 1) == total
  {
  }

  lemma StartStep(n: nat, total: nat, b: nat)
    requires n >= 1 && total > 0 && 1 <= b <= Buckets(n, total)
    ensures Start(n, total, b + 1) == Start(n, total, b) + Size(n, total, b)
  {
    StartFStep(Small(n, total), Large(n, total), b);
  }

  lemma StartMonotone(n: nat, total: nat, b: nat, c: nat)
    requires n >= 1 && total > 0 && 1 <= b <= c
    ensures Start(n, total, b) <= Start(n, total, c)
  {
    StartFMonotone(Small(n, total), Large(n, total), b, c);
  }

  /** Row i lies between the start of its bucket and the start of the next. */
  lemma NtileRange(n: nat, total: nat, i: nat)
    requires n >= 1 && i < total
    ensures Start(n, total, Ntile(n, total, i)) <= i < Start(n, total, Ntile(n, total, i) + 1)
  {
    FormulaRange(Small(n, total), Large(n, total), i);
  }

  /** Row i is in bucket b exactly when it lies in b's range of rows. */
  lemma NtileIff(n: nat, total: nat, i: nat, b: nat)
    requires n >= 1 && i < total && b >= 1
    ensures Ntile(n, total, i) == b <==> Start(n, total, b) <= i < Start(n, total, b + 1)
  {
    var c := Ntile(n, total, i);
    NtileRange(n, total, i);
    if c < b {
      StartMonotone(n, total, c + 1, b);
    } else if c > b {
      StartMonotone(n, total, b + 1, c);
    }
  }

  /** Later rows never get an earlier bucket. */
  lemma NtileMonotone(n: nat, total: nat, i: nat, j: nat)
    requires n >= 1 && i <= j < total
    ensures Ntile(n, total, i) <= Ntile(n, total, j)
  {
    var b := Ntile(n, total, i);
    var c := Ntile(n, total, j);
    NtileRange(n, total, i);
    NtileRange(n, total, j);
    if c < b {
      StartMonotone(n, total, c + 1, b);
    }
  }

  /** NTILE balance: every one of the n buckets holds floor(N/n) or ceil(N/n) rows ... */
  lemma SizeBalanced(n: nat, total: nat, b: nat)
    requires n >= 1 && 1 <= b <= n
    ensures total / n <= Size(n, total, b) <= (total + n - 1) / n
  {
    if total == 0 {
      DivUnique(n - 1, n, 0);
    } else if n > total {
      SizeBalancedFew(n, total, b);
    } else {
      SizeBalancedMany(n, total, b);
    }
  }

  lemma SizeBalancedFew(n: nat, total: nat, b: nat)
    requires 1 <= total < n && 1 <= b <= n
    ensures total / n <= Size(n, total, b) <= (total + n - 1) / n
  {
    DivUnique(total, n, 0);
    DivUnique(total + n - 1, n, 1);
    DivUnique(total, total, 1);
    assert Small(n, total) == 1;
  }

  lemma SizeBalancedMany(n: nat, total: nat, b: nat)
    requires 1 <= n <= total && 1 <= b <= n
    ensures total / n <= Size(n, total, b) <= (total + n - 1) / n
  {
    var q, r := total / n, total % n;
    DivMod(total, n);
    assert Small(n, total) == q && Large(n, total) == r;
    if r == 0 {
      DivUnique(total + n - 1, n, q);
    } else {
      DivUnique(total + n - 1, n, q + 1);
    }
  }

  /** ... and the extra rows go to the lower-numbered buckets. */
  lemma SizeDecreasing(n: nat, total: nat, b: nat, c: nat)
    requires n >= 1 && 1 <= b <= c
    ensures Size(n, total, b) >= Size(n, total, c)
  {
  }

  /** Number of rows among 0 .. k-1 that fall in bucket b. */
  function CountBucket(n: nat, total: nat, b: nat, k: nat): nat
    requires n >= 1 && k <= total
  {
    if k == 0 then 0
    else CountBucket(n, total, b, k - 1) + (if Ntile(n, total, k - 1) == b then 1 else 0)
  }

  lemma {:induction false} CountBucketPrefix(n: nat, total: nat, b: nat, k: nat)
    requires n >= 1 && k <= total && 1 <= b <= Buckets(n, total)
    ensures CountBucket(n, total, b, k) ==
      if k <= Start(n, total, b) then 0
      else if k >= Start(n, total, b + 1) then Size(n, total, b)
      else k - Start(n, total, b)
  {
    StartStep(n, total, b);
    if k > 0 {
      CountBucketPrefix(n, total, b, k - 1);
      NtileIff(n, total, k - 1, b);
    }
  }

  /** Exactly Size(b) of the N rows fall in bucket b. */
  lemma CountBucketTotal(n: nat, total: nat, b: nat)
    requires n >= 1
    ensures CountBucket(n, total, b, total) == Size(n, total, b)
  {
    if total > 0 && 1 <= b <= Buckets(n, total) {
      CountBucketPrefix(n, total, b, total);
      StartEnds(n, total);
      StartStep(n, total, b);
      StartMonotone(n, total, b + 1, Buckets(n, total) + 1);
      assert Size(n, total, b) >= 1;
      assert Start(n, total, b) < Start(n, total, b + 1) <= total;
    } else {
      CountBucketOutside(n, total, b, total);
    }
  }

  lemma {:induction false} CountBucketOutside(n: nat, total: nat, b: nat, k: nat)
    requires n >= 1 && k <= total
    requires total == 0 || b < 1 || b > Buckets(n, total)
    ensures CountBucket(n, total, b, k) == 0
  {
    if k > 0 {
      CountBucketOutside(n, total, b, k - 1);
    }
  }

  // ---------------------------------------------------------------------
  // NTILE over a table sorted by a key

  /** The bucket of row x in the sorted table. */
  function TileOf<T(==)>(n: nat, sorted: seq<T>, x: T): (b: nat)
    requires n >= 1 && x in sorted
    ensures 1 <= b <= n
  {
    Ntile(n, |sorted|, IndexOf(sorted, x))
  }

  /** A row with a strictly smaller key never gets a higher bucket. */
  lemma TileMonotone<T>(n: nat, sorted: seq<T>, key: T -> real, x: T, y: T)
    requires n >= 1 && SortedBy(sorted, key) && x in sorted && y in sorted
    requires key(x) < key(y)
    ensures TileOf(n, sorted, x) <= TileOf(n, sorted, y)
  {
    var i, j := IndexOf(sorted, x), IndexOf(sorted, y);
    NtileMonotone(n, |sorted|, i, j);
  }

  lemma IndexOfNoDup<T>(s: seq<T>, i: nat)
    requires NoDup(s) && i < |s|
    ensures IndexOf(s, s[i]) == i
  {
  }

  lemma {:induction false} CountTilePrefix<T(!new)>(n: nat, sorted: seq<T>, b: nat, k: nat, p: T -> bool)
    requires n >= 1 && NoDup(sorted) && k <= |sorted|
    requires forall x :: x in sorted ==> p(x) == (TileOf(n, sorted, x) == b)
    ensures Count(sorted[..k], p) == CountBucket(n, |sorted|, b, k)
  {
    if k > 0 {
      CountTilePrefix(n, sorted, b, k - 1, p);
      assert sorted[..k] == sorted[..k - 1] + [sorted[k - 1]];
      FilterAppend(sorted[..k - 1], [sorted[k - 1]], p);
      IndexOfNoDup(sorted, k - 1);
    }
  }

  /** NTILE balance over a duplicate-free sorted table: the rows p selects,
      those of bucket b, number Size(b). */
  lemma TileBalance<T(!new)>(n: nat, sorted: seq<T>, b: nat, p: T -> bool)
    requires n >= 1 && NoDup(sorted)
    requires forall x :: x in sorted ==> p(x) == (TileOf(n, sorted, x) == b)
    ensures Count(sorted, p) == Size(n, |sorted|, b)
  {
    CountTilePrefix(n, sorted, b, |sorted|, p);
    assert sorted[..|sorted|] == sorted;
    CountBucketTotal(n, |sorted|, b);
  }
}
