/** Relational building blocks shared by every query of the pipeline:
    projection, WHERE, COUNT, SUM, DISTINCT, GROUP BY keys and ORDER BY,
    over tables represented as sequences of rows. */
module Relational {

  /** No value occurs twice: the shape of a GROUP BY key column. */
  predicate NoDup<T(==)>(s: seq<T>) {
    forall i, j :: 0 <= i < j < |s| ==> s[i] != s[j]
  }

  /** SELECT f(x) FROM s, row order kept. */
  function MapSeq<T, U>(s: seq<T>, f: T -> U): (r: seq<U>)
    ensures |r| == |s|
    ensures forall i :: 0 <= i < |s| ==> r[i] == f(s[i])
  {
    seq(|s|, i requires 0 <= i < |s| => f(s[i]))
  }

  /** SELECT * FROM s WHERE p, row order kept. */
  function Filter<T(!new)>(s: seq<T>, p: T -> bool): (r: seq<T>)
    ensures |r| <= |s|
    ensures forall x :: x in r <==> x in s && p(x)
  {
    if s == [] then []
    else if p(s[0]) then [s[0]] + Filter(s[1..], p)
    else Filter(s[1..], p)
  }

  /** COUNT(*) ... WHERE p. */
  function Count<T(!new)>(s: seq<T>, p: T -> bool): nat {
    |Filter(s, p)|
  }

  /** SUM(f(x)) over the rows of s (0 for no rows). */
  function Sum<T>(s: seq<T>, f: T -> int): int {
    if s == [] then 0 else f(s[0]) + Sum(s[1..], f)
  }

  /** SUM(f(x)) over the rows of s, for real-valued columns. */
  function SumReal<T>(s: seq<T>, f: T -> real): real {
    if s == [] then 0.0 else f(s[0]) + SumReal(s[1..], f)
  }

  /** SELECT DISTINCT: every value of s exactly once. */
  function Distinct<T(==,!new)>(s: seq<T>): (r: seq<T>)
    ensures NoDup(r)
    ensures forall x :: x in r <==> x in s
    ensures |r| <= |s|
  {
    if s == [] then []
    else if s[0] in s[1..] then Distinct(s[1..])
    else [s[0]] + Distinct(s[1..])
  }

  /** The key column of GROUP BY key: each key that occurs in s, once. */
  function Keys<T, K(==,!new)>(s: seq<T>, key: T -> K): (ks: seq<K>)
    ensures NoDup(ks)
    ensures |ks| <= |s|
    ensures forall x :: x in s ==> key(x) in ks
    ensures forall k :: k in ks ==> exists x :: x in s && key(x) == k
  {
    var mapped := MapSeq(s, key);
    assert forall x :: x in s ==> key(x) in mapped by {
      forall x | x in s ensures key(x) in mapped {
        var i :| 0 <= i < |s| && s[i] == x;
        assert mapped[i] == key(x);
      }
    }
    Distinct(mapped)
  }

  /** The rows of one group of GROUP BY key. */
  function Group<T(!new), K(==)>(s: seq<T>, key: T -> K, k: K): (g: seq<T>)
    ensures forall x :: x in g <==> x in s && key(x) == k
  {
    Filter(s, x => key(x) == k)
  }

  /** Every key of GROUP BY has a non-empty group. */
  lemma KeyGroupNonEmpty<T(!new), K(!new)>(s: seq<T>, key: T -> K, k: K)
    requires exists x :: x in s && key(x) == k
    ensures Group(s, key, k) != []
  {
    var x :| x in s && key(x) == k;
    assert x in Group(s, key, k);
  }

  /** A key no row carries has an empty group. */
  lemma GroupNone<T(!new), K>(s: seq<T>, key: T -> K, k: K)
    requires forall x :: x in s ==> key(x) != k
    ensures Group(s, key, k) == []
  {
    FilterNone(s, x => key(x) == k);
  }

  /** The position of x in s, or |s| when x does not occur. */
  function IndexOf<T(==)>(s: seq<T>, x: T): (i: nat)
    ensures i <= |s|
    ensures i < |s| <==> x in s
    ensures i < |s| ==> s[i] == x && x !in s[..i]
  {
    if s == [] then 0
    else if s[0] == x then 0
    else
      assert forall y :: y in s[1..] && y != s[0] ==> y in s;
      var j := IndexOf(s[1..], x);
      assert j < |s[1..]| ==> s[..j + 1] == [s[0]] + s[1..][..j];
      j + 1
  }

  /** Strictly increasing: sorted and duplicate-free. */
  predicate Increasing(s: seq<int>) {
    forall i, j :: 0 <= i < j < |s| ==> s[i] < s[j]
  }

  /** Ascending order of a real-valued key. */
  predicate SortedBy<T>(s: seq<T>, key: T -> real) {
    forall i, j :: 0 <= i < j < |s| ==> key(s[i]) <= key(s[j])
  }

  /** Inserts x into the increasing sequence s, dropping a duplicate. */
  function InsertIncreasing(x: int, s: seq<int>): (r: seq<int>)
    requires Increasing(s)
    ensures Increasing(r)
    ensures forall y :: y in r <==> y == x || y in s
  {
    if s == [] then [x]
    else if x < s[0] then [x] + s
    else if x == s[0] then s
    else
      var t := InsertIncreasing(x, s[1..]);
      assert forall y :: y in s[1..] ==> s[0] < y by {
        forall y | y in s[1..] ensures s[0] < y {
          var k :| 0 <= k < |s[1..]| && s[1..][k] == y;
          assert s[k + 1] == y;
        }
      }
      assert forall k :: 0 <= k < |t| ==> s[0] < t[k] by {
        forall k | 0 <= k < |t| ensures s[0] < t[k] {
          assert t[k] in t;
        }
      }
      assert forall y :: y in s <==> y == s[0] || y in s[1..] by {
        assert s == [s[0]] + s[1..];
      }
      [s[0]] + t
  }

  /** SELECT DISTINCT v ... ORDER BY v for an integer column. */
  function SortedDistinct(s: seq<int>): (r: seq<int>)
    ensures Increasing(r)
    ensures forall y :: y in r <==> y in s
  {
    if s == [] then [] else InsertIncreasing(s[0], SortedDistinct(s[1..]))
  }

  /** Inserts x into s before the first row whose key is not smaller. */
  function InsertBy<T(!new)>(x: T, s: seq<T>, key: T -> real): (r: seq<T>)
    ensures multiset(r) == multiset(s) + multiset{x}
  {
    if s == [] then [x]
    else if key(x) <= key(s[0]) then [x] + s
    else
      assert s == [s[0]] + s[1..];
      [s[0]] + InsertBy(x, s[1..], key)
  }

  /** Inserting into a sorted sequence keeps it sorted; the head is x or the old head. */
  lemma {:induction false} InsertBySorted<T(!new)>(x: T, s: seq<T>, key: T -> real)
    requires SortedBy(s, key)
    ensures SortedBy(InsertBy(x, s, key), key)
    ensures InsertBy(x, s, key)[0] == x || (s != [] && InsertBy(x, s, key)[0] == s[0])
  {
    if s == [] {
    } else if key(x) <= key(s[0]) {
      ConsSorted(x, s, key);
    } else {
      var t := InsertBy(x, s[1..], key);
      InsertBySorted(x, s[1..], key);
      ConsSorted(s[0], t, key);
    }
  }

  /** Prepending a row no greater than the head keeps a sequence sorted. */
  lemma ConsSorted<T>(a: T, t: seq<T>, key: T -> real)
    requires SortedBy(t, key)
    requires t != [] ==> key(a) <= key(t[0])
    ensures SortedBy([a] + t, key)
  {
    var r := [a] + t;
    forall i, j | 0 <= i < j < |r| ensures key(r[i]) <= key(r[j]) {
      assert r[j] == t[j - 1];
      if i > 0 {
        assert r[i] == t[i - 1];
      } else {
        assert key(t[0]) <= key(t[j - 1]);
      }
    }
  }

  /** ORDER BY key (ascending) by insertion; rows with equal keys keep no promised order. */
  function SortBy<T(!new)>(s: seq<T>, key: T -> real): (r: seq<T>)
    ensures SortedBy(r, key)
    ensures multiset(r) == multiset(s)
    ensures |r| == |s|
  {
    if s == [] then []
    else
      assert s == [s[0]] + s[1..];
      var t := SortBy(s[1..], key);
      InsertBySorted(s[0], t, key);
      InsertBy(s[0], t, key)
  }

  function Min(a: int, b: int): int { if a <= b then a else b }

  /** MAX over a non-empty integer column. */
  function MaxOf(s: seq<int>): (m: int)
    requires s != []
    ensures m in s
    ensures forall x :: x in s ==> x <= m
  {
    if |s| == 1 then s[0]
    else
      var rest := MaxOf(s[1..]);
      assert s == [s[0]] + s[1..];
      if s[0] >= rest then s[0] else rest
  }

  /** MIN over a non-empty integer column. */
  function MinOf(s: seq<int>): (m: int)
    requires s != []
    ensures m in s
    ensures forall x :: x in s ==> m <= x
  {
    if |s| == 1 then s[0]
    else
      var rest := MinOf(s[1..]);
      assert s == [s[0]] + s[1..];
      if s[0] <= rest then s[0] else rest
  }

  /** The candidate of cands that occurs most often in s (the first one on a tie). */
  function MostFrequentOf<T(==)>(s: seq<T>, cands: seq<T>): (m: T)
    requires cands != []
    ensures m in cands
    ensures forall c :: c in cands ==> multiset(s)[c] <= multiset(s)[m]
  {
    if |cands| == 1 then cands[0]
    else
      var rest := MostFrequentOf(s, cands[1..]);
      assert cands == [cands[0]] + cands[1..];
      if multiset(s)[cands[0]] >= multiset(s)[rest] then cands[0] else rest
  }

  /** mode(): a most frequent value of a non-empty column. */
  function Mode<T(==)>(s: seq<T>): (m: T)
    requires s != []
    ensures m in s
    ensures forall x :: x in s ==> multiset(s)[x] <= multiset(s)[m]
  {
    MostFrequentOf(s, s)
  }

  /** Lexicographic order on strings, by code point: the order of SQL's MAX on VARCHAR. */
  predicate LexLe(a: string, b: string) {
    a == [] || (b != [] && (a[0] < b[0] || (a[0] == b[0] && LexLe(a[1..], b[1..]))))
  }

  lemma {:induction false} LexLeRefl(a: string)
    ensures LexLe(a, a)
  {
    if a != [] {
      LexLeRefl(a[1..]);
    }
  }

  lemma {:induction false} LexLeTotal(a: string, b: string)
    ensures LexLe(a, b) || LexLe(b, a)
  {
    if a != [] && b != [] && a[0] == b[0] {
      LexLeTotal(a[1..], b[1..]);
    }
  }

  lemma {:induction false} LexLeTrans(a: string, b: string, c: string)
    requires LexLe(a, b) && LexLe(b, c)
    ensures LexLe(a, c)
  {
    if a != [] && a[0] == b[0] && b[0] == c[0] {
      LexLeTrans(a[1..], b[1..], c[1..]);
    }
  }

  /** MAX over a non-empty string column. */
  function MaxString(s: seq<string>): (m: string)
    requires s != []
    ensures m in s
    ensures forall x :: x in s ==> LexLe(x, m)
  {
    if |s| == 1 then
      LexLeRefl(s[0]);
      s[0]
    else
      var rest := MaxString(s[1..]);
      assert s == [s[0]] + s[1..];
      LexLeTotal(s[0], rest);
      assert forall x :: x in s ==> x == s[0] || x in s[1..];
      if LexLe(s[0], rest) then rest
      else
        assert forall x :: x in s[1..] ==> LexLe(x, s[0]) by {
          forall x | x in s[1..] ensures LexLe(x, s[0]) {
            LexLeTrans(x, rest, s[0]);
          }
        }
        LexLeRefl(s[0]);
        s[0]
  }

  // ---------------------------------------------------------------------
  // Lemmas

  /** Inserting a fresh row keeps the rows distinct. */
  lemma {:induction false} InsertByNoDup<T(!new)>(x: T, s: seq<T>, key: T -> real)
    requires NoDup(s) && x !in s
    ensures NoDup(InsertBy(x, s, key))
  {
    if s != [] && key(s[0]) < key(x) {
      assert s == [s[0]] + s[1..];
      InsertByNoDup(x, s[1..], key);
      var t := InsertBy(x, s[1..], key);
      assert s[0] !in s[1..];
      assert s[0] !in multiset(t);
    }
  }

  /** Sorting keeps distinct rows distinct. */
  lemma {:induction false} SortByNoDup<T(!new)>(s: seq<T>, key: T -> real)
    requires NoDup(s)
    ensures NoDup(SortBy(s, key))
  {
    if s != [] {
      SortByNoDup(s[1..], key);
      var t := SortBy(s[1..], key);
      assert s[0] !in s[1..];
      assert s[0] !in multiset(t);
      InsertByNoDup(s[0], t, key);
    }
  }

  /** WHERE distributes over concatenation. */
  lemma {:induction false} FilterAppend<T(!new)>(a: seq<T>, b: seq<T>, p: T -> bool)
    ensures Filter(a + b, p) == Filter(a, p) + Filter(b, p)
  {
    if a != [] {
      var ab := a + b;
      assert ab[0] == a[0] && ab[1..] == a[1..] + b;
      FilterAppend(a[1..], b, p);
      var head := if p(a[0]) then [a[0]] else [];
      assert Filter(ab, p) == head + Filter(a[1..] + b, p);
      assert Filter(a, p) == head + Filter(a[1..], p);
      assert head + (Filter(a[1..], p) + Filter(b, p)) == (head + Filter(a[1..], p)) + Filter(b, p);
    } else {
      assert a + b == b;
    }
  }

  /** SUM distributes over concatenation. */
  lemma {:induction false} SumAppend<T(!new)>(a: seq<T>, b: seq<T>, f: T -> int)
    ensures Sum(a + b, f) == Sum(a, f) + Sum(b, f)
  {
    if a != [] {
      assert (a + b)[0] == a[0];
      assert (a + b)[1..] == a[1..] + b;
      SumAppend(a[1..], b, f);
    } else {
      assert a + b == b;
    }
  }

  /** Counting over a projection is counting the composed predicate. */
  lemma {:induction false} CountMapSeq<T(!new), U(!new)>(s: seq<T>, f: T -> U, p: U -> bool, q: T -> bool)
    requires forall x :: x in s ==> q(x) == p(f(x))
    ensures Count(MapSeq(s, f), p) == Count(s, q)
  {
    if s != [] {
      assert MapSeq(s, f)[1..] == MapSeq(s[1..], f);
      CountMapSeq(s[1..], f, p, q);
    }
  }

  /** Summing over a projection is summing the composed column. */
  lemma {:induction false} SumMapSeq<T(!new), U(!new)>(s: seq<T>, f: T -> U, g: U -> int, h: T -> int)
    requires forall x :: x in s ==> h(x) == g(f(x))
    ensures Sum(MapSeq(s, f), g) == Sum(s, h)
  {
    if s != [] {
      assert MapSeq(s, f)[1..] == MapSeq(s[1..], f);
      SumMapSeq(s[1..], f, g, h);
    }
  }

  /** Real-valued version of SumMapSeq. */
  lemma {:induction false} SumRealMapSeq<T(!new), U(!new)>(s: seq<T>, f: T -> U, g: U -> real, h: T -> real)
    requires forall x :: x in s ==> h(x) == g(f(x))
    ensures SumReal(MapSeq(s, f), g) == SumReal(s, h)
  {
    if s != [] {
      assert MapSeq(s, f)[1..] == MapSeq(s[1..], f);
      SumRealMapSeq(s[1..], f, g, h);
    }
  }

  /** Summing a constant 1 per row counts the rows. */
  lemma {:induction false} SumOnes<T(!new)>(s: seq<T>, f: T -> int)
    requires forall x :: x in s ==> f(x) == 1
    ensures Sum(s, f) == |s|
  {
    if s != [] {
      SumOnes(s[1..], f);
    }
  }

  /** Σ over the key list ks of the per-group sums of f. */
  function SumGroups<T(!new), K(==)>(s: seq<T>, key: T -> K, ks: seq<K>, f: T -> int): int {
    if ks == [] then 0 else Sum(Group(s, key, ks[0]), f) + SumGroups(s, key, ks[1..], f)
  }

  lemma {:induction false} SumGroupsEmpty<T(!new), K>(key: T -> K, ks: seq<K>, f: T -> int)
    ensures SumGroups([], key, ks, f) == 0
  {
    if ks != [] {
      SumGroupsEmpty(key, ks[1..], f);
    }
  }

  lemma {:induction false} SumGroupsCons<T(!new), K>(x: T, s: seq<T>, key: T -> K, ks: seq<K>, f: T -> int)
    requires NoDup(ks)
    ensures SumGroups([x] + s, key, ks, f) == (if key(x) in ks then f(x) else 0) + SumGroups(s, key, ks, f)
  {
    if ks != [] {
      assert ([x] + s)[1..] == s;
      assert key(x) == ks[0] ==> key(x) !in ks[1..];
      SumGroupsCons(x, s, key, ks[1..], f);
    }
  }

  /** GROUP BY partitions the rows: the group sums over all keys add up to the table sum. */
  lemma {:induction false} SumPartition<T(!new), K>(s: seq<T>, key: T -> K, ks: seq<K>, f: T -> int)
    requires NoDup(ks)
    requires forall x :: x in s ==> key(x) in ks
    ensures SumGroups(s, key, ks, f) == Sum(s, f)
  {
    if s == [] {
      SumGroupsEmpty(key, ks, f);
    } else {
      assert s == [s[0]] + s[1..];
      SumGroupsCons(s[0], s[1..], key, ks, f);
      SumPartition(s[1..], key, ks, f);
    }
  }

  /** The sum over ks of a per-key value depends only on that value. */
  lemma {:induction false} SumCongruent<T(!new)>(s: seq<T>, f: T -> int, g: T -> int)
    requires forall x :: x in s ==> f(x) == g(x)
    ensures Sum(s, f) == Sum(s, g)
  {
    if s != [] {
      SumCongruent(s[1..], f, g);
    }
  }

  /** A table of one row per key: summing a column that aggregates f per group gives the sum of f. */
  lemma GroupedSum<T(!new), K(!new), R(!new)>(s: seq<T>, key: T -> K, ks: seq<K>, mk: K -> R, col: R -> int, f: T -> int)
    requires NoDup(ks)
    requires forall x :: x in s ==> key(x) in ks
    requires forall k :: k in ks ==> col(mk(k)) == Sum(Group(s, key, k), f)
    ensures Sum(MapSeq(ks, mk), col) == Sum(s, f)
  {
    var h := k => Sum(Group(s, key, k), f);
    SumMapSeq(ks, mk, col, h);
    SumGroupsAsSum(s, key, ks, f);
    SumPartition(s, key, ks, f);
  }

  lemma {:induction false} SumGroupsAsSum<T(!new), K>(s: seq<T>, key: T -> K, ks: seq<K>, f: T -> int)
    ensures SumGroups(s, key, ks, f) == Sum(ks, k => Sum(Group(s, key, k), f))
  {
    if ks != [] {
      SumGroupsAsSum(s, key, ks[1..], f);
    }
  }

  /** SUM over rows is linear in a real column divided by a common positive total. */
  lemma {:induction false} SumRealScale<T(!new)>(s: seq<T>, f: T -> int, g: T -> real, c: real)
    requires forall x :: x in s ==> g(x) == f(x) as real * c
    ensures SumReal(s, g) == Sum(s, f) as real * c
  {
    if s != [] {
      SumRealScale(s[1..], f, g, c);
    }
  }

  /** A non-zero sum has a row with a non-zero summand. */
  lemma {:induction false} SumNonZero<T(!new)>(s: seq<T>, f: T -> int)
    requires Sum(s, f) != 0
    ensures exists x :: x in s && f(x) != 0
  {
    if f(s[0]) == 0 {
      SumNonZero(s[1..], f);
    }
  }

  /** Every summand is non-negative, so is the sum. */
  lemma {:induction false} SumNonNegative<T(!new)>(s: seq<T>, f: T -> int)
    requires forall x :: x in s ==> f(x) >= 0
    ensures Sum(s, f) >= 0
  {
    if s != [] {
      SumNonNegative(s[1..], f);
    }
  }

  /** Summing c for the rows satisfying p (0 elsewhere) is c times their count. */
  lemma {:induction false} SumIndicator<T(!new)>(s: seq<T>, p: T -> bool, c: int, f: T -> int)
    requires forall x :: x in s ==> f(x) == (if p(x) then c else 0)
    ensures Sum(s, f) == Count(s, p) * c
  {
    if s != [] {
      SumIndicator(s[1..], p, c, f);
      assert s[0] in s;
      var k := Count(s[1..], p);
      if p(s[0]) {
        assert Filter(s, p) == [s[0]] + Filter(s[1..], p);
        assert Sum(s, f) == c + k * c;
        assert Count(s, p) == 1 + k;
        MulSucc(k, c);
      } else {
        assert Filter(s, p) == Filter(s[1..], p);
      }
    }
  }

  lemma MulSucc(k: int, c: int)
    ensures (1 + k) * c == c + k * c
  {
  }

  /** WHERE with a predicate that implies another keeps no more rows. */
  lemma {:induction false} CountMono<T(!new)>(s: seq<T>, p: T -> bool, q: T -> bool)
    requires forall x :: x in s && p(x) ==> q(x)
    ensures Count(s, p) <= Count(s, q)
  {
    if s != [] {
      CountMono(s[1..], p, q);
    }
  }

  /** Two predicates that agree on every row count the same rows. */
  lemma {:induction false} CountCongruent<T(!new)>(s: seq<T>, p: T -> bool, q: T -> bool)
    requires forall x :: x in s ==> p(x) == q(x)
    ensures Count(s, p) == Count(s, q)
  {
    if s != [] {
      CountCongruent(s[1..], p, q);
    }
  }

  /** WHERE with a predicate no row satisfies keeps nothing. */
  lemma {:induction false} FilterNone<T(!new)>(s: seq<T>, p: T -> bool)
    requires forall x :: x in s ==> !p(x)
    ensures Filter(s, p) == []
  {
    if s != [] {
      FilterNone(s[1..], p);
    }
  }

  /** Counting the rows of one value in a duplicate-free column. */
  lemma {:induction false} CountNoDupKey<T(!new), K>(s: seq<T>, key: T -> K, k: K)
    requires NoDup(MapSeq(s, key))
    ensures Count(s, x => key(x) == k) <= 1
  {
    if s != [] {
      assert MapSeq(s[1..], key) == MapSeq(s, key)[1..];
      CountNoDupKey(s[1..], key, k);
      if key(s[0]) == k {
        forall x | x in s[1..] ensures key(x) != k {
          var i :| 0 <= i < |s[1..]| && s[1..][i] == x;
          assert MapSeq(s, key)[i + 1] == key(x);
          assert MapSeq(s, key)[0] == k;
        }
        FilterNone(s[1..], x => key(x) == k);
      }
    }
  }

  lemma NoDupTail<T>(s: seq<T>)
    requires NoDup(s) && s != []
    ensures NoDup(s[1..]) && s[0] !in s[1..]
  {
    var t := s[1..];
    forall i, j | 0 <= i < j < |t| ensures t[i] != t[j] {
      assert t[i] == s[i + 1] && t[j] == s[j + 1];
    }
    forall i | 0 <= i < |t| ensures t[i] != s[0] {
      assert t[i] == s[i + 1];
    }
  }

  lemma SetStep<T>(a: T, t: seq<T>, p: T -> bool)
    requires a !in t
    ensures p(a) ==> |set x | x in [a] + t && p(x)| == |set x | x in t && p(x)| + 1
    ensures !p(a) ==> |set x | x in [a] + t && p(x)| == |set x | x in t && p(x)|
  {
    var whole := set x | x in [a] + t && p(x);
    var rest := set x | x in t && p(x);
    if p(a) {
      assert whole == rest + {a};
    } else {
      assert whole == rest;
    }
  }

  /** Over a duplicate-free table, COUNT with WHERE p is the size of the set of rows p selects. */
  lemma {:induction false} CountAsSet<T(!new)>(s: seq<T>, p: T -> bool)
    requires NoDup(s)
    ensures Count(s, p) == |set x | x in s && p(x)|
  {
    if s == [] {
      assert (set x | x in s && p(x)) == {};
    } else {
      NoDupTail(s);
      CountAsSet(s[1..], p);
      SetStep(s[0], s[1..], p);
      assert [s[0]] + s[1..] == s;
    }
  }

  /** Two duplicate-free orderings of the same rows count the same rows. */
  lemma CountSameRows<T(!new)>(s: seq<T>, t: seq<T>, p: T -> bool)
    requires NoDup(s) && NoDup(t)
    requires forall x :: x in s <==> x in t
    ensures Count(s, p) == Count(t, p)
  {
    CountAsSet(s, p);
    CountAsSet(t, p);
    assert (set x | x in s && p(x)) == (set x | x in t && p(x));
  }

  /** Rows that contribute 0 can be dropped from a SUM. */
  lemma {:induction false} SumFilterZero<T(!new)>(s: seq<T>, p: T -> bool, f: T -> int)
    requires forall x :: x in s && !p(x) ==> f(x) == 0
    ensures Sum(Filter(s, p), f) == Sum(s, f)
  {
    if s != [] {
      SumFilterZero(s[1..], p, f);
    }
  }

  /** WHERE keeps a duplicate-free table duplicate-free. */
  lemma {:induction false} FilterNoDup<T(!new)>(s: seq<T>, p: T -> bool)
    requires NoDup(s)
    ensures NoDup(Filter(s, p))
  {
    if s != [] {
      NoDupTail(s);
      FilterNoDup(s[1..], p);
      var r := Filter(s[1..], p);
      if p(s[0]) {
        assert s[0] !in r;
        forall i, j | 0 <= i < j < |[s[0]] + r| ensures ([s[0]] + r)[i] != ([s[0]] + r)[j] {
          if i == 0 {
            assert ([s[0]] + r)[j] == r[j - 1];
            assert r[j - 1] in r;
          } else {
            assert ([s[0]] + r)[i] == r[i - 1] && ([s[0]] + r)[j] == r[j - 1];
          }
        }
      }
    }
  }

  /** Concatenating two duplicate-free tables with no row in common. */
  lemma NoDupAppend<T>(a: seq<T>, b: seq<T>)
    requires NoDup(a) && NoDup(b)
    requires forall x :: x in a ==> x !in b
    ensures NoDup(a + b)
  {
    forall i, j | 0 <= i < j < |a + b| ensures (a + b)[i] != (a + b)[j] {
      if j < |a| {
        assert (a + b)[i] == a[i] && (a + b)[j] == a[j];
      } else if i < |a| {
        assert (a + b)[i] == a[i] && a[i] in a;
        assert (a + b)[j] == b[j - |a|] && b[j - |a|] in b;
      } else {
        assert (a + b)[i] == b[i - |a|] && (a + b)[j] == b[j - |a|];
      }
    }
  }

  /** COUNT over a WHERE-filtered table is COUNT with both conditions. */
  lemma {:induction false} CountFilterBy<T(!new)>(s: seq<T>, p: T -> bool, q: T -> bool, r: T -> bool)
    requires forall x :: x in s ==> r(x) == (p(x) && q(x))
    ensures Count(Filter(s, p), q) == Count(s, r)
  {
    if s != [] {
      CountFilterBy(s[1..], p, q, r);
    }
  }

  /** COUNT over one group is COUNT with the key condition added. */
  lemma {:induction false} CountGroupBy<T(!new), K>(s: seq<T>, key: T -> K, k: K, q: T -> bool, r: T -> bool)
    requires forall x :: x in s ==> r(x) == (key(x) == k && q(x))
    ensures Count(Group(s, key, k), q) == Count(s, r)
  {
    if s != [] {
      CountGroupBy(s[1..], key, k, q, r);
    }
  }

  /** The size of a group is the COUNT of the rows carrying its key. */
  lemma {:induction false} GroupSize<T(!new), K>(s: seq<T>, key: T -> K, k: K, p: T -> bool)
    requires forall x :: x in s ==> p(x) == (key(x) == k)
    ensures |Group(s, key, k)| == Count(s, p)
  {
    if s != [] {
      GroupSize(s[1..], key, k, p);
    }
  }

  /** A count out of a positive count that is no smaller lies in [0, 1]. */
  lemma FractionBounds(a: int, b: int)
    requires 0 <= a <= b && b > 0
    ensures 0.0 <= a as real / b as real <= 1.0
  {
  }

  /** Sequences with the same multiset have the same members. */
  lemma MultisetMembers<T>(a: seq<T>, b: seq<T>)
    requires multiset(a) == multiset(b)
    ensures forall x :: x in a <==> x in b
  {
    forall x ensures x in a <==> x in b {
      assert x in a <==> x in multiset(a);
      assert x in b <==> x in multiset(b);
    }
  }

  /** A row of s that passes the WHERE clause shows up, projected, in the result. */
  lemma MapFilterMember<T(!new), U>(s: seq<T>, p: T -> bool, f: T -> U, x: T)
    requires x in s && p(x)
    ensures f(x) in MapSeq(Filter(s, p), f)
  {
    var kept := Filter(s, p);
    assert x in kept;
    var i :| 0 <= i < |kept| && kept[i] == x;
    assert MapSeq(kept, f)[i] == f(x);
  }

  /** A projected row shows up in the projection. */
  lemma MapMember<T, U>(s: seq<T>, f: T -> U, x: T)
    requires x in s
    ensures f(x) in MapSeq(s, f)
  {
    var i :| 0 <= i < |s| && s[i] == x;
    assert MapSeq(s, f)[i] == f(x);
  }

  /** The rows of a projection are exactly the projected rows. */
  lemma MapMembers<T, U>(s: seq<T>, f: T -> U)
    ensures forall y :: y in MapSeq(s, f) <==> exists x :: x in s && y == f(x)
  {
    forall y ensures y in MapSeq(s, f) <==> exists x :: x in s && y == f(x) {
      if y in MapSeq(s, f) {
        var i :| 0 <= i < |s| && MapSeq(s, f)[i] == y;
        assert s[i] in s;
      }
      if exists x :: x in s && y == f(x) {
        var x :| x in s && y == f(x);
        MapMember(s, f, x);
      }
    }
  }

  /** A table whose key column is a duplicate-free key list ks: its keys are
      distinct, every key of ks has its row, and every row's key is in ks. */
  lemma RowsOfKeys<R, K(!new)>(r: seq<R>, rk: R -> K, ks: seq<K>)
    requires MapSeq(r, rk) == ks && NoDup(ks)
    ensures forall i, j :: 0 <= i < j < |r| ==> rk(r[i]) != rk(r[j])
    ensures forall k :: k in ks ==> exists row :: row in r && rk(row) == k
    ensures forall row :: row in r ==> rk(row) in ks
  {
    forall i, j | 0 <= i < j < |r| ensures rk(r[i]) != rk(r[j]) {
      assert rk(r[i]) == ks[i] && rk(r[j]) == ks[j];
    }
    MapMembers(r, rk);
    forall row | row in r ensures rk(row) in ks {
      MapMember(r, rk, row);
    }
  }

  /** A table built one row per key of s: its keys are distinct, every row
      of s has its key's row, and every row has a row of s behind it. */
  lemma KeyedRows<T, K(!new), R>(s: seq<T>, key: T -> K, r: seq<R>, rk: R -> K)
    requires MapSeq(r, rk) == Keys(s, key)
    ensures forall i, j :: 0 <= i < j < |r| ==> rk(r[i]) != rk(r[j])
    ensures forall x :: x in s ==> exists row :: row in r && rk(row) == key(x)
    ensures forall row :: row in r ==> exists x :: x in s && key(x) == rk(row)
  {
    var ks := Keys(s, key);
    RowsOfKeys(r, rk, ks);
    forall x | x in s ensures exists row :: row in r && rk(row) == key(x) {
      assert key(x) in ks;
    }
  }

  /** Two duplicate-free columns with the same values have the same length. */
  lemma SameMembersSameLength<T(!new)>(a: seq<T>, b: seq<T>)
    requires NoDup(a) && NoDup(b)
    requires forall x :: x in a <==> x in b
    ensures |a| == |b|
  {
    var all := (x: T) => true;
    CountSameRows(a, b, all);
    FilterAll(a, all);
    FilterAll(b, all);
  }

  lemma {:induction false} FilterAll<T(!new)>(s: seq<T>, p: T -> bool)
    requires forall x :: p(x)
    ensures Filter(s, p) == s
  {
    if s != [] {
      FilterAll(s[1..], p);
    }
  }

  /** Counting a table built row by row from another, through a predicate on
      the other. */
  lemma {:induction false} CountAlong<A(!new), B(!new)>(a: seq<A>, b: seq<B>, p: A -> bool, q: B -> bool)
    requires |a| == |b|
    requires forall i :: 0 <= i < |a| ==> p(a[i]) == q(b[i])
    ensures Count(a, p) == Count(b, q)
  {
    if a != [] {
      CountAlong(a[1..], b[1..], p, q);
    }
  }
}
