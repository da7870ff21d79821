/** Splitting the optimised dataset into chunk files and sampling it for
    analysis (summarise/optimize_dataset.py: create_analysis_ready_chunks
    and load_for_analysis). A written chunk file is modelled as its name and
    its rows; the parquet writing itself is not modelled. */
module DatasetChunks {
  import opened Wrappers
  import opened Relational
  import opened Events

  // ---------------------------------------------------------------------
  // Chunk arithmetic

  /** n_chunks = (total_rows + chunk_size - 1) // chunk_size. */
  function NChunks(total: nat, size: nat): nat
    requires size > 0
  {
    (total + size - 1) / size
  }

  /** n_chunks is the ceiling of total_rows / chunk_size: enough chunks to
      hold every row, and no chunk more than needed. */
  lemma NChunksCeiling(total: nat, size: nat)
    requires size > 0
    ensures NChunks(total, size) * size >= total
    ensures total > 0 ==> (NChunks(total, size) - 1) * size < total
    ensures total == 0 ==> NChunks(total, size) == 0
  {
    var n := NChunks(total, size);
    var r := (total + size - 1) % size;
    assert total + size - 1 == n * size + r;
    assert n * size == total + (size - 1 - r);
    assert (n - 1) * size == n * size - size;
  }

  lemma MulMonotone(a: nat, b: nat, size: nat)
    requires a <= b
    ensures a * size <= b * size
  {
  }


  /** The first row of chunk j: j * chunk_size. */
  function Offset(j: nat, size: nat): nat { j * size }

  /** LazyFrame.slice(offset, length): the rows from offset on, at most
      length of them; an offset past the end gives no rows. */
  function Slice<T>(rows: seq<T>, offset: nat, len: nat): (s: seq<T>)
    ensures |s| == Min(len, |rows| - Min(offset, |rows|))
  {
    var lo := Min(offset, |rows|);
    var hi := Min(offset + len, |rows|);
    rows[lo..hi]
  }

  // ---------------------------------------------------------------------
  // Chunk file names

  function DigitChar(d: nat): char
    requires d <= 9
  {
    ('0' as int + d) as char
  }

  /** The decimal digits of n, most significant first, with no leading zero. */
  function Digits(n: nat): (s: string)
    ensures 1 <= |s|
    ensures forall k :: 0 <= k < |s| ==> '0' <= s[k] <= '9'
    ensures n >= 10 ==> |s| >= 2
    ensures n >= 100 ==> |s| >= 3
    ensures n < 100 ==> |s| <= 2
    ensures n < 1000 ==> |s| <= 3
  {
    if n < 10 then [DigitChar(n)] else Digits(n / 10) + [DigitChar(n % 10)]
  }

  /** The number a string of decimal digits denotes (leading zeros allowed). */
  function Value(s: string): int {
    if s == [] then 0 else Value(s[..|s| - 1]) * 10 + (s[|s| - 1] as int - '0' as int)
  }

  /** Reading the digits of n gives n back. */
  lemma {:induction false} DigitsValue(n: nat)
    ensures Value(Digits(n)) == n
  {
    if n >= 10 {
      DigitsValue(n / 10);
      var s := Digits(n / 10) + [DigitChar(n % 10)];
      assert s[..|s| - 1] == Digits(n / 10);
    }
  }

  function Zeros(k: nat): (z: string)
    ensures |z| == k
  {
    seq(k, _ => '0')
  }

  /** Leading zeros do not change the number a string denotes. */
  lemma {:induction false} ZerosValue(k: nat, s: string)
    ensures Value(Zeros(k) + s) == Value(s)
    decreases |s|, k
  {
    if s == [] {
      if k > 0 {
        assert Zeros(k) + s == Zeros(k);
        assert Zeros(k)[..k - 1] == Zeros(k - 1);
        ZerosValue(k - 1, []);
        assert Zeros(k - 1) + [] == Zeros(k - 1);
      }
    } else {
      var t := Zeros(k) + s;
      assert t[..|t| - 1] == Zeros(k) + s[..|s| - 1];
      ZerosValue(k, s[..|s| - 1]);
    }
  }

  /** f"{i:03d}": the digits of i, zero-padded on the left to width 3. */
  function Pad3(i: nat): (s: string)
    ensures i < 1000 ==> |s| == 3
    ensures Value(s) == i
  {
    var d := Digits(i);
    DigitsValue(i);
    if |d| >= 3 then d
    else
      ZerosValue(3 - |d|, d);
      Zeros(3 - |d|) + d
  }

  /** The name of chunk file i. */
  function ChunkName(i: nat): string {
    "chunk_" + Pad3(i) + ".parquet"
  }

  /** Different chunks get different file names, so none overwrites another. */
  lemma ChunkNamesDistinct(i: nat, j: nat)
    requires i != j
    ensures ChunkName(i) != ChunkName(j)
  {
    var a := ChunkName(i);
    var b := ChunkName(j);
    assert a[6..|a| - 8] == Pad3(i);
    assert b[6..|b| - 8] == Pad3(j);
    assert Value(Pad3(i)) != Value(Pad3(j));
  }

  // ---------------------------------------------------------------------
  // create_analysis_ready_chunks

  /** One written chunk file. */
  datatype Chunk<T> = Chunk(name: string, rows: seq<T>)

  /** The rows of the chunk files, read back in chunk order. */
  function Concat<T>(cs: seq<Chunk<T>>): seq<T> {
    if cs == [] then [] else Concat(cs[..|cs| - 1]) + cs[|cs| - 1].rows
  }

  /** The covered prefix grows by one chunk's slice. */
  lemma CoverStep<T>(rows: seq<T>, i: nat, size: nat)
    requires size > 0 && i * size < |rows|
    ensures rows[..Min(i * size, |rows|)] + Slice(rows, Offset(i, size), size) == rows[..Min((i + 1) * size, |rows|)]
  {
    assert (i + 1) * size == i * size + size;
  }

  lemma AppendChunk<T>(cs: seq<Chunk<T>>, c: Chunk<T>)
    ensures Concat(cs + [c]) == Concat(cs) + c.rows
    ensures forall j :: 0 <= j < |cs| ==> (cs + [c])[j] == cs[j]
  {
    assert (cs + [c])[..|cs|] == cs;
  }

  /** The first k chunk files: chunk j holds rows j * size onwards, size of them. */
  function ChunksOf<T>(rows: seq<T>, size: nat, k: nat): (cs: seq<Chunk<T>>)
    ensures |cs| == k
  {
    if k == 0 then [] else ChunksOf(rows, size, k - 1) + [Chunk(ChunkName(k - 1), Slice(rows, Offset(k - 1, size), size))]
  }

  lemma {:induction false} ChunksOfIndex<T>(rows: seq<T>, size: nat, k: nat, j: nat)
    requires j < k
    ensures ChunksOf(rows, size, k)[j] == Chunk(ChunkName(j), Slice(rows, Offset(j, size), size))
  {
    var p := ChunksOf(rows, size, k - 1);
    var c := Chunk(ChunkName(k - 1), Slice(rows, Offset(k - 1, size), size));
    assert ChunksOf(rows, size, k) == p + [c];
    if j < k - 1 {
      ChunksOfIndex(rows, size, k - 1, j);
      assert (p + [c])[j] == p[j];
      assert p[j] == Chunk(ChunkName(j), Slice(rows, Offset(j, size), size));
    } else {
      assert (p + [c])[j] == c;
      assert c == Chunk(ChunkName(j), Slice(rows, Offset(j, size), size));
    }
  }

  /** Every chunk before the last of n_chunks is full. */
  lemma FullChunk(total: nat, size: nat, j: nat)
    requires size > 0 && j + 1 < NChunks(total, size)
    ensures (j + 1) * size <= total
  {
    NChunksCeiling(total, size);
    MulMonotone(j + 1, NChunks(total, size) - 1, size);
  }

  /** Chunk j of n_chunks starts inside the table. */
  lemma ChunkStart(total: nat, size: nat, j: nat)
    requires size > 0 && j < NChunks(total, size)
    ensures j * size < total
  {
    NChunksCeiling(total, size);
    MulMonotone(j, NChunks(total, size) - 1, size);
  }

  /** Writes chunk i (rows i * chunk_size onwards, chunk_size of them) for
      each i in range(n_chunks). The chunks are named in order, read back in
      order they give exactly the original rows (so they are disjoint and
      cover every row), every chunk but the last is full, and the last holds
      at least one row. */
  method CreateAnalysisReadyChunks<T>(rows: seq<T>, size: nat) returns (chunks: seq<Chunk<T>>)
    requires size > 0
    ensures |chunks| == NChunks(|rows|, size)
    ensures forall i :: 0 <= i < |chunks| ==> chunks[i] == Chunk(ChunkName(i), Slice(rows, Offset(i, size), size))
    ensures Concat(chunks) == rows
    ensures forall i :: 0 <= i < |chunks| - 1 ==> |chunks[i].rows| == size
    ensures chunks != [] ==> 1 <= |chunks[|chunks| - 1].rows| <= size
  {
    var n := NChunks(|rows|, size);
    chunks := [];
    var i := 0;
    while i < n
      invariant 0 <= i <= n
      invariant chunks == ChunksOf(rows, size, i)
    {
      var chunk := Chunk(ChunkName(i), Slice(rows, Offset(i, size), size));
      chunks := chunks + [chunk];
      i := i + 1;
    }
    ChunksCoverRows(rows, size);
    AllChunks(rows, size);
  }

  /** Read back in order, the first k chunks give the first k * chunk_size rows. */
  lemma {:induction false} ChunksOfPrefix<T>(rows: seq<T>, size: nat, k: nat)
    requires size > 0 && k <= NChunks(|rows|, size)
    ensures Concat(ChunksOf(rows, size, k)) == rows[..Min(k * size, |rows|)]
  {
    if k > 0 {
      var j := k - 1;
      var p := ChunksOf(rows, size, j);
      var c := Chunk(ChunkName(j), Slice(rows, Offset(j, size), size));
      calc {
        Concat(ChunksOf(rows, size, k));
        Concat(p + [c]);
        { AppendChunk(p, c); }
        Concat(p) + c.rows;
        { ChunksOfPrefix(rows, size, j); }
        rows[..Min(j * size, |rows|)] + Slice(rows, Offset(j, size), size);
        { ChunkStart(|rows|, size, j); CoverStep(rows, j, size); }
        rows[..Min((j + 1) * size, |rows|)];
      }
    }
  }

  /** All n_chunks chunks, read back in order, give exactly the rows. */
  lemma ChunksCoverRows<T>(rows: seq<T>, size: nat)
    requires size > 0
    ensures Concat(ChunksOf(rows, size, NChunks(|rows|, size))) == rows
  {
    var n := NChunks(|rows|, size);
    ChunksOfPrefix(rows, size, n);
    NChunksCeiling(|rows|, size);
    assert rows[..Min(n * size, |rows|)] == rows;
  }

  /** The n_chunks chunk files: chunk j is the j-th slice, every chunk but
      the last is full, and the last holds at least one row. */
  lemma AllChunks<T>(rows: seq<T>, size: nat)
    requires size > 0
    ensures var cs := ChunksOf(rows, size, NChunks(|rows|, size));
      && (forall j :: 0 <= j < |cs| ==> cs[j] == Chunk(ChunkName(j), Slice(rows, Offset(j, size), size)))
      && (forall j :: 0 <= j < |cs| - 1 ==> |cs[j].rows| == size)
      && (cs != [] ==> 1 <= |cs[|cs| - 1].rows| <= size)
  {
    ChunkSlices(rows, size, NChunks(|rows|, size));
    FullChunks(rows, size);
    LastChunk(rows, size);
  }

  lemma ChunkSlices<T>(rows: seq<T>, size: nat, n: nat)
    ensures forall j :: 0 <= j < n ==> ChunksOf(rows, size, n)[j] == Chunk(ChunkName(j), Slice(rows, Offset(j, size), size))
  {
    forall j | 0 <= j < n ensures ChunksOf(rows, size, n)[j] == Chunk(ChunkName(j), Slice(rows, Offset(j, size), size)) {
      ChunksOfIndex(rows, size, n, j);
    }
  }

  lemma FullChunks<T>(rows: seq<T>, size: nat)
    requires size > 0
    ensures var n := NChunks(|rows|, size);
      forall j :: 0 <= j && j + 1 < n ==> |ChunksOf(rows, size, n)[j].rows| == size
  {
    var n := NChunks(|rows|, size);
    forall j | 0 <= j && j + 1 < n ensures |ChunksOf(rows, size, n)[j].rows| == size {
      ChunksOfIndex(rows, size, n, j);
      FullChunk(|rows|, size, j);
    }
  }

  lemma LastChunk<T>(rows: seq<T>, size: nat)
    requires size > 0
    ensures var n := NChunks(|rows|, size);
      n > 0 ==> 1 <= |ChunksOf(rows, size, n)[n - 1].rows| <= size
  {
    var n := NChunks(|rows|, size);
    if n > 0 {
      ChunkStart(|rows|, size, n - 1);
      ChunkNonEmpty(rows, size, n - 1);
    }
  }

  /** A chunk that starts inside the table holds 1 to chunk_size rows. */
  lemma ChunkNonEmpty<T>(rows: seq<T>, size: nat, j: nat)
    requires size > 0 && j * size < |rows|
    ensures 1 <= |ChunksOf(rows, size, j + 1)[j].rows| <= size
  {
    ChunksOfIndex(rows, size, j + 1, j);
    SliceNonEmpty(rows, Offset(j, size), size);
  }

  /** A slice that starts inside the table holds at least one row. */
  lemma SliceNonEmpty<T>(rows: seq<T>, offset: nat, len: nat)
    requires 0 < len && offset < |rows|
    ensures 1 <= |Slice(rows, offset, len)| <= len
  {
  }

  // ---------------------------------------------------------------------
  // load_for_analysis

  /** int(1 / sample_frac): Python's int() truncates toward zero. */
  function SampleDivisor(frac: real): int
    requires frac != 0.0
  {
    var q := 1.0 / frac;
    if q >= 0.0 then q.Floor else -((-q).Floor)
  }

  /** A fraction 1/k gives back the divisor k. */
  lemma SampleDivisorOfReciprocal(k: int)
    requires k >= 1
    ensures SampleDivisor(1.0 / k as real) == k
  {
    assert 1.0 / (1.0 / k as real) == k as real;
  }

  /** Whether user_id % k == 0 keeps a row. A modulo by zero yields NULL,
      which the filter drops; the sign convention of % does not matter for
      a comparison with 0. */
  predicate Sampled(k: int, e: Event) {
    k != 0 && e.user % k == 0
  }

  /** load_for_analysis: with a falsy sample_frac (None or 0) every row is
      kept; otherwise the rows whose user_id is divisible by
      int(1 / sample_frac), in their original order. */
  function LoadForAnalysis(rows: seq<Event>, sampleFrac: Option<real>): (r: seq<Event>)
    ensures sampleFrac.None? || sampleFrac.value == 0.0 ==> r == rows
    ensures sampleFrac.Some? && sampleFrac.value != 0.0 ==>
      forall e :: e in r <==> e in rows && Sampled(SampleDivisor(sampleFrac.value), e)
  {
    if sampleFrac.None? || sampleFrac.value == 0.0 then rows
    else
      var k := SampleDivisor(sampleFrac.value);
      Filter(rows, e => Sampled(k, e))
  }

  /** Sampling is by user: a user's events are all kept or all dropped. */
  lemma SampleKeepsWholeUsers(rows: seq<Event>, sampleFrac: Option<real>, e1: Event, e2: Event)
    requires e1 in rows && e2 in rows && e1.user == e2.user
    ensures e1 in LoadForAnalysis(rows, sampleFrac) <==> e2 in LoadForAnalysis(rows, sampleFrac)
  {
  }

  /** With sample_frac = 1/k the kept rows are those of users divisible by k. */
  lemma SampleByReciprocal(rows: seq<Event>, k: int)
    requires k >= 1
    ensures forall e :: e in LoadForAnalysis(rows, Some(1.0 / k as real)) <==> e in rows && e.user % k == 0
  {
    SampleDivisorOfReciprocal(k);
  }
}
