/**
 * The chunk loop shared by `BatchGetItems` and `BatchWriteItems`
 * (pkg/internal/db/tables/test.go): `for i := 0; i < n; i += limit`, each
 * chunk being `items[i:min(i+limit, n)]`.
 */
module Chunking {

  /** Per-request item limit of the store's batch read (BatchGetItem). */
  const MaxBatchGet: nat := 100
  /** Per-request item limit of the store's batch write (BatchWriteItem). */
  const MaxBatchWrite: nat := 25

  function Min(a: int, b: int): int { if a <= b then a else b }

  /** ceil(n / limit): how many chunks `n` items make. */
  function NumChunks(n: nat, limit: nat): nat
    requires limit > 0
  {
    (n + limit - 1) / limit
  }

  /**
   * The chunks of `s`: a first chunk of up to `limit` items, then the chunks
   * of what remains.
   */
  function Chunks<T>(s: seq<T>, limit: nat): seq<seq<T>>
    requires limit > 0
    decreases |s|
  {
    if |s| == 0 then []
    else
      var end := Min(limit, |s|);
      [s[..end]] + Chunks(s[end..], limit)
  }

  /** Concatenation of a sequence of sequences, first to last. */
  function Flatten<T>(ss: seq<seq<T>>): seq<T>
  {
    if |ss| == 0 then [] else ss[0] + Flatten(ss[1..])
  }

  lemma {:induction false} FlattenSnoc<T>(ss: seq<seq<T>>, s: seq<T>)
    ensures Flatten(ss + [s]) == Flatten(ss) + s
  {
    if |ss| > 0 {
      assert (ss + [s])[1..] == ss[1..] + [s];
      FlattenSnoc(ss[1..], s);
    }
  }

  /** One more multiple of the divisor. */
  lemma MulSucc(k: int, d: int)
    ensures (k + 1) * d == k * d + d
  {
  }

  /** A multiple of a positive `d` strictly between -d and d is zero. */
  lemma MulSmall(x: int, d: int)
    requires d > 0
    requires -d < x * d < d
    ensures x == 0
  {
  }

  /** Euclidean division is determined by quotient and remainder. */
  lemma DivUnique(n: int, d: int, q: int, r: int)
    requires d > 0 && 0 <= r < d && n == q * d + r
    ensures n / d == q
  {
    var q', r' := n / d, n % d;
    assert n == q' * d + r';
    assert (q - q') * d == q * d - q' * d;
    MulSmall(q - q', d);
  }

  /** (a + limit) / limit == a / limit + 1, the step of the chunk count. */
  lemma DivStep(a: nat, limit: nat)
    requires limit > 0
    ensures (a + limit) / limit == a / limit + 1
  {
    var q, r := a / limit, a % limit;
    MulSucc(q, limit);
    DivUnique(a + limit, limit, q + 1, r);
  }

  /** The number of chunks is ceil(N / limit); in particular no input gives no chunk. */
  lemma {:induction false} ChunksCount<T>(s: seq<T>, limit: nat)
    requires limit > 0
    ensures |Chunks(s, limit)| == NumChunks(|s|, limit)
    decreases |s|
  {
    if |s| == 0 {
      DivUnique(limit - 1, limit, 0, limit - 1);
    } else if |s| <= limit {
      DivUnique(|s| + limit - 1, limit, 1, |s| - 1);
      assert Chunks(s[|s|..], limit) == [];
    } else {
      var rest := s[limit..];
      assert Chunks(s, limit) == [s[..limit]] + Chunks(rest, limit);
      ChunksCount(rest, limit);
      DivStep(|s| - 1, limit);
      assert |rest| + limit - 1 == |s| - 1;
    }
  }

  /** Concatenating the chunks in order reproduces the input: nothing dropped, duplicated or moved. */
  lemma {:induction false} FlattenChunks<T>(s: seq<T>, limit: nat)
    requires limit > 0
    ensures Flatten(Chunks(s, limit)) == s
    decreases |s|
  {
    if |s| > 0 {
      var end := Min(limit, |s|);
      FlattenChunks(s[end..], limit);
      assert ([s[..end]] + Chunks(s[end..], limit))[1..] == Chunks(s[end..], limit);
      assert s[..end] + s[end..] == s;
    }
  }

  /**
   * Chunk k covers positions [k*limit, min(k*limit + limit, N)) of the input, so
   * every chunk is non-empty and at most `limit` long, and all but the last are full.
   */
  lemma ChunkAt<T>(s: seq<T>, limit: nat, k: nat)
    requires limit > 0
    requires k < |Chunks(s, limit)|
    ensures k * limit < |s|
    ensures Chunks(s, limit)[k] == s[k * limit .. Min(k * limit + limit, |s|)]
    ensures 0 < |Chunks(s, limit)[k]| <= limit
    ensures k < |Chunks(s, limit)| - 1 ==> |Chunks(s, limit)[k]| == limit
  {
    OffsetIsProduct(k, limit);
    ChunkWindow(s, limit, k);
    if k < |Chunks(s, limit)| - 1 {
      ChunkWindow(s, limit, k + 1);
    }
  }

  /** Where chunk k starts: k steps of `limit`. */
  function Offset(k: nat, limit: nat): nat
  {
    if k == 0 then 0 else Offset(k - 1, limit) + limit
  }

  lemma {:induction false} OffsetIsProduct(k: nat, limit: nat)
    ensures Offset(k, limit) == k * limit
  {
    if k > 0 {
      OffsetIsProduct(k - 1, limit);
      MulSucc(k - 1, limit);
    }
  }

  /** Chunk k is the window of at most `limit` items starting at its offset. */
  lemma {:induction false} ChunkWindow<T>(s: seq<T>, limit: nat, k: nat)
    requires limit > 0
    requires k < |Chunks(s, limit)|
    ensures Offset(k, limit) < |s|
    ensures Chunks(s, limit)[k] == s[Offset(k, limit) .. Min(Offset(k, limit) + limit, |s|)]
    decreases |s|
  {
    var end := Min(limit, |s|);
    var rest := s[end..];
    assert Chunks(s, limit) == [s[..end]] + Chunks(rest, limit);
    if k > 0 {
      assert end == limit;
      assert Chunks(s, limit)[k] == Chunks(rest, limit)[k - 1];
      ChunkWindow(rest, limit, k - 1);
      ShiftedSlice(s, limit, Offset(k - 1, limit));
    }
  }

  /** A window of `s[limit..]` is the window of `s` shifted by `limit`. */
  lemma ShiftedSlice<T>(s: seq<T>, limit: nat, lo: nat)
    requires limit <= |s| && lo < |s| - limit
    ensures var hi := Min(lo + limit, |s| - limit);
      s[limit..][lo .. hi] == s[lo + limit .. Min(lo + limit + limit, |s|)]
  {
  }

  /** Chunks are non-empty, so there are never more chunks than items. */
  lemma {:induction false} ChunksAtMost<T>(s: seq<T>, limit: nat)
    requires limit > 0
    ensures |Chunks(s, limit)| <= |s|
    decreases |s|
  {
    if |s| > 0 {
      ChunksAtMost(s[Min(limit, |s|)..], limit);
    }
  }

  /**
   * The loop of test.go:124-130 and test.go:178-186: step `i` by `limit`,
   * append `items[i:min(i+limit, n)]`.
   */
  method Split<T>(items: seq<T>, limit: nat) returns (chunks: seq<seq<T>>)
    requires limit > 0
    ensures chunks == Chunks(items, limit)
    ensures |chunks| == NumChunks(|items|, limit)
    ensures Flatten(chunks) == items
  {
    chunks := [];
    var i := 0;
    while i < |items|
      invariant 0 <= i <= |items| + limit
      invariant chunks + Chunks(items[Min(i, |items|)..], limit) == Chunks(items, limit)
      decreases |items| - i
    {
      var end := i + limit;
      if end > |items| {
        end := |items|;
      }
      assert items[i..][..end - i] == items[i..end];
      assert items[i..][end - i..] == items[end..];
      chunks := chunks + [items[i..end]];
      i := i + limit;
    }
    assert items[|items|..] == [];
    ChunksCount(items, limit);
    FlattenChunks(items, limit);
  }
}
