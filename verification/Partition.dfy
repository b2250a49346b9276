/** Splitting a list of operations among threads, in closed form and with a running offset. */
module Partition {
  import opened Common

  /** Where chunk i starts when `size` elements are split n ways. */
  function ChunkStart(size: nat, n: nat, i: nat): (r: nat)
    requires n > 0
  {
    i * (size / n) + Min(i, size % n)
  }

  /** How many elements chunk i gets. */
  function ChunkSize(size: nat, n: nat, i: nat): (r: nat)
    requires n > 0
  {
    size / n + (if i < size % n then 1 else 0)
  }

  lemma ChunkBounds(size: nat, n: nat, i: nat)
    requires n > 0 && i < n
    ensures ChunkStart(size, n, i + 1) == ChunkStart(size, n, i) + ChunkSize(size, n, i)
    ensures ChunkStart(size, n, 0) == 0 && ChunkStart(size, n, n) == size
    ensures ChunkStart(size, n, i + 1) <= size
  {
    assert (i + 1) * (size / n) == i * (size / n) + size / n;
    assert size == n * (size / n) + size % n;
    MulMonotone(i + 1, n, size / n);
  }

  /** get_chunk. */
  function GetChunk<T>(v: seq<T>, n: nat, i: nat): (r: seq<T>)
    requires i < n
  {
    ChunkBounds(|v|, n, i);
    v[ChunkStart(|v|, n, i)..ChunkStart(|v|, n, i + 1)]
  }

  /** An error is an exception: for 0 the source's own, for a negative count the result vector's. */
  datatype Divided<T> = Chunks(sets: seq<seq<T>>) | Error

  /** divideOperationSetPerThread: a running offset yields the same chunks as the closed form. */
  method DivideOperationSetPerThread<T>(operations: seq<T>, totalThreads: int) returns (result: Divided<T>)
    ensures result.Error? <==> totalThreads <= 0
    ensures result.Chunks? ==>
              |result.sets| == totalThreads
              && forall i :: 0 <= i < totalThreads ==> result.sets[i] == GetChunk(operations, totalThreads, i)
  {
    if totalThreads <= 0 {
      return Error;
    }
    var n: nat := totalThreads;
    var perThread, extra := |operations| / n, |operations| % n;
    var sets: seq<seq<T>> := seq(n, _ => []);
    var start := 0;
    ChunkBounds(|operations|, n, 0);
    for i := 0 to n
      invariant |sets| == n && start == ChunkStart(|operations|, n, i)
      invariant forall k :: 0 <= k < n ==> sets[k] == if k < i then GetChunk(operations, n, k) else []
    {
      ChunkBounds(|operations|, n, i);
      var end := start + perThread + (if i < extra then 1 else 0);
      if start < |operations| {
        sets := sets[i := operations[start..end]];
      }
      start := end;
    }
    result := Chunks(sets);
  }

  function FirstChunks<T>(v: seq<T>, n: nat, k: nat): (r: seq<T>)
    requires n > 0 && k <= n
  {
    if k == 0 then [] else FirstChunks(v, n, k - 1) + GetChunk(v, n, k - 1)
  }

  lemma {:induction false} FirstChunksArePrefix<T>(v: seq<T>, n: nat, k: nat)
    requires n > 0 && k <= n
    ensures ChunkStart(|v|, n, k) <= |v| && FirstChunks(v, n, k) == v[..ChunkStart(|v|, n, k)]
  {
    if k == 0 {
      ChunkBounds(|v|, n, 0);
    } else {
      hide ChunkStart, ChunkSize;
      FirstChunksArePrefix(v, n, k - 1);
      ChunkBounds(|v|, n, k - 1);
    }
  }

  /** The chunks put together are the list, in order, with nothing lost or repeated. */
  lemma ChunksConcatenate<T>(v: seq<T>, n: nat)
    requires n > 0
    ensures FirstChunks(v, n, n) == v
  {
    FirstChunksArePrefix(v, n, n);
    ChunkBounds(|v|, n, 0);
  }

  /** Any two chunks differ in size by at most one. */
  lemma ChunksAreBalanced<T>(v: seq<T>, n: nat, i: nat, j: nat)
    requires i < n && j < n
    ensures -1 <= |GetChunk(v, n, i)| - |GetChunk(v, n, j)| <= 1
  {
    hide ChunkStart, ChunkSize;
    ChunkBounds(|v|, n, i);
    ChunkBounds(|v|, n, j);
    SizesAreClose(|v|, n, i, j);
  }

  lemma SizesAreClose(size: nat, n: nat, i: nat, j: nat)
    requires n > 0
    ensures -1 <= ChunkSize(size, n, i) - ChunkSize(size, n, j) <= 1
  {
  }

  /** The longer chunks come first, and their number is the remainder. */
  lemma LongerChunksComeFirst<T>(v: seq<T>, n: nat, i: nat, j: nat)
    requires i < j < n
    ensures |GetChunk(v, n, i)| >= |GetChunk(v, n, j)|
    ensures |GetChunk(v, n, i)| > |GetChunk(v, n, j)| ==> i < |v| % n <= j
  {
    hide ChunkStart;
    ChunkBounds(|v|, n, i);
    ChunkBounds(|v|, n, j);
  }
}
