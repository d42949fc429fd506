/** DataProtoFuture of protocol.py: a batch that is still in the hands of the workers, and the parts it is dispatched
    in. */
module BatchFutures {
  import opened Arithmetic
  import opened BatchAlgebra
  import opened Wrappers

  /** dispatch_fn: take this one of so many chunks. */
  datatype Part = Part(index: nat, chunks: nat)

  /** `workers` is what ray.get returns for the futures. */
  datatype Future<T> = Future(workers: seq<Proto<T>>, part: Option<Part>)

  /** The workers' batches have the same columns and n rows together. */
  predicate Resolves<T>(f: Future<T>, n: nat) {
    Alike(f.workers) && Rows(Concat(f.workers), n)
  }

  predicate CanChunk(n: nat, chunks: nat, padding: bool)
    requires chunks > 0
  {
    (padding || n % chunks == 0) && (n == 0 || (chunks - 1) * CeilDiv(n, chunks) < n)
  }

  /** The rows of the concatenated batch that a future stands for; None where chunking fails. */
  function RowsOf(part: Option<Part>, n: nat, padding: bool): (rows: Option<seq<nat>>)
    requires part.Some? ==> part.value.index < part.value.chunks
    ensures rows.Some? ==> Within(rows.value, n)
  {
    match part
    case None => Some(Range(0, n))
    case Some(Part(index, chunks)) =>
      ChunkCount(n, chunks);
      if CanChunk(n, chunks, padding) then Some(ChunkRanges(n, chunks)[index]) else None
  }

  /** chunk: nothing is fetched; every future remembers which part it is. */
  method Chunk<T>(f: Future<T>, chunks: nat) returns (list: seq<Future<T>>)
    ensures |list| == chunks && forall i :: 0 <= i < chunks ==> list[i] == Future(f.workers, Some(Part(i, chunks)))
  {
    list := [];
    for i := 0 to chunks
      invariant |list| == i && forall j :: 0 <= j < i ==> list[j] == Future(f.workers, Some(Part(j, chunks)))
    {
      list := list + [Future(f.workers, Some(Part(i, chunks)))];
    }
  }

  /** get: concatenate what the workers have, and take the part. */
  method Get<T>(f: Future<T>, n: nat, padding: bool) returns (d: Option<Proto<T>>)
    requires Resolves(f, n) && (f.part.Some? ==> f.part.value.index < f.part.value.chunks)
    ensures d.Some? <==> RowsOf(f.part, n, padding).Some?
    ensures d.Some? ==> d.value == Picked(Concat(f.workers), n, RowsOf(f.part, n, padding).value)
    ensures f.part.None? ==> d == Some(Concat(f.workers))
  {
    var all := Concat(f.workers);
    if f.part.None? {
      PickAll(all, n);
      return Some(all);
    }
    var parts := BatchAlgebra.Chunk(all, n, f.part.value.chunks, padding);
    if parts.None? {
      return None;
    }
    d := Some(parts.value[f.part.value.index]);
  }

  /** What the parts of a future are, fetched one by one, is what chunking the concatenated batch gives, and together
      they are that batch. */
  lemma PartsAreTheWhole<T>(f: Future<T>, n: nat, chunks: nat, padding: bool, parts: seq<Proto<T>>)
    requires Resolves(f, n) && chunks > 0 && CanChunk(n, chunks, padding) && |parts| == chunks
    requires forall i :: 0 <= i < chunks ==>
               parts[i] == Picked(Concat(f.workers), n, RowsOf(Some(Part(i, chunks)), n, padding).value)
    ensures Parts(Concat(f.workers), n, ChunkRanges(n, chunks), parts)
    ensures Alike(parts) && Concat(parts) == Concat(f.workers)
  {
    ChunkCount(n, chunks);
    ChunksJoin(Concat(f.workers), n, chunks, parts);
  }

  // ----- chunking a part again -----

  lemma {:induction false} PiecesAreSmall(n: nat, lo: nat, size: nat, i: nat)
    requires lo <= n && size > 0 && i < |Pieces(n, lo, size)|
    ensures |Pieces(n, lo, size)[i]| <= size
    decreases n - lo
  {
    if i > 0 {
      PiecesAreSmall(n, Min(lo + size, n), size, i - 1);
    }
  }

  /** A part of several has fewer rows than the whole. */
  lemma PartIsSmaller(n: nat, chunks: nat, padding: bool, i: nat)
    requires n > 0 && i < chunks && CanChunk(n, chunks, padding)
    ensures |RowsOf(Some(Part(i, chunks)), n, padding).value| == n <==> chunks == 1
  {
    ChunkCount(n, chunks);
    CeilDivBounds(n, chunks);
    PiecesAreSmall(n, 0, CeilDiv(n, chunks), i);
    if chunks == 1 {
      EvenChunks(n, 1, 0);
    } else if CeilDiv(n, chunks) == n {
      MulMono(1, chunks - 1, n);
    }
  }

  /** The future that chunk makes of a part does not know of that part: asked for its only chunk, a part answers with
      itself if and only if it is the whole batch. */
  lemma ChunkAgainIff<T>(f: Future<T>, n: nat, padding: bool)
    requires Resolves(f, n) && n > 0 && f.part.Some? && f.part.value.index < f.part.value.chunks
    requires CanChunk(n, f.part.value.chunks, padding) && HasColumns(Concat(f.workers))
    ensures RowsOf(Some(Part(0, 1)), n, padding) == Some(Range(0, n))
    ensures Picked(Concat(f.workers), n, RowsOf(f.part, n, padding).value)
            == Picked(Concat(f.workers), n, RowsOf(Some(Part(0, 1)), n, padding).value)
            <==> f.part.value.chunks == 1
  {
    OnlyChunk(n, padding);
    var part := RowsOf(f.part, n, padding).value;
    PartIsSmaller(n, f.part.value.chunks, padding, f.part.value.index);
    SizesDiffer(Concat(f.workers), n, part, Range(0, n));
    if f.part.value.chunks == 1 {
      assert f.part == Some(Part(0, 1));
    }
  }

  lemma OnlyChunk(n: nat, padding: bool)
    requires n > 0
    ensures RowsOf(Some(Part(0, 1)), n, padding) == Some(Range(0, n))
  {
    ChunkCount(n, 1);
    EvenChunks(n, 1, 0);
    assert n % 1 == 0;
  }

  predicate HasColumns<T>(d: Proto<T>) {
    d.tensors.Keys + d.others.Keys != {}
  }

  lemma SizesDiffer<T>(d: Proto<T>, n: nat, a: seq<nat>, b: seq<nat>)
    requires Rows(d, n) && HasColumns(d) && Within(a, n) && Within(b, n)
    ensures Picked(d, n, a) == Picked(d, n, b) ==> |a| == |b|
  {
    if |a| != |b| {
      var k :| k in d.tensors.Keys + d.others.Keys;
      if k in d.tensors {
        assert |Picked(d, n, a).tensors[k]| != |Picked(d, n, b).tensors[k]|;
      } else {
        assert |Picked(d, n, a).others[k]| != |Picked(d, n, b).others[k]|;
      }
    }
  }
}
