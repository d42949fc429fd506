/** A weight that fits into one bucket is viewed as its dtype where it lies in the receive buffer, which needs an offset
    divisible by the item size. */
module WeightAlignment {
  import opened Arithmetic
  import opened Buffers
  import opened Sequences
  import opened WeightChunks
  import opened WeightBuckets

  /** chunk.view(dtype) is possible. (The chunks of a large weight are copied, wherever they lie.) */
  predicate Viewable(e: Entry, bucketSize: nat) {
    e.meta.WeightBytes() <= bucketSize ==> e.offset % e.meta.dtype.ItemSize() == 0
  }

  ghost predicate AllViewable(buckets: seq<Bucket>, bucketSize: nat) {
    forall b, e :: b in buckets && e in b ==> Viewable(e, bucketSize)
  }

  function BucketsFor(ws: seq<Weight>, bucketSize: nat): seq<Bucket>
    requires 0 < bucketSize
  {
    Pack(Split(ws, bucketSize), bucketSize, [])
  }

  ghost predicate OfTypes(ws: seq<Weight>, dtypes: set<DType>) {
    forall w :: w in ws ==> w.Valid() && w.dtype in dtypes
  }

  // ----- what is known about an entry -----

  /** A chunk of one of these weights; the only one if the weight fits into a bucket. */
  predicate IsChunkOf(c: Chunk, w: Weight, bucketSize: nat) {
    && c.Valid() && c.meta.shape == w.shape && c.meta.dtype == w.dtype && 0 < |c.bytes| <= bucketSize
    && (|w.bytes| <= bucketSize ==> c.bytes == w.bytes)
    && c.meta.chunkOffset + |c.bytes| <= |w.bytes| && c.meta.chunkOffset % bucketSize == 0
    && (|c.bytes| == bucketSize || c.meta.chunkOffset + |c.bytes| == |w.bytes|)
  }

  ghost predicate IsChunkOfSome(c: Chunk, ws: seq<Weight>, bucketSize: nat)
    requires 0 < bucketSize
  {
    exists w :: w in ws && IsChunkOf(c, w, bucketSize)
  }

  lemma {:induction false} ChunksAreChunks(w: Weight, bucketSize: nat, at: nat, c: Chunk)
    requires 0 < bucketSize && at <= |w.bytes| && at % bucketSize == 0 && c in ChunksFrom(w, bucketSize, at)
    ensures IsChunkOf(c, w, bucketSize)
    decreases |w.bytes| - at
  {
    var first := ChunkAt(w, bucketSize, at);
    if |w.bytes| <= bucketSize {
      DivUnique(0, bucketSize, at);
      assert w.bytes[0..|w.bytes|] == w.bytes;
    }
    if c != first {
      SumDivides(at, bucketSize, bucketSize);
      ChunksAreChunks(w, bucketSize, at + first.meta.chunkSize, c);
    }
  }

  lemma {:induction false} SplitHasChunks(ws: seq<Weight>, bucketSize: nat, c: Chunk)
    requires 0 < bucketSize && c in Split(ws, bucketSize)
    ensures IsChunkOfSome(c, ws, bucketSize)
  {
    if c in ChunksFrom(ws[0], bucketSize, 0) {
      ChunksAreChunks(ws[0], bucketSize, 0, c);
      assert ws[0] in ws;
    } else {
      SplitHasChunks(ws[1..], bucketSize, c);
      var w :| w in ws[1..] && IsChunkOf(c, w, bucketSize);
      assert w in ws;
    }
  }

  lemma {:induction false} EntryIsUnpacked(buckets: seq<Bucket>, b: Bucket, i: nat)
    requires b in buckets && i < |b|
    ensures Chunk(b[i].meta, b[i].bytes) in Unpack(buckets)
  {
    if b == buckets[0] {
      assert ChunksOf(b)[i] in ChunksOf(b);
    } else {
      EntryIsUnpacked(buckets[1..], b, i);
    }
  }

  /** Every entry is a chunk of one of the weights, behind the entries before it and inside the bucket. */
  lemma EntryFacts(ws: seq<Weight>, bucketSize: nat, b: Bucket, i: nat)
    requires 0 < bucketSize && b in BucketsFor(ws, bucketSize) && i < |b|
    ensures IsChunkOfSome(Chunk(b[i].meta, b[i].bytes), ws, bucketSize)
    ensures b[i].offset == Used(b[..i]) && b[i].offset + |b[i].bytes| <= bucketSize
  {
    var chunks := Split(ws, bucketSize);
    SplitFits(ws, bucketSize);
    PackIsWellPlaced(chunks, bucketSize, []);
    UnpackUndoesPack(chunks, bucketSize, []);
    EntryIsUnpacked(BucketsFor(ws, bucketSize), b, i);
    assert ChunksOf([]) + chunks == chunks;
    SplitHasChunks(ws, bucketSize, Chunk(b[i].meta, b[i].bytes));
    EntryEndsBefore(b, i, bucketSize);
    assert EntryPlaced(b, i);
  }

  // ----- multiples stay multiples -----

  lemma DifferenceDivides(a: nat, b: nat, item: nat)
    requires 0 < item && b <= a && a % item == 0 && b % item == 0
    ensures (a - b) % item == 0
  {
    assert a == a / item * item && b == b / item * item;
    var q, r := a / item, b / item;
    if q < r {
      MulMono(q + 1, r, item);
      MulStep(q, item);
    }
    Distribute(q - r, r, item);
    DivUnique(q - r, item, 0);
  }

  lemma MultipleOfMultiple(a: nat, b: nat, item: nat)
    requires 0 < item && 0 < b && a % b == 0 && b % item == 0
    ensures a % item == 0
  {
    var q, r := a / b, b / item;
    assert a == q * b && b == r * item;
    assert a == (q * r) * item;
    DivUnique(q * r, item, 0);
  }

  lemma ChunkIsMultiple(c: Chunk, w: Weight, bucketSize: nat, item: nat)
    requires 0 < item && 0 < bucketSize && IsChunkOf(c, w, bucketSize)
    requires bucketSize % item == 0 && |w.bytes| % item == 0
    ensures |c.bytes| % item == 0
  {
    MultipleOfMultiple(c.meta.chunkOffset, bucketSize, item);
    DifferenceDivides(|w.bytes|, c.meta.chunkOffset, item);
  }

  lemma OffsetsAreMultiples(ws: seq<Weight>, bucketSize: nat, item: nat, b: Bucket, i: nat)
    requires 0 < item && 0 < bucketSize && bucketSize % item == 0 && forall w :: w in ws ==> |w.bytes| % item == 0
    requires b in BucketsFor(ws, bucketSize) && i < |b|
    ensures b[i].offset % item == 0
  {
    forall e | e in b[..i]
      ensures |e.bytes| % item == 0
    {
      var j :| 0 <= j < i && b[j] == e;
      var c := Chunk(e.meta, e.bytes);
      EntryFacts(ws, bucketSize, b, j);
      var w :| w in ws && IsChunkOf(c, w, bucketSize);
      ChunkIsMultiple(c, w, bucketSize, item);
    }
    OffsetsAreAligned(b[..i], item);
    EntryFacts(ws, bucketSize, b, i);
  }

  lemma WholeItems(w: Weight)
    requires w.Valid()
    ensures |w.bytes| % w.dtype.ItemSize() == 0
  {
    DivUnique(Numel(w.shape), w.dtype.ItemSize(), 0);
  }

  /** Item sizes are powers of two. */
  lemma LargerItemsAreMultiples(d: DType, e: DType)
    requires d.ItemSize() <= e.ItemSize()
    ensures e.ItemSize() % d.ItemSize() == 0
  {
  }

  /** The guard a caller can check: the largest item size divides the bucket size and every weight's size. */
  lemma GuardedListsAreViewable(ws: seq<Weight>, bucketSize: nat, widest: DType)
    requires 0 < bucketSize && bucketSize % widest.ItemSize() == 0
    requires forall w :: w in ws ==> w.dtype.ItemSize() <= widest.ItemSize() && |w.bytes| % widest.ItemSize() == 0
    ensures AllViewable(BucketsFor(ws, bucketSize), bucketSize)
  {
    forall b, e | b in BucketsFor(ws, bucketSize) && e in b
      ensures Viewable(e, bucketSize)
    {
      var i :| 0 <= i < |b| && b[i] == e;
      EntryFacts(ws, bucketSize, b, i);
      var w :| w in ws && IsChunkOf(Chunk(e.meta, e.bytes), w, bucketSize);
      OffsetsAreMultiples(ws, bucketSize, widest.ItemSize(), b, i);
      LargerItemsAreMultiples(w.dtype, widest);
      MultipleOfMultiple(e.offset, widest.ItemSize(), w.dtype.ItemSize());
    }
  }

  // ----- exactly when -----

  ghost predicate AlwaysViewable(dtypes: set<DType>, bucketSize: nat)
    requires 0 < bucketSize
  {
    forall ws :: OfTypes(ws, dtypes) && DistinctWeights(ws) ==> AllViewable(BucketsFor(ws, bucketSize), bucketSize)
  }

  /** Weights of this dtype that fit into a bucket lie aligned among weights of these dtypes: the item size divides the
      bucket size, and unless it is the bucket size no other item is smaller. */
  predicate Aligned(d: DType, dtypes: set<DType>, bucketSize: nat) {
    d.ItemSize() <= bucketSize ==>
      && bucketSize % d.ItemSize() == 0
      && (d.ItemSize() == bucketSize || forall e :: e in dtypes ==> d.ItemSize() <= e.ItemSize())
  }

  /** A weight that fills the whole bucket lies at its beginning. */
  lemma WholeBucketIsViewable(ws: seq<Weight>, bucketSize: nat, b: Bucket, i: nat, w: Weight)
    requires 0 < bucketSize && b in BucketsFor(ws, bucketSize) && i < |b|
    requires w in ws && w.Valid() && IsChunkOf(Chunk(b[i].meta, b[i].bytes), w, bucketSize)
    requires w.dtype.ItemSize() == bucketSize
    ensures Viewable(b[i], bucketSize)
  {
    EntryFacts(ws, bucketSize, b, i);
    WholeItems(w);
    if |w.bytes| < bucketSize {
      DivUnique(0, bucketSize, |w.bytes|);
    }
  }

  lemma AlignedIsViewable(ws: seq<Weight>, dtypes: set<DType>, bucketSize: nat)
    requires 0 < bucketSize && OfTypes(ws, dtypes) && forall d :: d in dtypes ==> Aligned(d, dtypes, bucketSize)
    ensures AllViewable(BucketsFor(ws, bucketSize), bucketSize)
  {
    forall b, e | b in BucketsFor(ws, bucketSize) && e in b
      ensures Viewable(e, bucketSize)
    {
      var i :| 0 <= i < |b| && b[i] == e;
      EntryFacts(ws, bucketSize, b, i);
      var w :| w in ws && IsChunkOf(Chunk(e.meta, e.bytes), w, bucketSize);
      var item := w.dtype.ItemSize();
      if item == bucketSize {
        WholeBucketIsViewable(ws, bucketSize, b, i, w);
      } else if |w.bytes| <= bucketSize {
        ItemFits(w);
        assert Aligned(w.dtype, dtypes, bucketSize);
        forall v | v in ws
          ensures |v.bytes| % item == 0
        {
          WholeItems(v);
          LargerItemsAreMultiples(w.dtype, v.dtype);
          MultipleOfMultiple(|v.bytes|, v.dtype.ItemSize(), item);
        }
        OffsetsAreMultiples(ws, bucketSize, item, b, i);
      }
    }
  }

  lemma ItemFits(w: Weight)
    requires w.Valid() && 0 < |w.bytes|
    ensures w.dtype.ItemSize() <= |w.bytes|
  {
    MulMono(1, Numel(w.shape), w.dtype.ItemSize());
  }

  // ----- a small weight at a chosen offset -----

  function Vector(name: string, dtype: DType, n: nat): Weight {
    Weight(name, [n], dtype, seq(n * dtype.ItemSize(), i => 0 as byte))
  }

  lemma VectorIsValid(name: string, dtype: DType, n: nat)
    ensures Vector(name, dtype, n).Valid()
  {
    assert [n][1..] == [];
    assert Numel([n]) == n * Numel([]);
  }

  ghost predicate HasAt(buckets: seq<Bucket>, meta: TensorMeta, offset: nat) {
    exists b, e :: b in buckets && e in b && e.meta == meta && e.offset == offset
  }

  lemma HasAtLater(first: Bucket, rest: seq<Bucket>, meta: TensorMeta, offset: nat)
    requires HasAt(rest, meta, offset)
    ensures HasAt([first] + rest, meta, offset)
  {
    var b, e :| b in rest && e in b && e.meta == meta && e.offset == offset;
    assert b in [first] + rest;
  }

  /** A chunk that comes behind the last, partial chunk of a weight. */
  lemma BehindLastChunk(y: Chunk, z: Chunk, bucketSize: nat, current: Bucket)
    requires y.Valid() && z.Valid() && 0 < |y.bytes| && |y.bytes| + |z.bytes| <= bucketSize
    requires Used(current) == 0 || Used(current) == bucketSize
    ensures HasAt(Pack([y, z], bucketSize, current), z.meta, |y.bytes|)
  {
    assert [y, z][1..] == [z] && [z][1..] == [];
    var place: Bucket := if Used(current) == 0 then current else [];
    var offset := Used(place);
    var next := place + [Entry(y.meta, offset, y.bytes)];
    UsedSnoc(place, Entry(y.meta, offset, y.bytes));
    var e := Entry(z.meta, |y.bytes|, z.bytes);
    assert Pack([z], bucketSize, next) == [next + [e]];
    assert next + [e] in Pack([z], bucketSize, next) && e in next + [e];
    if Used(current) != 0 {
      assert next == [Entry(y.meta, 0, y.bytes)];
      assert Pack([y, z], bucketSize, current) == [current] + Pack([z], bucketSize, next);
      HasAtLater(current, Pack([z], bucketSize, next), z.meta, |y.bytes|);
    } else {
      assert Pack([y, z], bucketSize, current) == Pack([z], bucketSize, next);
    }
  }

  lemma FullChunkFirst(x: Chunk, more: seq<Chunk>, bucketSize: nat, current: Bucket) returns (next: Bucket)
    requires x.Valid() && 0 < |x.bytes| == bucketSize && (Used(current) == 0 || Used(current) == bucketSize)
    ensures Used(next) == bucketSize
    ensures Pack([x] + more, bucketSize, current)
         == (if Used(current) == 0 then [] else [current]) + Pack(more, bucketSize, next)
  {
    assert ([x] + more)[1..] == more;
    var place: Bucket := if Used(current) == 0 then current else [];
    next := place + [Entry(x.meta, Used(place), x.bytes)];
    UsedSnoc(place, Entry(x.meta, Used(place), x.bytes));
    if Used(current) != 0 {
      assert next == [Entry(x.meta, 0, x.bytes)];
    }
  }

  /** Behind k full chunks and a rest there is room for a small one. */
  lemma {:induction false} BehindRest(w: Weight, bucketSize: nat, at: nat, z: Chunk, current: Bucket, k: nat, rest: nat)
    requires 0 < bucketSize && at <= |w.bytes| && |w.bytes| - at == k * bucketSize + rest && 0 < rest
    requires z.Valid() && 0 < |z.bytes| && rest + |z.bytes| <= bucketSize
    requires Used(current) == 0 || Used(current) == bucketSize
    ensures HasAt(Pack(ChunksFrom(w, bucketSize, at) + [z], bucketSize, current), z.meta, rest)
    decreases k
  {
    var x := ChunkAt(w, bucketSize, at);
    if k == 0 {
      assert ChunksFrom(w, bucketSize, at) == [x] && [x] + [z] == [x, z];
      BehindLastChunk(x, z, bucketSize, current);
    } else {
      MulStep(k, bucketSize);
      MulMono(1, k, bucketSize);
      var more := ChunksFrom(w, bucketSize, at + bucketSize) + [z];
      assert ChunksFrom(w, bucketSize, at) + [z] == [x] + more;
      var next := FullChunkFirst(x, more, bucketSize, current);
      BehindRest(w, bucketSize, at + bucketSize, z, next, k - 1, rest);
      if Used(current) != 0 {
        HasAtLater(current, Pack(more, bucketSize, next), z.meta, rest);
      }
    }
  }

  lemma SplitTwo(v: Weight, w: Weight, bucketSize: nat)
    requires 0 < |w.bytes| <= bucketSize
    ensures Split([v, w], bucketSize) == ChunksFrom(v, bucketSize, 0) + [ChunkAt(w, bucketSize, 0)]
  {
    assert [v, w][1..] == [w] && [w][1..] == [];
    assert ChunksFrom(w, bucketSize, 0) == [ChunkAt(w, bucketSize, 0)] + ChunksFrom(w, bucketSize, |w.bytes|);
    assert Split([w], bucketSize) == ChunksFrom(w, bucketSize, 0) + Split([], bucketSize);
  }

  /** A single item behind n items of another weight. */
  lemma Misplaced(before: DType, n: nat, d: DType, dtypes: set<DType>, bucketSize: nat, k: nat, rest: nat)
    requires before in dtypes && d in dtypes && n * before.ItemSize() == k * bucketSize + rest
    requires 0 < rest && rest + d.ItemSize() <= bucketSize && rest % d.ItemSize() != 0
    ensures OfTypes([Vector("a", before, n), Vector("b", d, 1)], dtypes)
    ensures DistinctWeights([Vector("a", before, n), Vector("b", d, 1)])
    ensures !AllViewable(BucketsFor([Vector("a", before, n), Vector("b", d, 1)], bucketSize), bucketSize)
  {
    var v, w := Vector("a", before, n), Vector("b", d, 1);
    VectorIsValid("a", before, n);
    VectorIsValid("b", d, 1);
    var z := ChunkAt(w, bucketSize, 0);
    SplitTwo(v, w, bucketSize);
    BehindRest(v, bucketSize, 0, z, [], k, rest);
    var b, e :| b in BucketsFor([v, w], bucketSize) && e in b && e.meta == z.meta && e.offset == rest;
    assert !Viewable(e, bucketSize);
  }

  /** Where the item size does not divide the bucket size some number of items leaves a rest that is no multiple of it
      and has room for one more item behind it. */
  lemma RestOfItems(bucketSize: nat, item: nat) returns (n: nat, k: nat, rest: nat)
    requires 0 < item <= bucketSize && bucketSize % item != 0
    ensures n * item == k * bucketSize + rest && 0 < rest < item && rest + item <= bucketSize
  {
    var q, r := bucketSize / item, bucketSize % item;
    assert bucketSize == q * item + r;
    if q >= 2 {
      MulMono(2, q, item);
      MulStep(q, item);
      n, k, rest := q + 1, 1, item - r;
    } else {
      MulMono(q, 1, item);
      assert q == 1;
      n := (bucketSize - 1) / r;
      assert bucketSize - 1 == n * r + (bucketSize - 1) % r;
      assert n * r > 0;
      MulStep(n, bucketSize);
      Distribute(item, r, n);
      k, rest := n - 1, bucketSize - n * r;
      assert n * item == n * bucketSize - n * r;
    }
  }

  /** A smaller item in front of a larger one, both in one bucket. */
  lemma MixedTypesCanMisalign(before: DType, d: DType, dtypes: set<DType>, bucketSize: nat)
    requires 0 < bucketSize && before in dtypes && d in dtypes
    requires before.ItemSize() < d.ItemSize() && before.ItemSize() + d.ItemSize() <= bucketSize
    ensures !AlwaysViewable(dtypes, bucketSize)
  {
    Misplaced(before, 1, d, dtypes, bucketSize, 0, before.ItemSize());
  }

  /** For every set of dtypes and every bucket size: all lists of such weights can be viewed at the receiver if and only
      if every dtype of the set is aligned. */
  lemma AlwaysViewableIff(dtypes: set<DType>, bucketSize: nat)
    requires 0 < bucketSize
    ensures AlwaysViewable(dtypes, bucketSize) <==> forall d :: d in dtypes ==> Aligned(d, dtypes, bucketSize)
  {
    if forall d :: d in dtypes ==> Aligned(d, dtypes, bucketSize) {
      forall ws | OfTypes(ws, dtypes) && DistinctWeights(ws)
        ensures AllViewable(BucketsFor(ws, bucketSize), bucketSize)
      {
        AlignedIsViewable(ws, dtypes, bucketSize);
      }
    } else {
      var d :| d in dtypes && !Aligned(d, dtypes, bucketSize);
      NotAlignedNotViewable(d, dtypes, bucketSize);
    }
  }

  lemma NotAlignedNotViewable(d: DType, dtypes: set<DType>, bucketSize: nat)
    requires 0 < bucketSize && d in dtypes && !Aligned(d, dtypes, bucketSize)
    ensures !AlwaysViewable(dtypes, bucketSize)
  {
    var item := d.ItemSize();
    if bucketSize % item != 0 {
      var n, k, rest := RestOfItems(bucketSize, item);
      DivUnique(0, item, rest);
      Misplaced(d, n, d, dtypes, bucketSize, k, rest);
    } else {
      var e :| e in dtypes && e.ItemSize() < item;
      assert bucketSize == bucketSize / item * item;
      MulLess(1, bucketSize / item, item);
      MulMono(2, bucketSize / item, item);
      MixedTypesCanMisalign(e, d, dtypes, bucketSize);
    }
  }

  /** In buckets with room for two items of any dtype, that is: all item sizes are equal and divide the bucket size. */
  lemma RoomyBucketsIff(dtypes: set<DType>, bucketSize: nat)
    requires 0 < bucketSize && forall d :: d in dtypes ==> 2 * d.ItemSize() <= bucketSize
    ensures AlwaysViewable(dtypes, bucketSize) <==>
              && (forall d, e :: d in dtypes && e in dtypes ==> d.ItemSize() == e.ItemSize())
              && (forall d :: d in dtypes ==> bucketSize % d.ItemSize() == 0)
  {
    AlwaysViewableIff(dtypes, bucketSize);
    if forall d :: d in dtypes ==> Aligned(d, dtypes, bucketSize) {
      forall d, e | d in dtypes && e in dtypes
        ensures d.ItemSize() == e.ItemSize() && bucketSize % d.ItemSize() == 0
      {
        assert Aligned(d, dtypes, bucketSize) && Aligned(e, dtypes, bucketSize);
      }
    }
  }
}
