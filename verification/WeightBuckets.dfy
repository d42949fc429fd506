/** The trainer side of checkpoint_engine/nccl_checkpoint_engine.py and nixl_checkpoint_engine.py:
    chunks are packed one behind the other into fixed-size buckets, and a full bucket is published
    while the next one is filled in the other buffer. */
module WeightBuckets {
  import opened Arithmetic
  import opened Buffers
  import opened Wrappers
  import opened WeightChunks

  /** A chunk with its place in the bucket. */
  datatype Entry = Entry(meta: TensorMeta, offset: nat, bytes: seq<byte>)

  /** The same without the bytes: what bucket_meta says about a chunk. */
  datatype Placed = Placed(meta: TensorMeta, offset: nat)

  type Bucket = seq<Entry>

  function Used(b: Bucket): nat {
    if b == [] then 0 else Used(b[..|b| - 1]) + |b[|b| - 1].bytes|
  }

  function MetaOf(b: Bucket): seq<Placed> {
    seq(|b|, i requires 0 <= i < |b| => Placed(b[i].meta, b[i].offset))
  }

  function ChunksOf(b: Bucket): seq<Chunk> {
    seq(|b|, i requires 0 <= i < |b| => Chunk(b[i].meta, b[i].bytes))
  }

  function Unpack(buckets: seq<Bucket>): seq<Chunk> {
    if buckets == [] then [] else ChunksOf(buckets[0]) + Unpack(buckets[1..])
  }

  predicate EntryPlaced(b: Bucket, i: nat)
    requires i < |b|
  {
    b[i].offset == Used(b[..i]) && |b[i].bytes| == b[i].meta.chunkSize
  }

  /** Entries lie behind each other without a gap, within the bucket. */
  ghost predicate WellPlaced(b: Bucket, bucketSize: nat) {
    && Used(b) <= bucketSize
    && forall i {:trigger EntryPlaced(b, i)} :: 0 <= i < |b| ==> EntryPlaced(b, i)
  }

  predicate EntryHeld(buffer: seq<byte>, e: Entry) {
    e.offset + |e.bytes| <= |buffer| && buffer[e.offset..e.offset + |e.bytes|] == e.bytes
  }

  /** A buffer that shows the bucket's chunks at their places, whatever else it contains. */
  ghost predicate Holds(buffer: seq<byte>, b: Bucket) {
    forall i {:trigger EntryHeld(buffer, b[i])} :: 0 <= i < |b| ==> EntryHeld(buffer, b[i])
  }

  /** The packing decision: start a new bucket when the chunk does not fit any more. */
  function Pack(chunks: seq<Chunk>, bucketSize: nat, current: Bucket): (buckets: seq<Bucket>)
    ensures buckets != []
  {
    if chunks == [] then [current]
    else
      var c := chunks[0];
      if Used(current) + c.meta.chunkSize > bucketSize then
        [current] + Pack(chunks[1..], bucketSize, [Entry(c.meta, 0, c.bytes)])
      else
        Pack(chunks[1..], bucketSize, current + [Entry(c.meta, Used(current), c.bytes)])
  }

  ghost predicate Fitting(chunks: seq<Chunk>, bucketSize: nat) {
    forall c :: c in chunks ==> c.Valid() && 1 <= c.meta.chunkSize <= bucketSize
  }

  // ----- what packing keeps -----

  lemma UsedSnoc(b: Bucket, e: Entry)
    ensures Used(b + [e]) == Used(b) + |e.bytes|
  {
    assert (b + [e])[..|b|] == b;
  }

  lemma WellPlacedSnoc(b: Bucket, c: Chunk, bucketSize: nat)
    requires WellPlaced(b, bucketSize) && c.Valid() && Used(b) + c.meta.chunkSize <= bucketSize
    ensures WellPlaced(b + [Entry(c.meta, Used(b), c.bytes)], bucketSize)
  {
    var next := b + [Entry(c.meta, Used(b), c.bytes)];
    UsedSnoc(b, next[|b|]);
    forall i | 0 <= i < |next|
      ensures EntryPlaced(next, i)
    {
      assert next[..i] == b[..i];
      assert b[..|b|] == b;
      assert i < |b| ==> EntryPlaced(b, i);
    }
  }

  /** Nothing overflows a bucket, nothing overlaps. */
  lemma {:induction false} PackIsWellPlaced(chunks: seq<Chunk>, bucketSize: nat, current: Bucket)
    requires Fitting(chunks, bucketSize) && WellPlaced(current, bucketSize)
    ensures forall b :: b in Pack(chunks, bucketSize, current) ==> WellPlaced(b, bucketSize)
  {
    if chunks != [] {
      var c := chunks[0];
      assert c in chunks;
      if Used(current) + c.meta.chunkSize > bucketSize {
        WellPlacedSnoc([], c, bucketSize);
        assert [] + [Entry(c.meta, 0, c.bytes)] == [Entry(c.meta, 0, c.bytes)];
        PackIsWellPlaced(chunks[1..], bucketSize, [Entry(c.meta, 0, c.bytes)]);
      } else {
        WellPlacedSnoc(current, c, bucketSize);
        PackIsWellPlaced(chunks[1..], bucketSize, current + [Entry(c.meta, Used(current), c.bytes)]);
      }
    }
  }

  /** Reading the buckets in order gives back the chunks, in order, once each. */
  lemma {:induction false} UnpackUndoesPack(chunks: seq<Chunk>, bucketSize: nat, current: Bucket)
    ensures Unpack(Pack(chunks, bucketSize, current)) == ChunksOf(current) + chunks
  {
    if chunks == [] {
      assert Unpack([current]) == ChunksOf(current) + Unpack([]);
    } else {
      var c := chunks[0];
      if Used(current) + c.meta.chunkSize > bucketSize {
        UnpackUndoesPack(chunks[1..], bucketSize, [Entry(c.meta, 0, c.bytes)]);
        assert ChunksOf([Entry(c.meta, 0, c.bytes)]) == [c];
        assert ChunksOf(current) + ([c] + chunks[1..]) == ChunksOf(current) + chunks;
      } else {
        var e := Entry(c.meta, Used(current), c.bytes);
        UnpackUndoesPack(chunks[1..], bucketSize, current + [e]);
        assert ChunksOf(current + [e]) == ChunksOf(current) + [c];
        assert (ChunksOf(current) + [c]) + chunks[1..] == ChunksOf(current) + chunks;
      }
    }
  }

  // ----- bucket_meta is keyed by name: no name twice in a bucket -----

  /** Of two chunks with one name, the earlier fills a whole bucket. */
  ghost predicate Spread(chunks: seq<Chunk>, bucketSize: nat) {
    forall i, j :: 0 <= i < j < |chunks| && chunks[i].meta.name == chunks[j].meta.name ==>
      |chunks[i].bytes| == bucketSize
  }

  ghost predicate NamesApart(b: Bucket, chunks: seq<Chunk>, bucketSize: nat) {
    forall e, c :: e in b && c in chunks && e.meta.name == c.meta.name ==> |e.bytes| == bucketSize
  }

  ghost predicate DistinctNames(b: Bucket) {
    forall i, j :: 0 <= i < j < |b| ==> b[i].meta.name != b[j].meta.name
  }

  lemma SpreadTail(chunks: seq<Chunk>, bucketSize: nat)
    requires Spread(chunks, bucketSize) && chunks != []
    ensures Spread(chunks[1..], bucketSize)
    ensures forall d :: d in chunks[1..] && d.meta.name == chunks[0].meta.name ==> |chunks[0].bytes| == bucketSize
  {
    forall i, j | 0 <= i < j < |chunks[1..]| && chunks[1..][i].meta.name == chunks[1..][j].meta.name
      ensures |chunks[1..][i].bytes| == bucketSize
    {
      assert chunks[1..][i] == chunks[i + 1] && chunks[1..][j] == chunks[j + 1];
    }
    forall d | d in chunks[1..] && d.meta.name == chunks[0].meta.name
      ensures |chunks[0].bytes| == bucketSize
    {
      var j :| 0 <= j < |chunks[1..]| && chunks[1..][j] == d;
      assert chunks[j + 1] == d;
    }
  }

  lemma {:induction false} EntryWithinUsed(b: Bucket, e: Entry)
    requires e in b
    ensures |e.bytes| <= Used(b)
  {
    if e != b[|b| - 1] {
      EntryWithinUsed(b[..|b| - 1], e);
    }
  }

  /** Both assertions of the send loop hold at every chunk to come: it fits behind the used part
      once the bucket has been changed if need be, and the bucket does not know its name. */
  ghost predicate Sendable(chunks: seq<Chunk>, bucketSize: nat, current: Bucket) {
    chunks != [] ==>
      var c := chunks[0];
      var place := if Used(current) + c.meta.chunkSize > bucketSize then [] else current;
      && c.Valid()
      && Used(place) + c.meta.chunkSize <= bucketSize
      && (forall e :: e in place ==> e.meta.name != c.meta.name)
      && Sendable(chunks[1..], bucketSize, place + [Entry(c.meta, Used(place), c.bytes)])
  }

  lemma {:induction false} SpreadIsSendable(chunks: seq<Chunk>, bucketSize: nat, current: Bucket)
    requires Fitting(chunks, bucketSize) && Spread(chunks, bucketSize)
    requires NamesApart(current, chunks, bucketSize)
    ensures Sendable(chunks, bucketSize, current)
  {
    if chunks != [] {
      var c := chunks[0];
      assert c in chunks;
      SpreadTail(chunks, bucketSize);
      var place := if Used(current) + c.meta.chunkSize > bucketSize then [] else current;
      forall e | e in place
        ensures e.meta.name != c.meta.name
      {
        EntryWithinUsed(current, e);
      }
      SpreadIsSendable(chunks[1..], bucketSize, place + [Entry(c.meta, Used(place), c.bytes)]);
    }
  }

  lemma {:induction false} SendableKeepsNamesDistinct(chunks: seq<Chunk>, bucketSize: nat, current: Bucket)
    requires Sendable(chunks, bucketSize, current) && DistinctNames(current)
    ensures forall b :: b in Pack(chunks, bucketSize, current) ==> DistinctNames(b)
  {
    if chunks != [] {
      var c := chunks[0];
      var place := if Used(current) + c.meta.chunkSize > bucketSize then [] else current;
      var next := place + [Entry(c.meta, Used(place), c.bytes)];
      assert forall i :: 0 <= i < |place| ==> place[i] in place;
      SendableKeepsNamesDistinct(chunks[1..], bucketSize, next);
      assert [] + [Entry(c.meta, 0, c.bytes)] == [Entry(c.meta, 0, c.bytes)];
    }
  }

  /** Both assertions of the send loop hold at every chunk if and only if every bucket has its names once. */
  lemma {:induction false} SendableIff(chunks: seq<Chunk>, bucketSize: nat, current: Bucket)
    requires Fitting(chunks, bucketSize) && DistinctNames(current)
    ensures Sendable(chunks, bucketSize, current) <==>
              forall b :: b in Pack(chunks, bucketSize, current) ==> DistinctNames(b)
  {
    if Sendable(chunks, bucketSize, current) {
      SendableKeepsNamesDistinct(chunks, bucketSize, current);
    } else {
      var c := chunks[0];
      assert c in chunks;
      var place := if Used(current) + c.meta.chunkSize > bucketSize then [] else current;
      var next := place + [Entry(c.meta, Used(place), c.bytes)];
      assert [] + [Entry(c.meta, 0, c.bytes)] == [Entry(c.meta, 0, c.bytes)];
      if k :| 0 <= k < |place| && place[k].meta.name == c.meta.name {
        assert next[k].meta.name == next[|place|].meta.name;
        RepeatedNameStays(chunks[1..], bucketSize, next);
      } else {
        SendableIff(chunks[1..], bucketSize, next);
      }
    }
  }

  /** A bucket that has a name twice is not repaired by what follows. */
  lemma {:induction false} RepeatedNameStays(chunks: seq<Chunk>, bucketSize: nat, current: Bucket)
    requires !DistinctNames(current)
    ensures exists b :: b in Pack(chunks, bucketSize, current) && !DistinctNames(b)
  {
    if chunks == [] {
      assert current in Pack(chunks, bucketSize, current);
    } else {
      var c := chunks[0];
      if Used(current) + c.meta.chunkSize > bucketSize {
        assert current in Pack(chunks, bucketSize, current);
      } else {
        var next := current + [Entry(c.meta, Used(current), c.bytes)];
        var i, j :| 0 <= i < j < |current| && current[i].meta.name == current[j].meta.name;
        assert next[i].meta.name == next[j].meta.name;
        RepeatedNameStays(chunks[1..], bucketSize, next);
      }
    }
  }

  ghost predicate DistinctWeights(ws: seq<Weight>) {
    forall i, j :: 0 <= i < j < |ws| ==> ws[i].name != ws[j].name
  }

  lemma {:induction false} ChunksFromFit(w: Weight, bucketSize: nat, at: nat)
    requires 0 < bucketSize && at <= |w.bytes|
    ensures Fitting(ChunksFrom(w, bucketSize, at), bucketSize) && Spread(ChunksFrom(w, bucketSize, at), bucketSize)
    ensures forall c :: c in ChunksFrom(w, bucketSize, at) ==> c.meta.name == w.name
    decreases |w.bytes| - at
  {
    if at < |w.bytes| {
      var c := ChunkAt(w, bucketSize, at);
      ChunksFromFit(w, bucketSize, at + c.meta.chunkSize);
      var rest := ChunksFrom(w, bucketSize, at + c.meta.chunkSize);
      assert ChunksFrom(w, bucketSize, at) == [c] + rest;
    }
  }

  lemma {:induction false} SplitFits(ws: seq<Weight>, bucketSize: nat)
    requires 0 < bucketSize
    ensures Fitting(Split(ws, bucketSize), bucketSize)
    ensures forall c :: c in Split(ws, bucketSize) ==> exists w :: w in ws && w.name == c.meta.name
    ensures DistinctWeights(ws) ==> Spread(Split(ws, bucketSize), bucketSize)
  {
    if ws != [] {
      var first, rest := ChunksFrom(ws[0], bucketSize, 0), Split(ws[1..], bucketSize);
      ChunksFromFit(ws[0], bucketSize, 0);
      SplitFits(ws[1..], bucketSize);
      forall c: Chunk | c in first + rest
        ensures exists w: Weight :: w in ws && w.name == c.meta.name
      {
        if c in first {
          assert ws[0] in ws;
        } else {
          var w :| w in ws[1..] && w.name == c.meta.name;
          assert w in ws;
        }
      }
      if DistinctWeights(ws) {
        forall i, j | 0 <= i < |first| && 0 <= j < |rest|
          ensures first[i].meta.name != rest[j].meta.name
        {
          assert first[i] in first && rest[j] in rest;
          var w :| w in ws[1..] && w.name == rest[j].meta.name;
        }
        forall i, j | 0 <= i < j < |first + rest| && (first + rest)[i].meta.name == (first + rest)[j].meta.name
          ensures |(first + rest)[i].bytes| == bucketSize
        {
          if |first| <= i {
            assert (first + rest)[i] == rest[i - |first|] && (first + rest)[j] == rest[j - |first|];
          } else if j < |first| {
            assert (first + rest)[i] == first[i] && (first + rest)[j] == first[j];
          }
        }
      }
    }
  }

  /** No two chunks of one weight share a bucket, so bucket_meta, keyed by name, loses nothing. */
  lemma NamesDistinctInBuckets(ws: seq<Weight>, bucketSize: nat)
    requires 0 < bucketSize && DistinctWeights(ws)
    ensures Sendable(Split(ws, bucketSize), bucketSize, [])
    ensures forall b :: b in Pack(Split(ws, bucketSize), bucketSize, []) ==> DistinctNames(b)
  {
    SplitFits(ws, bucketSize);
    SpreadIsSendable(Split(ws, bucketSize), bucketSize, []);
    SendableKeepsNamesDistinct(Split(ws, bucketSize), bucketSize, []);
  }

  /** The send loop goes through all of the weights without failing an assertion. */
  ghost predicate Accepted(ws: seq<Weight>, bucketSize: nat)
    requires 0 < bucketSize
  {
    Sendable(Split(ws, bucketSize), bucketSize, [])
  }

  /** It does if and only if no bucket has a name twice, which distinct names of the weights are enough for. */
  lemma AcceptedIff(ws: seq<Weight>, bucketSize: nat)
    requires 0 < bucketSize
    ensures Accepted(ws, bucketSize) <==>
              forall b :: b in Pack(Split(ws, bucketSize), bucketSize, []) ==> DistinctNames(b)
    ensures DistinctWeights(ws) ==> Accepted(ws, bucketSize)
  {
    SplitFits(ws, bucketSize);
    SendableIff(Split(ws, bucketSize), bucketSize, []);
    if DistinctWeights(ws) {
      NamesDistinctInBuckets(ws, bucketSize);
    }
  }

  // ----- how many buckets -----

  function Payload(buckets: seq<Bucket>): nat {
    if buckets == [] then 0 else Used(buckets[0]) + Payload(buckets[1..])
  }

  lemma {:induction false} PackStartsWith(chunks: seq<Chunk>, bucketSize: nat, current: Bucket)
    requires Fitting(chunks, bucketSize)
    ensures Used(Pack(chunks, bucketSize, current)[0]) >= Used(current)
  {
    if chunks != [] && Used(current) + chunks[0].meta.chunkSize <= bucketSize {
      var e := Entry(chunks[0].meta, Used(current), chunks[0].bytes);
      UsedSnoc(current, e);
      PackStartsWith(chunks[1..], bucketSize, current + [e]);
    }
  }

  ghost predicate Overflowing(buckets: seq<Bucket>, bucketSize: nat) {
    forall i :: 0 <= i < |buckets| - 1 ==> Used(buckets[i]) + Used(buckets[i + 1]) > bucketSize
  }

  lemma OverflowingCons(first: Bucket, rest: seq<Bucket>, bucketSize: nat)
    requires rest != [] && Used(first) + Used(rest[0]) > bucketSize && Overflowing(rest, bucketSize)
    ensures Overflowing([first] + rest, bucketSize)
  {
    var bs := [first] + rest;
    forall i | 0 <= i < |bs| - 1
      ensures Used(bs[i]) + Used(bs[i + 1]) > bucketSize
    {
      if i > 0 {
        assert bs[i] == rest[i - 1] && bs[i + 1] == rest[i];
      }
    }
  }

  /** Two neighbouring buckets never fit into one: the packing wastes less than half. */
  lemma {:induction false} NeighboursOverflow(chunks: seq<Chunk>, bucketSize: nat, current: Bucket)
    requires Fitting(chunks, bucketSize)
    ensures Overflowing(Pack(chunks, bucketSize, current), bucketSize)
  {
    if chunks != [] {
      var c := chunks[0];
      assert c in chunks;
      if Used(current) + c.meta.chunkSize > bucketSize {
        var e := Entry(c.meta, 0, c.bytes);
        var rest := Pack(chunks[1..], bucketSize, [e]);
        NeighboursOverflow(chunks[1..], bucketSize, [e]);
        PackStartsWith(chunks[1..], bucketSize, [e]);
        UsedSnoc([], e);
        assert [] + [e] == [e];
        OverflowingCons(current, rest, bucketSize);
      } else {
        var e := Entry(c.meta, Used(current), c.bytes);
        NeighboursOverflow(chunks[1..], bucketSize, current + [e]);
        assert Pack(chunks, bucketSize, current) == Pack(chunks[1..], bucketSize, current + [e]);
      }
    }
  }

  /** Every bucket from the second on begins with a chunk that the bucket before had no room for. */
  ghost predicate StartsWhenFull(buckets: seq<Bucket>, bucketSize: nat) {
    forall k {:trigger FullBefore(buckets, bucketSize, k)} :: 0 < k < |buckets| ==> FullBefore(buckets, bucketSize, k)
  }

  predicate FullBefore(buckets: seq<Bucket>, bucketSize: nat, k: nat)
    requires 0 < k < |buckets|
  {
    buckets[k] != [] && Used(buckets[k - 1]) + |buckets[k][0].bytes| > bucketSize
  }

  lemma StartsWhenFullCons(first: Bucket, rest: seq<Bucket>, bucketSize: nat)
    requires StartsWhenFull(rest, bucketSize)
    requires rest != [] && rest[0] != [] && Used(first) + |rest[0][0].bytes| > bucketSize
    ensures StartsWhenFull([first] + rest, bucketSize)
  {
    var all := [first] + rest;
    forall k | 0 < k < |all|
      ensures FullBefore(all, bucketSize, k)
    {
      if k > 1 {
        assert FullBefore(rest, bucketSize, k - 1);
        assert all[k] == rest[k - 1] && all[k - 1] == rest[k - 2];
      }
    }
  }

  lemma {:induction false} PackFills(chunks: seq<Chunk>, bucketSize: nat, current: Bucket)
    requires Fitting(chunks, bucketSize)
    ensures StartsWhenFull(Pack(chunks, bucketSize, current), bucketSize)
    ensures current <= Pack(chunks, bucketSize, current)[0]
  {
    if chunks != [] {
      var c := chunks[0];
      assert c in chunks;
      if Used(current) + c.meta.chunkSize > bucketSize {
        var e := Entry(c.meta, 0, c.bytes);
        var rest := Pack(chunks[1..], bucketSize, [e]);
        PackFills(chunks[1..], bucketSize, [e]);
        StartsWhenFullCons(current, rest, bucketSize);
      } else {
        var e := Entry(c.meta, Used(current), c.bytes);
        PackFills(chunks[1..], bucketSize, current + [e]);
        assert Pack(chunks, bucketSize, current) == Pack(chunks[1..], bucketSize, current + [e]);
      }
    }
  }

  lemma {:induction false} UsedGrows(b: Bucket, i: nat)
    requires i <= |b|
    ensures Used(b[..i]) <= Used(b)
  {
    if i == |b| {
      assert b[..i] == b;
    } else {
      UsedGrows(b[..|b| - 1], i);
      assert b[..|b| - 1][..i] == b[..i];
    }
  }

  /** Entry i begins where the one before ends, and ends where the used part up to it does. */
  lemma EntryBounds(b: Bucket, bucketSize: nat, i: nat)
    requires WellPlaced(b, bucketSize) && i < |b|
    ensures b[i].offset == if i == 0 then 0 else b[i - 1].offset + |b[i - 1].bytes|
    ensures b[i].offset + |b[i].bytes| == Used(b[..i + 1]) <= bucketSize
  {
    assert EntryPlaced(b, i);
    assert b[..i + 1][..i] == b[..i];
    UsedGrows(b, i + 1);
    if i > 0 {
      assert EntryPlaced(b, i - 1);
      assert b[..i][..i - 1] == b[..i - 1];
    }
  }

  /** The buckets of any list of weights: chunks from offset 0 on without gap or overlap, none beyond the capacity, and
      a next bucket only for a chunk that would go beyond it. */
  lemma PackedBackToBack(ws: seq<Weight>, bucketSize: nat, k: nat, i: nat)
    requires 0 < bucketSize
    requires var bs := Pack(Split(ws, bucketSize), bucketSize, []); k < |bs| && i < |bs[k]|
    ensures var bs := Pack(Split(ws, bucketSize), bucketSize, []);
            var b := bs[k];
            && b[i].offset == (if i == 0 then 0 else b[i - 1].offset + |b[i - 1].bytes|)
            && b[i].offset + |b[i].bytes| <= bucketSize
            && (i + 1 == |b| && k + 1 < |bs| ==>
                  bs[k + 1] != [] && b[i].offset + |b[i].bytes| + |bs[k + 1][0].bytes| > bucketSize)
  {
    var chunks := Split(ws, bucketSize);
    var bs := Pack(chunks, bucketSize, []);
    SplitFits(ws, bucketSize);
    PackIsWellPlaced(chunks, bucketSize, []);
    PackFills(chunks, bucketSize, []);
    assert bs[k] in bs;
    assert k + 1 < |bs| ==> FullBefore(bs, bucketSize, k + 1);
    EntryBounds(bs[k], bucketSize, i);
    assert bs[k][..|bs[k]|] == bs[k];
  }

  lemma {:induction false} PayloadAtMost(buckets: seq<Bucket>, bucketSize: nat)
    requires forall b :: b in buckets ==> Used(b) <= bucketSize
    ensures Payload(buckets) <= |buckets| * bucketSize
  {
    if buckets != [] {
      assert buckets[0] in buckets;
      PayloadAtMost(buckets[1..], bucketSize);
      MulStep(|buckets| - 1, bucketSize);
    }
  }

  lemma {:induction false} PayloadAtLeast(buckets: seq<Bucket>, bucketSize: nat)
    requires |buckets| >= 2
    requires Overflowing(buckets, bucketSize)
    ensures (|buckets| - 1) * bucketSize + Used(buckets[0]) < 2 * Payload(buckets)
  {
    var rest := buckets[1..];
    assert Payload(buckets) == Used(buckets[0]) + Payload(rest);
    assert rest[0] == buckets[1];
    assert Payload(rest) == Used(rest[0]) + Payload(rest[1..]);
    assert Used(buckets[0]) + Used(buckets[1]) > bucketSize;
    MulStep(|rest| - 1, bucketSize);
    if |rest| >= 2 {
      forall i | 0 <= i < |rest| - 1
        ensures Used(rest[i]) + Used(rest[i + 1]) > bucketSize
      {
        assert rest[i] == buckets[i + 1] && rest[i + 1] == buckets[i + 2];
      }
      PayloadAtLeast(rest, bucketSize);
    }
  }

  /** k buckets of capacity B carrying T bytes: T <= k B, and (k - 1) B < 2 T as soon as there are two. */
  lemma {:induction false} BucketCount(chunks: seq<Chunk>, bucketSize: nat)
    requires Fitting(chunks, bucketSize)
    ensures var bs := Pack(chunks, bucketSize, []);
            && Payload(bs) == |ChunkBytes(chunks)|
            && |ChunkBytes(chunks)| <= |bs| * bucketSize
            && (|bs| >= 2 ==> (|bs| - 1) * bucketSize < 2 * |ChunkBytes(chunks)|)
  {
    PackIsWellPlaced(chunks, bucketSize, []);
    NeighboursOverflow(chunks, bucketSize, []);
    PayloadAtMost(Pack(chunks, bucketSize, []), bucketSize);
    if |Pack(chunks, bucketSize, [])| >= 2 {
      PayloadAtLeast(Pack(chunks, bucketSize, []), bucketSize);
    }
    PayloadIsBytes(chunks, bucketSize, []);
  }

  lemma {:induction false} PayloadIsBytes(chunks: seq<Chunk>, bucketSize: nat, current: Bucket)
    requires Fitting(chunks, bucketSize)
    ensures Payload(Pack(chunks, bucketSize, current)) == Used(current) + |ChunkBytes(chunks)|
  {
    if chunks == [] {
      assert Payload([current]) == Used(current) + Payload([]);
    } else {
      var c := chunks[0];
      var place := if Used(current) + c.meta.chunkSize > bucketSize then [] else current;
      var e := Entry(c.meta, Used(place), c.bytes);
      UsedSnoc(place, e);
      PayloadIsBytes(chunks[1..], bucketSize, place + [e]);
      assert [] + [e] == [e];
    }
  }

  // ----- alignment -----

  /** What comes behind chunks whose sizes are all multiples of a number lies at a multiple of it. */
  lemma {:induction false} OffsetsAreAligned(b: Bucket, item: nat)
    requires 0 < item
    requires forall e :: e in b ==> |e.bytes| % item == 0
    ensures Used(b) % item == 0
  {
    if b != [] {
      OffsetsAreAligned(b[..|b| - 1], item);
      SumDivides(Used(b[..|b| - 1]), |b[|b| - 1].bytes|, item);
    }
  }

  lemma SumDivides(a: nat, b: nat, item: nat)
    requires 0 < item && a % item == 0 && b % item == 0
    ensures (a + b) % item == 0
  {
    assert a == a / item * item && b == b / item * item;
    Distribute(a / item, b / item, item);
    DivUnique(a / item + b / item, item, 0);
  }

  // ----- the send loop -----

  /** What a receiver can see of one published bucket. */
  datatype Publication = Publication(meta: seq<Placed>, isLast: bool, image: seq<byte>)

  ghost predicate Shows(p: Publication, b: Bucket, isLast: bool) {
    p.meta == MetaOf(b) && p.isLast == isLast && Holds(p.image, b)
  }

  ghost predicate ShownAs(p: Publication, b: Bucket, isLast: bool, bucketSize: nat) {
    Shows(p, b, isLast) && |p.image| == bucketSize
  }

  ghost predicate AllShown(published: seq<Publication>, full: seq<Bucket>, bucketSize: nat) {
    && |published| == |full|
    && forall k {:trigger ShownAs(published[k], full[k], false, bucketSize)} :: 0 <= k < |full| ==>
         ShownAs(published[k], full[k], false, bucketSize)
  }

  /** All buckets have been published in order, the last one marked. */
  ghost predicate ShowsAll(published: seq<Publication>, buckets: seq<Bucket>, bucketSize: nat) {
    && |published| == |buckets|
    && forall k :: 0 <= k < |buckets| ==> ShownAs(published[k], buckets[k], k == |buckets| - 1, bucketSize)
  }

  /** Where the packing stands: `full` is packed, `current` is being filled, `rest` is to come. */
  ghost predicate Packing(buckets: seq<Bucket>, full: seq<Bucket>, current: Bucket, rest: seq<Chunk>, bucketSize: nat) {
    && buckets == full + Pack(rest, bucketSize, current)
    && Sendable(rest, bucketSize, current)
    && WellPlaced(current, bucketSize)
  }

  /** The variables of the loop agree with the bucket being filled. */
  ghost predicate Tracks(current: Bucket, bucketMeta: seq<Placed>, offset: nat, image: seq<byte>) {
    bucketMeta == MetaOf(current) && offset == Used(current) && Holds(image, current)
  }

  lemma Flush(buckets: seq<Bucket>, full: seq<Bucket>, current: Bucket, rest: seq<Chunk>, bucketSize: nat)
    requires Packing(buckets, full, current, rest, bucketSize)
    requires rest != [] && Used(current) + rest[0].meta.chunkSize > bucketSize
    ensures Packing(buckets, full + [current], [], rest, bucketSize)
  {
    var e := Entry(rest[0].meta, 0, rest[0].bytes);
    assert [] + [e] == [e];
    assert (full + [current]) + Pack(rest, bucketSize, []) == full + ([current] + Pack(rest, bucketSize, []));
  }

  lemma ShowNext(published: seq<Publication>, full: seq<Bucket>, p: Publication, b: Bucket, bucketSize: nat)
    requires AllShown(published, full, bucketSize) && Shows(p, b, false) && |p.image| == bucketSize
    ensures AllShown(published + [p], full + [b], bucketSize)
  {
    forall k | 0 <= k <= |full|
      ensures ShownAs((published + [p])[k], (full + [b])[k], false, bucketSize)
    {
      assert k < |full| ==> ShownAs(published[k], full[k], false, bucketSize);
    }
  }

  lemma ShowLast(published: seq<Publication>, full: seq<Bucket>, p: Publication, b: Bucket, bucketSize: nat)
    requires AllShown(published, full, bucketSize) && Shows(p, b, true) && |p.image| == bucketSize
    ensures ShowsAll(published + [p], full + [b], bucketSize)
  {
    forall k | 0 <= k <= |full|
      ensures ShownAs((published + [p])[k], (full + [b])[k], k == |full|, bucketSize)
    {
      assert k < |full| ==> ShownAs(published[k], full[k], false, bucketSize);
    }
  }

  lemma Append(buckets: seq<Bucket>, full: seq<Bucket>, current: Bucket, rest: seq<Chunk>, bucketSize: nat)
    requires Packing(buckets, full, current, rest, bucketSize)
    requires rest != [] && Used(current) + rest[0].meta.chunkSize <= bucketSize
    ensures Packing(buckets, full, current + [Entry(rest[0].meta, Used(current), rest[0].bytes)], rest[1..], bucketSize)
  {
    WellPlacedSnoc(current, rest[0], bucketSize);
  }

  /** Writing behind the used part leaves the entries already there alone. */
  lemma {:induction false} UsedIsMonotone(b: Bucket, i: nat)
    requires i < |b|
    ensures Used(b[..i]) + |b[i].bytes| <= Used(b)
    decreases |b| - i
  {
    assert b[..i + 1][..i] == b[..i];
    if i + 1 < |b| {
      UsedIsMonotone(b, i + 1);
    } else {
      assert b[..i] == b[..|b| - 1];
    }
  }

  lemma SliceUntouched(before: seq<byte>, after: seq<byte>, lo: nat, hi: nat, at: nat)
    requires lo <= hi <= at <= |before| && at <= |after| && after[..at] == before[..at]
    ensures after[lo..hi] == before[lo..hi]
  {
    assert after[lo..hi] == after[..at][lo..hi] == before[..at][lo..hi] == before[lo..hi];
  }

  lemma EntryEndsBefore(b: Bucket, i: nat, bucketSize: nat)
    requires WellPlaced(b, bucketSize) && i < |b|
    ensures b[i].offset + |b[i].bytes| <= Used(b)
  {
    assert EntryPlaced(b, i);
    UsedIsMonotone(b, i);
  }

  lemma EntryStaysHeld(before: seq<byte>, after: seq<byte>, e: Entry, used: nat)
    requires EntryHeld(before, e) && e.offset + |e.bytes| <= used <= |before| && used <= |after|
    requires after[..used] == before[..used]
    ensures EntryHeld(after, e)
  {
    SliceUntouched(before, after, e.offset, e.offset + |e.bytes|, used);
  }

  lemma HoldsAfterAppend(before: seq<byte>, after: seq<byte>, b: Bucket, e: Entry, bucketSize: nat)
    requires WellPlaced(b, bucketSize) && Holds(before, b)
    requires e.offset == Used(b) && Used(b) + |e.bytes| <= |before|
    requires after == Overwrite(before, e.offset, e.bytes)
    ensures Holds(after, b + [e])
  {
    var next := b + [e];
    assert after[..e.offset] == before[..e.offset];
    assert EntryHeld(after, e);
    forall i | 0 <= i < |next|
      ensures EntryHeld(after, next[i])
    {
      if i < |b| {
        EntryEndsBefore(b, i, bucketSize);
        assert EntryHeld(before, b[i]);
        EntryStaysHeld(before, after, b[i], e.offset);
      }
    }
  }

  /** One turn of the loop seen from the bucket: bookkeeping and bytes agree again after the write. */
  lemma Placing(before: seq<byte>, after: seq<byte>, b: Bucket, c: Chunk, bucketSize: nat)
    requires WellPlaced(b, bucketSize) && Holds(before, b)
    requires Used(b) + |c.bytes| <= |before|
    requires after == Overwrite(before, Used(b), c.bytes)
    ensures var next := b + [Entry(c.meta, Used(b), c.bytes)];
            && Holds(after, next)
            && MetaOf(next) == MetaOf(b) + [Placed(c.meta, Used(b))]
            && Used(next) == Used(b) + |c.bytes|
  {
    var e := Entry(c.meta, Used(b), c.bytes);
    HoldsAfterAppend(before, after, b, e, bucketSize);
    UsedSnoc(b, e);
    var x, y := MetaOf(b + [e]), MetaOf(b) + [Placed(c.meta, Used(b))];
    assert |x| == |y| && forall i :: 0 <= i < |x| ==> x[i] == y[i];
  }

  /** The second assertion of the send loop. */
  predicate NameIsNew(bucketMeta: seq<Placed>, c: Chunk) {
    forall k :: 0 <= k < |bucketMeta| ==> bucketMeta[k].meta.name != c.meta.name
  }

  lemma RoomIsEnough(buckets: seq<Bucket>, full: seq<Bucket>, current: Bucket, rest: seq<Chunk>,
                     bucketMeta: seq<Placed>, bucketSize: nat)
    requires Packing(buckets, full, current, rest, bucketSize) && rest != [] && bucketMeta == MetaOf(current)
    requires current == [] || Used(current) + rest[0].meta.chunkSize <= bucketSize
    ensures rest[0].Valid() && Used(current) + rest[0].meta.chunkSize <= bucketSize && NameIsNew(bucketMeta, rest[0])
  {
    forall k | 0 <= k < |bucketMeta|
      ensures bucketMeta[k].meta.name != rest[0].meta.name
    {
      assert current[k] in current;
    }
  }

  lemma ChunkFits(buckets: seq<Bucket>, full: seq<Bucket>, current: Bucket, rest: seq<Chunk>, bucketSize: nat)
    requires Packing(buckets, full, current, rest, bucketSize) && rest != []
    ensures rest[0].Valid() && WellPlaced(current, bucketSize)
  {
  }

  lemma PackingStarts(ws: seq<Weight>, bucketSize: nat)
    requires 0 < bucketSize && Accepted(ws, bucketSize)
    ensures Packing(Pack(Split(ws, bucketSize), bucketSize, []), [], [], Split(ws, bucketSize), bucketSize)
  {
  }

  /** A broadcast that is under way: it has read the first bytes of its buffer and is going to read the others. */
  datatype Broadcast = Broadcast(buffer: array<byte>, meta: seq<Placed>, sent: seq<byte>)

  /** All buckets but the last have been received; the last one is being read from recv_buf, where it still is. */
  ghost predicate Broadcasting(running: Option<Broadcast>, recvBuf: array<byte>, image: seq<byte>,
                               received: seq<Publication>, full: seq<Bucket>, bucketSize: nat) {
    match running
    case None => AllShown(received, full, bucketSize)
    case Some(op) =>
      && op.buffer == recvBuf && op.sent <= image
      && full != [] && AllShown(received, full[..|full| - 1], bucketSize)
      && op.meta == MetaOf(full[|full| - 1]) && Holds(image, full[|full| - 1])
  }

  /** The end of the loop body on the buffer and the variables it names. */
  method Place(sendBuf: array<byte>, bucketMeta: seq<Placed>, offset: nat, c: Chunk, ghost current: Bucket,
               ghost bucketSize: nat)
    returns (newMeta: seq<Placed>, newOffset: nat)
    requires WellPlaced(current, bucketSize) && Tracks(current, bucketMeta, offset, sendBuf[..])
    requires c.Valid() && offset + c.meta.chunkSize <= sendBuf.Length
    modifies sendBuf
    ensures Tracks(current + [Entry(c.meta, Used(current), c.bytes)], newMeta, newOffset, sendBuf[..])
  {
    ghost var before := sendBuf[..];
    CopyInto(sendBuf, offset, c.bytes);
    Placing(before, sendBuf[..], current, c, bucketSize);
    newMeta, newOffset := bucketMeta + [Placed(c.meta, offset)], offset + c.meta.chunkSize;
  }

  /** The variables of send_weights. */
  class BucketSender {
    const bucketSize: nat
    var sendBuf: array<byte>
    var recvBuf: array<byte>
    var bucketMeta: seq<Placed>
    var offset: nat
    var running: Option<Broadcast>
    var received: seq<Publication>  // what the receivers have got from the broadcasts that are complete

    ghost const buckets: seq<Bucket>  // the packing of all chunks
    ghost var full: seq<Bucket>       // what has been broadcast or is being so
    ghost var current: Bucket         // what is in send_buf
    ghost var rest: seq<Chunk>        // what is still to come

    ghost predicate Valid()
      reads this, sendBuf, recvBuf
    {
      && sendBuf != recvBuf && sendBuf.Length == recvBuf.Length == bucketSize
      && Packing(buckets, full, current, rest, bucketSize)
      && Tracks(current, bucketMeta, offset, sendBuf[..])
      && Broadcasting(running, recvBuf, recvBuf[..], received, full, bucketSize)
    }

    constructor (ws: seq<Weight>, bucketSize: nat, bufferA: array<byte>, bufferB: array<byte>)
      requires 0 < bucketSize == bufferA.Length == bufferB.Length && bufferA != bufferB && Accepted(ws, bucketSize)
      ensures Valid() && sendBuf == bufferA && recvBuf == bufferB && this.bucketSize == bucketSize
      ensures buckets == Pack(Split(ws, bucketSize), bucketSize, []) && rest == Split(ws, bucketSize)
    {
      this.bucketSize := bucketSize;
      sendBuf, recvBuf, bucketMeta, offset, running, received := bufferA, bufferB, [], 0, None, [];
      buckets, full, current, rest := Pack(Split(ws, bucketSize), bucketSize, []), [], [], Split(ws, bucketSize);
      new;
      PackingStarts(ws, bucketSize);
    }

    /** wait_for_complete: the broadcast reads the rest of its buffer, as it is by now. */
    method WaitForComplete()
      requires Valid() && running.Some?
      modifies this`running, this`received
      ensures Valid() && running.None?
    {
      var op := running.value;
      var image := op.sent + op.buffer[|op.sent|..];
      assert image == op.buffer[..];
      var p := Publication(op.meta, false, image);
      ShowNext(received, full[..|full| - 1], p, full[|full| - 1], bucketSize);
      assert full[..|full| - 1] + [full[|full| - 1]] == full;
      received, running := received + [p], None;
    }

    /** Broadcast the filled bucket and go on with the other buffer. The broadcast reads `early` bytes at once. */
    method StartBroadcast(early: nat)
      requires Valid() && running.None? && rest != [] && offset + rest[0].meta.chunkSize > bucketSize
      modifies this`sendBuf, this`recvBuf, this`bucketMeta, this`offset, this`running, this`full, this`current
      ensures Valid() && current == [] && sendBuf == old(recvBuf) && recvBuf == old(sendBuf)
    {
      Flush(buckets, full, current, rest, bucketSize);
      running := Some(Broadcast(sendBuf, bucketMeta, sendBuf[..Min(early, bucketSize)]));
      full := full + [current];
      assert full[..|full| - 1] == old(full);
      sendBuf, recvBuf := recvBuf, sendBuf;
      bucketMeta, offset, current := [], 0, [];
    }

    /** The end of the loop body: record the chunk and copy it behind the used part. */
    method PlaceChunk(c: Chunk)
      requires Valid() && rest != [] && c == rest[0] && offset + c.meta.chunkSize <= bucketSize
      modifies this`bucketMeta, this`offset, this`current, this`rest, sendBuf
      ensures Valid() && rest == old(rest)[1..]
    {
      ChunkFits(buckets, full, current, rest, bucketSize);
      bucketMeta, offset := Place(sendBuf, bucketMeta, offset, c, current, bucketSize);
      assert recvBuf[..] == old(recvBuf[..]);
      Advance();
    }

    /** The chunk is in the buffer: the packing moves on. */
    ghost method Advance()
      requires sendBuf != recvBuf && sendBuf.Length == recvBuf.Length == bucketSize
      requires Packing(buckets, full, current, rest, bucketSize) && rest != []
      requires Used(current) + rest[0].meta.chunkSize <= bucketSize
      requires Tracks(current + [Entry(rest[0].meta, Used(current), rest[0].bytes)], bucketMeta, offset, sendBuf[..])
      requires Broadcasting(running, recvBuf, recvBuf[..], received, full, bucketSize)
      modifies this`current, this`rest
      ensures Valid() && rest == old(rest)[1..]
    {
      Append(buckets, full, current, rest, bucketSize);
      current, rest := current + [Entry(rest[0].meta, Used(current), rest[0].bytes)], rest[1..];
    }

    /** The loop body: when the chunk does not fit, wait for the broadcast before and start the next; then place it.
        Both assertions hold. */
    method SendChunk(c: Chunk, early: nat)
      requires Valid() && rest != [] && c == rest[0]
      modifies this`sendBuf, this`recvBuf, this`bucketMeta, this`offset, this`running, this`received, this`full,
               this`current, this`rest, sendBuf, recvBuf
      ensures Valid() && rest == old(rest)[1..] && {sendBuf, recvBuf} == old({sendBuf, recvBuf})
    {
      if offset + c.meta.chunkSize > bucketSize {
        if running.Some? {
          WaitForComplete();
        }
        StartBroadcast(early);
      }
      RoomIsEnough(buckets, full, current, rest, bucketMeta, bucketSize);
      assert offset + c.meta.chunkSize <= bucketSize;
      assert NameIsNew(bucketMeta, c);
      PlaceChunk(c);
    }

    /** Behind the loop: the last bucket, marked as such. */
    method SendLast(early: nat)
      requires Valid() && rest == []
      modifies this`running, this`received
      ensures ShowsAll(received, buckets, bucketSize)
    {
      if running.Some? {
        WaitForComplete();
      }
      assert buckets == full + [current];
      var sent := sendBuf[..Min(early, bucketSize)];
      var p := Publication(bucketMeta, true, sent + sendBuf[|sent|..]);
      assert p.image == sendBuf[..];
      ShowLast(received, full, p, current, bucketSize);
      received := received + [p];
    }
  }

  /** send_weights over its two buffers, whatever part of a bucket each broadcast reads at once (`early`) and whatever
      only when it is waited for. What the receivers get is exactly the packing of the split weights. */
  method SendWeights(ws: seq<Weight>, bucketSize: nat, early: nat -> nat, bufferA: array<byte>, bufferB: array<byte>)
    returns (published: seq<Publication>)
    requires 0 < bucketSize == bufferA.Length == bufferB.Length && bufferA != bufferB
    requires Accepted(ws, bucketSize)
    modifies bufferA, bufferB
    ensures ShowsAll(published, Pack(Split(ws, bucketSize), bucketSize, []), bucketSize)
  {
    var chunks := SplitWeightChunks(ws, bucketSize);
    var sender := new BucketSender(ws, bucketSize, bufferA, bufferB);
    for i := 0 to |chunks|
      invariant sender.Valid() && fresh(sender) && {sender.sendBuf, sender.recvBuf} == {bufferA, bufferB}
      invariant sender.rest == chunks[i..] && sender.bucketSize == bucketSize
      invariant sender.buckets == Pack(chunks, bucketSize, [])
    {
      sender.SendChunk(chunks[i], early(i));
    }
    sender.SendLast(early(|chunks|));
    published := sender.received;
  }
}
