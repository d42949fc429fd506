/** End to end: the trainer's weights through the chunks, the buckets and either transport, to the rollout ranks. */
module WeightTransfer {
  import opened Arithmetic
  import opened Buffers
  import opened Wrappers
  import opened WeightChunks
  import opened WeightBuckets
  import opened NixlChain
  import opened NixlChainSafety
  import opened NixlChainResults

  // ----- the relay chain -----

  /** The chain that sends these weights: its buckets are what the trainer's send loop packs. */
  function ChainFor(ws: seq<Weight>, bucketSize: nat, relays: nat): Config
    requires 0 < bucketSize
  {
    Config(Pack(Split(ws, bucketSize), bucketSize, []), bucketSize, relays)
  }

  lemma ChainForIsValid(ws: seq<Weight>, bucketSize: nat, relays: nat)
    requires 0 < bucketSize && 1 <= relays
    ensures ChainFor(ws, bucketSize, relays).Valid() <==> Accepted(ws, bucketSize)
    ensures Unpack(ChainFor(ws, bucketSize, relays).buckets) == Split(ws, bucketSize)
  {
    var chunks := Split(ws, bucketSize);
    AcceptedIff(ws, bucketSize);
    SplitFits(ws, bucketSize);
    PackIsWellPlaced(chunks, bucketSize, []);
    UnpackUndoesPack(chunks, bucketSize, []);
    assert ChunksOf([]) + chunks == chunks;
  }

  /** At any moment of any execution, merging what a relay has yielded so far raises no error and gives an initial
      part of the trainer's non-empty weights; when the chain is done it gives all of them, nothing left over. */
  lemma ChainTransfersWeights(ws: seq<Weight>, bucketSize: nat, relays: nat, s: State, i: nat)
    requires AllValid(ws) && 0 < bucketSize && 1 <= relays && Accepted(ws, bucketSize)
    requires Reachable(ChainFor(ws, bucketSize, relays), s) && 0 < i < |s.ranks|
    ensures var merged := Merge(s.ranks[i].yielded, bucketSize, START);
            && merged.Some?
            && merged.value.yielded <= NonEmpty(ws)
            && (s.ranks[i].phase.Done? ==> merged.value == MergeState(None, NonEmpty(ws)))
  {
    var c, chunks, yielded := ChainFor(ws, bucketSize, relays), Split(ws, bucketSize), s.ranks[i].yielded;
    ChainForIsValid(ws, bucketSize, relays);
    YieldsTheSendersChunks(c, s, i);
    MergeUndoesSplit(ws, bucketSize, []);
    assert [] + NonEmpty(ws) == NonEmpty(ws);
    assert chunks == yielded + chunks[|yielded|..];
    MergeConcat(yielded, chunks[|yielded|..], bucketSize, START);
    MergeOnlyAdds(chunks[|yielded|..], bucketSize, Merge(yielded, bucketSize, START).value);
  }

  // ----- the broadcast -----

  /** The chunks a receiver cuts out of a published bucket. */
  function Cut(p: Publication): seq<Chunk> {
    seq(|p.meta|, k requires 0 <= k < |p.meta| =>
      Chunk(p.meta[k].meta, Slice(p.image, p.meta[k].offset, p.meta[k].meta.chunkSize)))
  }

  lemma CutShowsChunks(p: Publication, b: Bucket, isLast: bool, bucketSize: nat)
    requires Shows(p, b, isLast) && WellPlaced(b, bucketSize)
    ensures Cut(p) == ChunksOf(b)
  {
    forall k | 0 <= k < |b|
      ensures Cut(p)[k] == ChunksOf(b)[k]
    {
      assert EntryPlaced(b, k);
      HeldSlice(p.image, b, k);
    }
  }

  function CutAll(ps: seq<Publication>): seq<Chunk> {
    if ps == [] then [] else CutAll(ps[..|ps| - 1]) + Cut(ps[|ps| - 1])
  }

  lemma {:induction false} CutAllIsUnpack(ps: seq<Publication>, buckets: seq<Bucket>, bucketSize: nat)
    requires |ps| == |buckets|
    requires forall i :: 0 <= i < |ps| ==> Shows(ps[i], buckets[i], ps[i].isLast) && WellPlaced(buckets[i], bucketSize)
    ensures CutAll(ps) == Unpack(buckets)
  {
    if ps != [] {
      var n := |ps| - 1;
      CutAllIsUnpack(ps[..n], buckets[..n], bucketSize);
      CutShowsChunks(ps[n], buckets[n], ps[n].isLast, bucketSize);
      UnpackSnoc(buckets[..n], buckets[n]);
      assert buckets[..n] + [buckets[n]] == buckets;
    }
  }

  /** Part of a broadcast arriving in the receive buffer. */
  method Receive(buffer: array<byte>, image: seq<byte>, from: nat, to: nat)
    requires |image| == buffer.Length && from <= to <= |image|
    modifies buffer
    ensures buffer[..] == Overwrite(old(buffer[..]), from, image[from..to])
  {
    CopyInto(buffer, from, image[from..to]);
  }

  /** yield tensor_meta, send_buf[offset : offset + size] for one bucket. */
  method YieldBucket(buffer: array<byte>, ghost p: Publication, bucketMeta: seq<Placed>) returns (chunks: seq<Chunk>)
    requires bucketMeta == p.meta && buffer[..] == p.image
    ensures chunks == Cut(p)
  {
    chunks := [];
    for k := 0 to |bucketMeta|
      invariant chunks == Cut(p)[..k]
    {
      var m := bucketMeta[k];
      chunks := chunks + [Chunk(m.meta, Slice(buffer[..], m.offset, m.meta.chunkSize))];
    }
  }

  /** The chunks of the current bucket while the next one arrives, `early` bytes of it before the yields. */
  method YieldWhileReceiving(sendBuf: array<byte>, recvBuf: array<byte>, p: Publication, next: seq<byte>, early: nat)
    returns (chunks: seq<Chunk>)
    requires sendBuf != recvBuf && sendBuf[..] == p.image && |next| == recvBuf.Length
    modifies recvBuf
    ensures chunks == Cut(p) && recvBuf[..] == next
  {
    var m := Min(early, |next|);
    Receive(recvBuf, next, 0, m);
    chunks := YieldBucket(sendBuf, p, p.meta);
    Receive(recvBuf, next, m, |next|);
    assert recvBuf[..] == next[..m] + next[m..] == next;
  }

  /** _receive_weight_chunks of the NCCL engine: the next bucket arrives in one buffer while the chunks of the
      current one are yielded from the other; `early` says how far it gets before the yields. */
  method ReceiveWeightChunks(ps: seq<Publication>, early: nat -> nat, bufferA: array<byte>, bufferB: array<byte>)
    returns (chunks: seq<Chunk>)
    requires ps != [] && forall i :: 0 <= i < |ps| ==> (ps[i].isLast <==> i == |ps| - 1)
    requires bufferA != bufferB && bufferA.Length == bufferB.Length
    requires forall p :: p in ps ==> |p.image| == bufferA.Length
    modifies bufferA, bufferB
    ensures chunks == CutAll(ps)
  {
    var sendBuf, recvBuf := bufferA, bufferB;
    chunks := [];
    assert ps[0] in ps;
    Receive(recvBuf, ps[0].image, 0, |ps[0].image|);
    assert recvBuf[..] == ps[0].image;
    sendBuf, recvBuf := recvBuf, sendBuf;
    var current := 0;
    while !ps[current].isLast
      invariant current < |ps|
      invariant sendBuf in {bufferA, bufferB} && recvBuf in {bufferA, bufferB} && sendBuf != recvBuf
      invariant sendBuf[..] == ps[current].image
      invariant chunks == CutAll(ps[..current])
      decreases |ps| - current
    {
      assert ps[current + 1] in ps;
      var more := YieldWhileReceiving(sendBuf, recvBuf, ps[current], ps[current + 1].image, early(current));
      chunks := chunks + more;
      assert ps[..current + 1][..current] == ps[..current];
      sendBuf, recvBuf := recvBuf, sendBuf;
      current := current + 1;
    }
    var more := YieldBucket(sendBuf, ps[current], ps[current].meta);
    chunks := chunks + more;
    assert ps[..current + 1] == ps;
  }

  /** What send_weights has published is enough to get the weights back. */
  lemma PublishedIsEnough(ws: seq<Weight>, bucketSize: nat, ps: seq<Publication>)
    requires 0 < bucketSize && AllValid(ws)
    requires ShowsAll(ps, Pack(Split(ws, bucketSize), bucketSize, []), bucketSize)
    ensures forall c :: c in CutAll(ps) ==> c.Valid()
    ensures Merge(CutAll(ps), bucketSize, START) == Some(MergeState(None, NonEmpty(ws)))
  {
    var chunks := Split(ws, bucketSize);
    var buckets := Pack(chunks, bucketSize, []);
    SplitFits(ws, bucketSize);
    PackIsWellPlaced(chunks, bucketSize, []);
    UnpackUndoesPack(chunks, bucketSize, []);
    assert ChunksOf([]) + chunks == chunks;
    forall i | 0 <= i < |ps|
      ensures Shows(ps[i], buckets[i], ps[i].isLast) && WellPlaced(buckets[i], bucketSize)
    {
      assert buckets[i] in buckets;
    }
    CutAllIsUnpack(ps, buckets, bucketSize);
    MergeUndoesSplit(ws, bucketSize, []);
    assert [] + NonEmpty(ws) == NonEmpty(ws);
  }

  /** The whole pipeline over real buffers: send_weights, the broadcasts, receive_weights. Whatever part of each bucket
      a broadcast reads at once (`read`) and whatever part arrives before the receiver yields (`arrived`), a rollout
      rank gets exactly the non-empty weights, in order, and no assertion fires on the way. */
  method TransferByBroadcast(ws: seq<Weight>, bucketSize: nat, read: nat -> nat, arrived: nat -> nat)
    returns (received: seq<Weight>)
    requires 0 < bucketSize && AllValid(ws) && Accepted(ws, bucketSize)
    ensures received == NonEmpty(ws)
  {
    var bufferA, bufferB := new byte[bucketSize], new byte[bucketSize];
    var ps := SendWeights(ws, bucketSize, read, bufferA, bufferB);
    PublishedIsEnough(ws, bucketSize, ps);
    bufferA, bufferB := new byte[bucketSize], new byte[bucketSize];
    var chunks := ReceiveWeightChunks(ps, arrived, bufferA, bufferB);
    var merged := MergeWeightChunks(chunks, bucketSize);
    NonEmptyAreValid(ws);
    CompleteFills(merged.value, Merge(chunks, bucketSize, START).value);
    received := merged.value.yielded;
  }

  lemma {:induction false} NonEmptyAreValid(ws: seq<Weight>)
    requires AllValid(ws)
    ensures AllValid(NonEmpty(ws))
  {
    if ws != [] {
      assert ws[0] in ws;
      NonEmptyAreValid(ws[1..]);
    }
  }
}
