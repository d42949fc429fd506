/** Weights as byte strings, and the chunking of checkpoint_engine/base.py:
    a weight is cut into chunks of at most one bucket, and the receiver glues
    the chunks of a large weight together again. */
module WeightChunks {
  import opened Arithmetic
  import opened Buffers
  import opened Sequences
  import opened Wrappers

  datatype DType = UInt8 | BFloat16 | Float16 | Float32 | Float64 {
    function ItemSize(): nat {
      match this
      case UInt8 => 1
      case BFloat16 => 2
      case Float16 => 2
      case Float32 => 4
      case Float64 => 8
    }
  }

  function NBytes(shape: seq<nat>, dtype: DType): nat {
    Numel(shape) * dtype.ItemSize()
  }

  datatype Weight = Weight(name: string, shape: seq<nat>, dtype: DType, bytes: seq<byte>) {
    predicate Valid() {
      |bytes| == NBytes(shape, dtype)
    }
  }

  /** What travels with a chunk. The position inside a bucket is added when the chunk is packed. */
  datatype TensorMeta = TensorMeta(name: string, shape: seq<nat>, dtype: DType, chunkOffset: nat, chunkSize: nat) {
    function WeightBytes(): nat {
      NBytes(shape, dtype)
    }
  }

  datatype Chunk = Chunk(meta: TensorMeta, bytes: seq<byte>) {
    predicate Valid() {
      |bytes| == meta.chunkSize
    }
  }

  // ----- splitting -----

  function ChunkAt(w: Weight, bucketSize: nat, at: nat): Chunk
    requires at <= |w.bytes|
  {
    var size := Min(bucketSize, |w.bytes| - at);
    Chunk(TensorMeta(w.name, w.shape, w.dtype, at, size), w.bytes[at..at + size])
  }

  function ChunksFrom(w: Weight, bucketSize: nat, at: nat): seq<Chunk>
    requires 0 < bucketSize && at <= |w.bytes|
    decreases |w.bytes| - at
  {
    if at == |w.bytes| then []
    else
      var c := ChunkAt(w, bucketSize, at);
      [c] + ChunksFrom(w, bucketSize, at + c.meta.chunkSize)
  }

  function Split(ws: seq<Weight>, bucketSize: nat): seq<Chunk>
    requires 0 < bucketSize
  {
    if ws == [] then [] else ChunksFrom(ws[0], bucketSize, 0) + Split(ws[1..], bucketSize)
  }

  lemma {:induction false} SplitSnoc(ws: seq<Weight>, w: Weight, bucketSize: nat)
    requires 0 < bucketSize
    ensures Split(ws + [w], bucketSize) == Split(ws, bucketSize) + ChunksFrom(w, bucketSize, 0)
  {
    if ws == [] {
      assert (ws + [w])[1..] == [];
    } else {
      assert (ws + [w])[1..] == ws[1..] + [w];
      SplitSnoc(ws[1..], w, bucketSize);
    }
  }

  /** The generator: one pass over the weights, an inner loop advancing chunk_offset. */
  method SplitWeightChunks(ws: seq<Weight>, bucketSize: nat) returns (chunks: seq<Chunk>)
    requires 0 < bucketSize
    ensures chunks == Split(ws, bucketSize)
  {
    chunks := [];
    for i := 0 to |ws|
      invariant chunks == Split(ws[..i], bucketSize)
    {
      var weight := ws[i];
      var chunkOffset := 0;
      while chunkOffset < |weight.bytes|
        invariant 0 <= chunkOffset <= |weight.bytes|
        invariant chunks + ChunksFrom(weight, bucketSize, chunkOffset)
               == Split(ws[..i], bucketSize) + ChunksFrom(weight, bucketSize, 0)
      {
        var chunkSize := Min(bucketSize, |weight.bytes| - chunkOffset);
        var meta := TensorMeta(weight.name, weight.shape, weight.dtype, chunkOffset, chunkSize);
        var chunk := Chunk(meta, weight.bytes[chunkOffset..chunkOffset + chunkSize]);
        assert chunks + ([chunk] + ChunksFrom(weight, bucketSize, chunkOffset + chunkSize))
            == (chunks + [chunk]) + ChunksFrom(weight, bucketSize, chunkOffset + chunkSize);
        chunks := chunks + [chunk];
        chunkOffset := chunkOffset + chunkSize;
      }
      assert chunks == Split(ws[..i], bucketSize) + ChunksFrom(weight, bucketSize, 0);
      SplitSnoc(ws[..i], weight, bucketSize);
      assert ws[..i] + [weight] == ws[..i + 1];
    }
    assert ws[..|ws|] == ws;
  }

  /** What the cut looks like, without recursion: consecutive ranges from `at` to the end of the weight,
      each but the last exactly one bucket long. */
  lemma {:induction false} ChunksAreTheGrid(w: Weight, bucketSize: nat, at: nat)
    requires 0 < bucketSize && at <= |w.bytes|
    ensures var cs := ChunksFrom(w, bucketSize, at);
            && (cs == [] <==> at == |w.bytes|)
            && (cs != [] ==> cs[0].meta.chunkOffset == at)
            && forall i :: 0 <= i < |cs| ==>
                 && cs[i].meta.chunkOffset < |w.bytes|
                 && cs[i] == ChunkAt(w, bucketSize, cs[i].meta.chunkOffset)
                 && cs[i].meta.chunkOffset + cs[i].meta.chunkSize
                    == (if i + 1 < |cs| then cs[i + 1].meta.chunkOffset else |w.bytes|)
                 && (i + 1 < |cs| ==> cs[i].meta.chunkSize == bucketSize)
    decreases |w.bytes| - at
  {
    if at < |w.bytes| {
      var c := ChunkAt(w, bucketSize, at);
      var rest := ChunksFrom(w, bucketSize, at + c.meta.chunkSize);
      ChunksAreTheGrid(w, bucketSize, at + c.meta.chunkSize);
      assert ChunksFrom(w, bucketSize, at) == [c] + rest;
    }
  }

  // ----- merging -----

  /** The weight being glued together: merge_name, merge_weight and the part of merge_buffer written so far. */
  datatype Partial = Partial(name: string, shape: seq<nat>, dtype: DType, written: seq<byte>)

  datatype MergeState = MergeState(partial: Option<Partial>, yielded: seq<Weight>)

  const START := MergeState(None, [])

  /** One turn of the merge loop; None when an assertion, a view or a slice assignment of the source fails. */
  function MergeStep(st: MergeState, c: Chunk, bucketSize: nat): Option<MergeState> {
    if c.meta.WeightBytes() <= bucketSize then
      if st.partial.Some? || |c.bytes| != c.meta.WeightBytes() then None
      else Some(st.(yielded := st.yielded + [Weight(c.meta.name, c.meta.shape, c.meta.dtype, c.bytes)]))
    else if st.partial.None? && c.meta.chunkOffset != 0 then None
    else
      var p := if st.partial.Some? then st.partial.value
               else Partial(c.meta.name, c.meta.shape, c.meta.dtype, []);
      var end := c.meta.chunkOffset + c.meta.chunkSize;
      if c.meta.name != p.name || c.meta.chunkOffset != |p.written| || end > NBytes(p.shape, p.dtype) then None
      else
        var written := p.written + c.bytes;
        if end == c.meta.WeightBytes() then
          Some(MergeState(None, st.yielded + [Weight(p.name, p.shape, p.dtype, written)]))
        else
          Some(st.(partial := Some(p.(written := written))))
  }

  function Merge(chunks: seq<Chunk>, bucketSize: nat, st: MergeState): Option<MergeState> {
    if chunks == [] then Some(st)
    else
      match MergeStep(st, chunks[0], bucketSize)
      case None => None
      case Some(next) => Merge(chunks[1..], bucketSize, next)
  }

  lemma {:induction false} MergeSnoc(chunks: seq<Chunk>, c: Chunk, bucketSize: nat, st: MergeState)
    ensures Merge(chunks + [c], bucketSize, st) ==
            match Merge(chunks, bucketSize, st)
            case None => None
            case Some(mid) => MergeStep(mid, c, bucketSize)
  {
    if chunks == [] {
      assert (chunks + [c])[1..] == [];
    } else {
      assert (chunks + [c])[1..] == chunks[1..] + [c];
      match MergeStep(st, chunks[0], bucketSize) {
        case None =>
        case Some(next) => MergeSnoc(chunks[1..], c, bucketSize, next);
      }
    }
  }

  lemma {:induction false} MergeConcat(chunks: seq<Chunk>, more: seq<Chunk>, bucketSize: nat, st: MergeState)
    ensures Merge(chunks + more, bucketSize, st) ==
            match Merge(chunks, bucketSize, st)
            case None => None
            case Some(mid) => Merge(more, bucketSize, mid)
  {
    if chunks == [] {
      assert chunks + more == more;
    } else {
      assert (chunks + more)[1..] == chunks[1..] + more;
      match MergeStep(st, chunks[0], bucketSize) {
        case None =>
        case Some(next) => MergeConcat(chunks[1..], more, bucketSize, next);
      }
    }
  }

  lemma {:induction false} MergeOnlyAdds(chunks: seq<Chunk>, bucketSize: nat, st: MergeState)
    requires Merge(chunks, bucketSize, st).Some?
    ensures st.yielded <= Merge(chunks, bucketSize, st).value.yielded
  {
    if chunks != [] {
      MergeOnlyAdds(chunks[1..], bucketSize, MergeStep(st, chunks[0], bucketSize).value);
    }
  }

  /** What the receiver is given for a weight: all of the buffer, with the bytes that were written at its beginning. */
  predicate Fills(given: Weight, written: Weight) {
    && given.name == written.name && given.shape == written.shape && given.dtype == written.dtype
    && given.Valid() && written.bytes <= given.bytes
  }

  ghost predicate AllFill(given: MergeState, spec: MergeState) {
    && given.partial == spec.partial && |given.yielded| == |spec.yielded|
    && forall i {:trigger Fills(given.yielded[i], spec.yielded[i])} :: 0 <= i < |given.yielded| ==>
         Fills(given.yielded[i], spec.yielded[i])
  }

  lemma AppendFills(given: MergeState, spec: MergeState, partial: Option<Partial>, w: Weight, written: Weight)
    requires AllFill(given, spec) && Fills(w, written)
    ensures AllFill(MergeState(partial, given.yielded + [w]), MergeState(partial, spec.yielded + [written]))
  {
    var more, specMore := given.yielded + [w], spec.yielded + [written];
    forall i | 0 <= i < |more|
      ensures Fills(more[i], specMore[i])
    {
      assert i < |given.yielded| ==> Fills(given.yielded[i], spec.yielded[i]);
    }
  }

  /** Where every weight was written completely there is no difference. */
  lemma CompleteFills(given: MergeState, spec: MergeState)
    requires AllFill(given, spec) && forall w :: w in spec.yielded ==> w.Valid()
    ensures given == spec
  {
    forall i | 0 <= i < |given.yielded|
      ensures given.yielded[i] == spec.yielded[i]
    {
      assert Fills(given.yielded[i], spec.yielded[i]);
      assert spec.yielded[i] in spec.yielded;
    }
  }

  lemma NextMerge(chunks: seq<Chunk>, i: nat, bucketSize: nat, spec: MergeState)
    requires i < |chunks| && Merge(chunks[..i], bucketSize, START) == Some(spec)
    ensures Merge(chunks[..i + 1], bucketSize, START) == MergeStep(spec, chunks[i], bucketSize)
    ensures MergeStep(spec, chunks[i], bucketSize).None? ==> Merge(chunks, bucketSize, START).None?
  {
    MergeSnoc(chunks[..i], chunks[i], bucketSize, START);
    assert chunks[..i] + [chunks[i]] == chunks[..i + 1];
    MergeConcat(chunks[..i + 1], chunks[i + 1..], bucketSize, START);
    assert chunks[..i + 1] + chunks[i + 1..] == chunks;
  }

  /** merge_buffer[chunk_offset : chunk_offset + n] = chunk, behind what has been written. */
  method Fill(buffer: array<byte>, at: nat, ghost written: seq<byte>, bytes: seq<byte>)
    requires at + |bytes| <= buffer.Length && written == buffer[..at]
    modifies buffer
    ensures buffer[..at + |bytes|] == written + bytes && written + bytes <= buffer[..]
  {
    CopyInto(buffer, at, bytes);
    assert buffer[..at + |bytes|] == written + bytes;
  }

  /** The merge loop over a real buffer, allocated when a large weight starts and overwritten range by range. It fails
      exactly when the specification does. (Only where the chunks of a weight disagree about its size can a weight be
      handed out before its buffer is full.) */
  method MergeWeightChunks(chunks: seq<Chunk>, bucketSize: nat) returns (result: Option<MergeState>)
    requires forall c :: c in chunks ==> c.Valid()
    ensures result.None? <==> Merge(chunks, bucketSize, START).None?
    ensures result.Some? ==> AllFill(result.value, Merge(chunks, bucketSize, START).value)
  {
    var yielded: seq<Weight> := [];
    var merging := false;
    var mergeName, mergeShape, mergeDType := "", [], UInt8;
    var mergeBuffer := new byte[0];
    var mergeOffset: nat := 0;
    ghost var spec := START;
    for i := 0 to |chunks|
      invariant mergeOffset <= mergeBuffer.Length && fresh(mergeBuffer)
      invariant merging ==> mergeBuffer.Length == NBytes(mergeShape, mergeDType)
      invariant Merge(chunks[..i], bucketSize, START) == Some(spec)
      invariant AllFill(
                  MergeState(Unfinished(merging, mergeName, mergeShape, mergeDType, mergeBuffer[..mergeOffset]),
                             yielded),
                  spec)
    {
      var c := chunks[i];
      assert c in chunks;
      NextMerge(chunks, i, bucketSize, spec);
      ghost var partial := Unfinished(merging, mergeName, mergeShape, mergeDType, mergeBuffer[..mergeOffset]);
      ghost var given := MergeState(partial, yielded);
      var nbytes := c.meta.WeightBytes();
      if nbytes <= bucketSize {
        if merging || |c.bytes| != nbytes {
          return None;
        }
        var w := Weight(c.meta.name, c.meta.shape, c.meta.dtype, c.bytes);
        AppendFills(given, spec, None, w, w);
        yielded, spec := yielded + [w], spec.(yielded := spec.yielded + [w]);
        continue;
      }
      if !merging {
        if c.meta.chunkOffset != 0 {
          return None;
        }
        merging, mergeName, mergeShape, mergeDType := true, c.meta.name, c.meta.shape, c.meta.dtype;
        mergeBuffer, mergeOffset := new byte[nbytes], 0;
      }
      ghost var written := mergeBuffer[..mergeOffset];
      var end := c.meta.chunkOffset + c.meta.chunkSize;
      if c.meta.name != mergeName || mergeOffset != c.meta.chunkOffset || end > mergeBuffer.Length {
        return None;
      }
      Fill(mergeBuffer, mergeOffset, written, c.bytes);
      mergeOffset := mergeOffset + c.meta.chunkSize;
      if end == nbytes {
        var w := Weight(mergeName, mergeShape, mergeDType, mergeBuffer[..]);
        AppendFills(given, spec, None, w, w.(bytes := written + c.bytes));
        yielded, spec := yielded + [w], MergeState(None, spec.yielded + [w.(bytes := written + c.bytes)]);
        merging, mergeOffset := false, 0;
      } else {
        spec := spec.(partial := Some(Partial(mergeName, mergeShape, mergeDType, written + c.bytes)));
      }
    }
    assert chunks[..|chunks|] == chunks;
    var partial := Unfinished(merging, mergeName, mergeShape, mergeDType, mergeBuffer[..mergeOffset]);
    result := Some(MergeState(partial, yielded));
  }

  function Unfinished(merging: bool, name: string, shape: seq<nat>, dtype: DType, written: seq<byte>): Option<Partial> {
    if merging then Some(Partial(name, shape, dtype, written)) else None
  }

  // ----- merge undoes split -----

  /** Weights without a single byte never produce a chunk. */
  function NonEmpty(ws: seq<Weight>): seq<Weight> {
    if ws == [] then []
    else (if ws[0].bytes == [] then [] else [ws[0]]) + NonEmpty(ws[1..])
  }

  ghost predicate AllValid(ws: seq<Weight>) {
    forall w :: w in ws ==> w.Valid()
  }

  /** Inside a large weight: the chunks from `at` on complete the partial weight holding the first `at` bytes. */
  lemma {:induction false} MergeLargeWeight(w: Weight, bucketSize: nat, at: nat, rest: seq<Chunk>, yielded: seq<Weight>)
    requires w.Valid() && 0 < bucketSize < |w.bytes| && at < |w.bytes|
    ensures Merge(ChunksFrom(w, bucketSize, at) + rest, bucketSize, Holding(w, at, yielded))
         == Merge(rest, bucketSize, MergeState(None, yielded + [w]))
    decreases |w.bytes| - at
  {
    var c := ChunkAt(w, bucketSize, at);
    var end := at + c.meta.chunkSize;
    LargeStep(w, bucketSize, at, yielded);
    var chunks := ChunksFrom(w, bucketSize, at) + rest;
    assert chunks[0] == c;
    assert chunks[1..] == ChunksFrom(w, bucketSize, end) + rest;
    if end == |w.bytes| {
      assert ChunksFrom(w, bucketSize, end) + rest == rest;
    } else {
      MergeLargeWeight(w, bucketSize, end, rest, yielded);
    }
  }

  /** Merge state after the first `at` bytes of w. */
  function Holding(w: Weight, at: nat, yielded: seq<Weight>): MergeState
    requires at <= |w.bytes|
  {
    MergeState(if at == 0 then None else Some(Partial(w.name, w.shape, w.dtype, w.bytes[..at])), yielded)
  }

  lemma LargeStep(w: Weight, bucketSize: nat, at: nat, yielded: seq<Weight>)
    requires w.Valid() && 0 < bucketSize < |w.bytes| && at < |w.bytes|
    ensures var c := ChunkAt(w, bucketSize, at);
            var end := at + c.meta.chunkSize;
            MergeStep(Holding(w, at, yielded), c, bucketSize)
              == Some(if end == |w.bytes| then MergeState(None, yielded + [w]) else Holding(w, end, yielded))
  {
    var c := ChunkAt(w, bucketSize, at);
    assert w.bytes[..at] + c.bytes == w.bytes[..at + c.meta.chunkSize];
    assert w.bytes[..0] == [];
    assert w.bytes[..|w.bytes|] == w.bytes;
  }

  lemma {:induction false} MergeOneWeight(w: Weight, bucketSize: nat, rest: seq<Chunk>, yielded: seq<Weight>)
    requires w.Valid() && 0 < bucketSize && w.bytes != []
    ensures Merge(ChunksFrom(w, bucketSize, 0) + rest, bucketSize, MergeState(None, yielded))
         == Merge(rest, bucketSize, MergeState(None, yielded + [w]))
  {
    if |w.bytes| <= bucketSize {
      var c := ChunkAt(w, bucketSize, 0);
      assert c.bytes == w.bytes;
      assert ChunksFrom(w, bucketSize, 0) == [c] + ChunksFrom(w, bucketSize, |w.bytes|);
      assert (ChunksFrom(w, bucketSize, 0) + rest)[1..] == rest;
    } else {
      MergeLargeWeight(w, bucketSize, 0, rest, yielded);
    }
  }

  /** Round trip: no assertion fires, nothing is left half merged, and the weights
      come back in order, except that empty ones are lost. */
  lemma {:induction false} MergeUndoesSplit(ws: seq<Weight>, bucketSize: nat, yielded: seq<Weight>)
    requires AllValid(ws) && 0 < bucketSize
    ensures Merge(Split(ws, bucketSize), bucketSize, MergeState(None, yielded))
         == Some(MergeState(None, yielded + NonEmpty(ws)))
  {
    if ws == [] {
      assert yielded + [] == yielded;
    } else {
      var w, rest := ws[0], Split(ws[1..], bucketSize);
      var kept := NonEmpty(ws[1..]);
      assert Split(ws, bucketSize) == ChunksFrom(w, bucketSize, 0) + rest;
      if w.bytes == [] {
        assert ChunksFrom(w, bucketSize, 0) + rest == rest;
        MergeUndoesSplit(ws[1..], bucketSize, yielded);
        assert [] + kept == kept;
      } else {
        assert w in ws;
        MergeOneWeight(w, bucketSize, rest, yielded);
        MergeUndoesSplit(ws[1..], bucketSize, yielded + [w]);
        assert (yielded + [w]) + kept == yielded + ([w] + kept);
      }
    }
  }

  /** So the receiver has every weight that was sent exactly when none of them was empty. */
  lemma {:induction false} RoundTripIffNoEmptyWeight(ws: seq<Weight>, bucketSize: nat)
    requires AllValid(ws) && 0 < bucketSize
    ensures Merge(Split(ws, bucketSize), bucketSize, START) == Some(MergeState(None, ws))
       <==> forall w :: w in ws ==> w.bytes != []
  {
    MergeUndoesSplit(ws, bucketSize, []);
    assert [] + NonEmpty(ws) == NonEmpty(ws);
    NonEmptyIsIdentityIff(ws);
  }

  lemma {:induction false} NonEmptyIsIdentityIff(ws: seq<Weight>)
    ensures |NonEmpty(ws)| <= |ws|
    ensures NonEmpty(ws) == ws <==> forall w :: w in ws ==> w.bytes != []
  {
    if ws != [] {
      NonEmptyIsIdentityIff(ws[1..]);
      assert ws == [ws[0]] + ws[1..];
      if ws[0].bytes == [] {
        assert ws[0] in ws;
        assert |NonEmpty(ws)| < |ws|;
      } else {
        assert NonEmpty(ws)[1..] == NonEmpty(ws[1..]);
      }
    }
  }

  // ----- merging arbitrary streams -----

  function ChunkBytes(chunks: seq<Chunk>): seq<byte> {
    if chunks == [] then [] else chunks[0].bytes + ChunkBytes(chunks[1..])
  }

  function WeightBytes(ws: seq<Weight>): seq<byte> {
    if ws == [] then [] else ws[0].bytes + WeightBytes(ws[1..])
  }

  lemma {:induction false} WeightBytesSnoc(ws: seq<Weight>, w: Weight)
    ensures WeightBytes(ws + [w]) == WeightBytes(ws) + w.bytes
  {
    if ws == [] {
      assert (ws + [w])[1..] == [];
    } else {
      assert (ws + [w])[1..] == ws[1..] + [w];
      WeightBytesSnoc(ws[1..], w);
    }
  }

  function Held(st: MergeState): seq<byte> {
    WeightBytes(st.yielded) + (if st.partial.Some? then st.partial.value.written else [])
  }

  /** Conservation: whatever stream the merge accepts, every byte it received is in the yielded
      weights or in the unfinished one, in arrival order. */
  lemma {:induction false} MergeConservesBytes(chunks: seq<Chunk>, bucketSize: nat, st: MergeState)
    requires Merge(chunks, bucketSize, st).Some?
    ensures Held(Merge(chunks, bucketSize, st).value) == Held(st) + ChunkBytes(chunks)
  {
    if chunks == [] {
      assert Held(st) + [] == Held(st);
    } else {
      var c, rest := chunks[0], ChunkBytes(chunks[1..]);
      var next := MergeStep(st, c, bucketSize).value;
      StepConservesBytes(st, c, bucketSize);
      MergeConservesBytes(chunks[1..], bucketSize, next);
      assert (Held(st) + c.bytes) + rest == Held(st) + (c.bytes + rest);
    }
  }

  lemma StepConservesBytes(st: MergeState, c: Chunk, bucketSize: nat)
    requires MergeStep(st, c, bucketSize).Some?
    ensures Held(MergeStep(st, c, bucketSize).value) == Held(st) + c.bytes
  {
    var next := MergeStep(st, c, bucketSize).value;
    var written := if st.partial.Some? then st.partial.value.written else [];
    if next.partial.None? {
      var w := next.yielded[|st.yielded|];
      assert w.bytes == written + c.bytes;
      WeightBytesSnoc(st.yielded, w);
      assert WeightBytes(st.yielded) + (written + c.bytes) == (WeightBytes(st.yielded) + written) + c.bytes;
    } else {
      assert WeightBytes(st.yielded) + (written + c.bytes) == (WeightBytes(st.yielded) + written) + c.bytes;
    }
  }

  // ----- which streams are accepted -----

  /** Item sizes are in bytes, whatever the number of dimensions. */
  lemma SizesInBytes(n: nat)
    ensures NBytes([n], UInt8) == n && NBytes([n], BFloat16) == NBytes([n], Float16) == 2 * n
    ensures NBytes([n], Float32) == 4 * n && NBytes([n], Float64) == 8 * n
    ensures NBytes([], Float32) == 4 && NBytes([2, 3], Float32) == 24 && NBytes([2, 0, 3], Float32) == 0
  {
    NumelOfConcat([2], [3], n);
    NumelOfConcat([2], [], 2);
    NumelOfConcat([3], [], 3);
    NumelOfConcat([2], [0, 3], n);
    NumelOfConcat([0], [3], 0);
    assert [2, 3] == [2] + [3] && [2, 0, 3] == [2] + [0, 3] && [0, 3] == [0] + [3];
  }

  predicate Big(c: Chunk, bucketSize: nat) {
    Numel(c.meta.shape) * c.meta.dtype.ItemSize() > bucketSize
  }

  /** The chunk before chunk i is one of a large weight, and not its last. */
  predicate InsideAt(chunks: seq<Chunk>, bucketSize: nat, i: nat)
    requires i <= |chunks|
  {
    && i > 0 && Big(chunks[i - 1], bucketSize)
    && chunks[i - 1].meta.chunkOffset + chunks[i - 1].meta.chunkSize != chunks[i - 1].meta.WeightBytes()
  }

  /** The weight that chunk i belongs to has begun with chunk f. */
  predicate BeganWith(chunks: seq<Chunk>, bucketSize: nat, i: nat, f: nat)
    requires i < |chunks|
  {
    f <= i && !InsideAt(chunks, bucketSize, f) && forall k :: f < k <= i ==> InsideAt(chunks, bucketSize, k)
  }

  /** What chunk i has to be: a small weight as a whole, the beginning of a large one, or the range of a large one that
      comes behind the chunk before it and does not go beyond the size given with the first chunk. */
  predicate Follows(chunks: seq<Chunk>, bucketSize: nat, i: nat)
    requires i < |chunks|
  {
    var m := chunks[i].meta;
    if !Big(chunks[i], bucketSize) then
      !InsideAt(chunks, bucketSize, i) && m.chunkSize == m.WeightBytes()
    else if !InsideAt(chunks, bucketSize, i) then
      m.chunkOffset == 0 && m.chunkSize <= m.WeightBytes()
    else
      && m.name == chunks[i - 1].meta.name
      && m.chunkOffset == chunks[i - 1].meta.chunkOffset + chunks[i - 1].meta.chunkSize
      && forall f :: 0 <= f <= i && BeganWith(chunks, bucketSize, i, f) ==>
           m.chunkOffset + m.chunkSize <= chunks[f].meta.WeightBytes()
  }

  predicate AllFollow(chunks: seq<Chunk>, bucketSize: nat, n: nat)
    requires n <= |chunks|
  {
    forall i :: 0 <= i < n ==> Follows(chunks, bucketSize, i)
  }

  /** What the merge knows before chunk n, of a weight that began with chunk f. */
  predicate Knows(chunks: seq<Chunk>, bucketSize: nat, n: nat, p: Option<Partial>, f: nat)
    requires n <= |chunks|
  {
    && (p.Some? <==> InsideAt(chunks, bucketSize, n))
    && (p.Some? ==>
          && BeganWith(chunks, bucketSize, n - 1, f)
          && NBytes(p.value.shape, p.value.dtype) == chunks[f].meta.WeightBytes()
          && p.value.name == chunks[n - 1].meta.name
          && |p.value.written| == chunks[n - 1].meta.chunkOffset + chunks[n - 1].meta.chunkSize)
  }

  lemma StepFollows(chunks: seq<Chunk>, bucketSize: nat, n: nat, st: MergeState, f: nat) returns (g: nat)
    requires n < |chunks| && chunks[n].Valid() && Knows(chunks, bucketSize, n, st.partial, f)
    ensures var next := MergeStep(st, chunks[n], bucketSize);
            && (next.Some? <==> Follows(chunks, bucketSize, n))
            && (next.Some? ==> Knows(chunks, bucketSize, n + 1, next.value.partial, g))
  {
    g := if st.partial.Some? then f else n;
    if Big(chunks[n], bucketSize) {
      BeganOnce(chunks, bucketSize, n, g);
    }
  }

  lemma BeganOnce(chunks: seq<Chunk>, bucketSize: nat, i: nat, f: nat)
    requires i < |chunks| && BeganWith(chunks, bucketSize, i, f)
    ensures forall g :: 0 <= g <= i && g != f ==> !BeganWith(chunks, bucketSize, i, g)
  {
    forall g | 0 <= g <= i && g != f
      ensures !BeganWith(chunks, bucketSize, i, g)
    {
      if f < g {
        assert InsideAt(chunks, bucketSize, g);
      } else {
        assert !InsideAt(chunks, bucketSize, f);
      }
    }
  }

  lemma {:induction false} MergesUpTo(chunks: seq<Chunk>, bucketSize: nat, n: nat) returns (f: nat)
    requires n <= |chunks| && forall c :: c in chunks ==> c.Valid()
    ensures var merged := Merge(chunks[..n], bucketSize, START);
            && (merged.Some? <==> AllFollow(chunks, bucketSize, n))
            && (merged.Some? ==> Knows(chunks, bucketSize, n, merged.value.partial, f))
  {
    f := 0;
    if n > 0 {
      f := MergesUpTo(chunks, bucketSize, n - 1);
      MergeSnoc(chunks[..n - 1], chunks[n - 1], bucketSize, START);
      assert chunks[..n - 1] + [chunks[n - 1]] == chunks[..n];
      assert chunks[n - 1] in chunks;
      assert AllFollow(chunks, bucketSize, n) <==>
             AllFollow(chunks, bucketSize, n - 1) && Follows(chunks, bucketSize, n - 1);
      var merged := Merge(chunks[..n - 1], bucketSize, START);
      if merged.Some? {
        f := StepFollows(chunks, bucketSize, n - 1, merged.value, f);
      }
    }
  }

  /** The merge accepts a stream if and only if every chunk follows upon the one before it. */
  lemma MergesIff(chunks: seq<Chunk>, bucketSize: nat)
    requires forall c :: c in chunks ==> c.Valid()
    ensures Merge(chunks, bucketSize, START).Some? <==>
            forall i :: 0 <= i < |chunks| ==> Follows(chunks, bucketSize, i)
  {
    var f := MergesUpTo(chunks, bucketSize, |chunks|);
    assert chunks[..|chunks|] == chunks;
  }

  // ----- streams that stop early -----

  lemma {:induction false} ChunkBytesConcat(chunks: seq<Chunk>, more: seq<Chunk>)
    ensures ChunkBytes(chunks + more) == ChunkBytes(chunks) + ChunkBytes(more)
  {
    if chunks == [] {
      assert chunks + more == more;
    } else {
      assert (chunks + more)[1..] == chunks[1..] + more;
      ChunkBytesConcat(chunks[1..], more);
    }
  }

  lemma {:induction false} ChunksAreNotEmpty(ws: seq<Weight>, bucketSize: nat, c: Chunk)
    requires 0 < bucketSize && c in Split(ws, bucketSize)
    ensures c.bytes != []
  {
    if c in ChunksFrom(ws[0], bucketSize, 0) {
      ChunkIsNotEmpty(ws[0], bucketSize, 0, c);
    } else {
      ChunksAreNotEmpty(ws[1..], bucketSize, c);
    }
  }

  lemma {:induction false} ChunkIsNotEmpty(w: Weight, bucketSize: nat, at: nat, c: Chunk)
    requires 0 < bucketSize && at <= |w.bytes| && c in ChunksFrom(w, bucketSize, at)
    ensures c.bytes != []
    decreases |w.bytes| - at
  {
    var first := ChunkAt(w, bucketSize, at);
    if c != first {
      ChunkIsNotEmpty(w, bucketSize, at + first.meta.chunkSize, c);
    }
  }

  /** A stream that stops after k chunks raises no error whatever k is. It yields an initial part of the weights, and it
      yields all of them with nothing left over if and only if it did not stop early. */
  lemma TruncatedStreamIsAccepted(ws: seq<Weight>, bucketSize: nat, k: nat)
    requires AllValid(ws) && 0 < bucketSize && k <= |Split(ws, bucketSize)|
    ensures var merged := Merge(Split(ws, bucketSize)[..k], bucketSize, START);
            && merged.Some? && merged.value.yielded <= NonEmpty(ws)
            && (merged.value == MergeState(None, NonEmpty(ws)) <==> k == |Split(ws, bucketSize)|)
  {
    var all := Split(ws, bucketSize);
    MergeUndoesSplit(ws, bucketSize, []);
    assert [] + NonEmpty(ws) == NonEmpty(ws);
    MergeConcat(all[..k], all[k..], bucketSize, START);
    assert all[..k] + all[k..] == all;
    MergeOnlyAdds(all[k..], bucketSize, Merge(all[..k], bucketSize, START).value);
    MergeConservesBytes(all[..k], bucketSize, START);
    MergeConservesBytes(all, bucketSize, START);
    ChunkBytesConcat(all[..k], all[k..]);
    if k < |all| {
      ChunksAreNotEmpty(ws, bucketSize, all[k]);
      assert |ChunkBytes(all[k..])| > 0;
    }
  }
}
