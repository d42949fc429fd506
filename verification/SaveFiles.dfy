/** Which rank converts which layers and experts, and which file it saves them in. */
module SaveFiles {
  import opened Arithmetic
  import opened LayerNumbering
  import opened Sequences

  // ----- layers -----

  /** pipeline_cumsum: rank r has the layers from SumTo(shards, r) on. */
  predicate HasLayers(shards: seq<nat>, r: nat, layer: nat) {
    r < |shards| && SumTo(shards, r) <= layer < SumTo(shards, r) + shards[r]
  }

  lemma OneRankAtMost(shards: seq<nat>, r: nat, q: nat, layer: nat)
    requires HasLayers(shards, r, layer) && HasLayers(shards, q, layer)
    ensures r == q
  {
    if r < q {
      SumGrows(shards, r + 1, q);
    } else if q < r {
      SumGrows(shards, q + 1, r);
    }
  }

  /** The ranks' layer ranges tile the model. */
  lemma RanksTileTheLayers(shards: seq<nat>, layer: nat)
    ensures layer < SumTo(shards, |shards|) <==> exists r :: HasLayers(shards, r, layer)
    ensures forall r: nat, q: nat :: HasLayers(shards, r, layer) && HasLayers(shards, q, layer) ==> r == q
  {
    if layer < SumTo(shards, |shards|) {
      var r := Locate(shards, |shards|, layer);
      assert HasLayers(shards, r, layer);
    }
    forall r: nat | HasLayers(shards, r, layer)
      ensures layer < SumTo(shards, |shards|)
    {
      SumGrows(shards, r + 1, |shards|);
    }
    forall r: nat, q: nat | HasLayers(shards, r, layer) && HasLayers(shards, q, layer)
      ensures r == q
    {
      OneRankAtMost(shards, r, q, layer);
    }
  }

  /** A rank has as many layers as its shard says, behind those of the ranks before it. */
  lemma RanksAreInOrder(shards: seq<nat>, r: nat, q: nat, a: nat, b: nat)
    requires r < q < |shards| && HasLayers(shards, r, a) && HasLayers(shards, q, b)
    ensures a < b
  {
    SumGrows(shards, r + 1, q);
  }

  // ----- experts -----

  /** expert_idx_start <= expert < expert_idx_end on rank r, with n local experts. */
  predicate HasExpert(n: nat, r: nat, expert: nat) {
    r * n <= expert < (r + 1) * n
  }

  lemma OneOwnerAtMost(n: nat, r: nat, q: nat, expert: nat)
    requires HasExpert(n, r, expert) && HasExpert(n, q, expert)
    ensures r == q
  {
    if r < q {
      MulMono(r + 1, q, n);
    } else if q < r {
      MulMono(q + 1, r, n);
    }
  }

  ghost predicate Owned(n: nat, ep: nat, expert: nat) {
    exists r: nat :: r < ep && HasExpert(n, r, expert)
  }

  lemma {:induction false} OwnedIff(n: nat, ep: nat, expert: nat)
    ensures Owned(n, ep, expert) <==> expert < ep * n
  {
    if ep > 0 {
      OwnedIff(n, ep - 1, expert);
      MulStep(ep - 1, n);
      if expert < (ep - 1) * n {
        var r: nat :| r < ep - 1 && HasExpert(n, r, expert);
        assert r < ep;
      } else if expert < ep * n {
        assert HasExpert(n, ep - 1, expert);
      } else {
        forall r: nat | r < ep
          ensures !HasExpert(n, r, expert)
        {
          MulMono(r + 1, ep, n);
        }
      }
    }
  }

  /** With num_experts // ep_size experts a rank, every expert is converted by some rank if and only if the number of
      ranks divides the number of experts. */
  lemma ExpertsTiledIff(experts: nat, ep: nat)
    requires ep > 0
    ensures (forall expert: nat :: expert < experts ==> Owned(experts / ep, ep, expert)) <==> experts % ep == 0
  {
    var n := experts / ep;
    assert experts == ep * n + experts % ep;
    forall expert: nat
      ensures Owned(n, ep, expert) <==> expert < ep * n
    {
      OwnedIff(n, ep, expert);
    }
    if experts % ep != 0 {
      OwnedIff(n, ep, ep * n);
      assert !Owned(n, ep, ep * n);
    }
  }

  // ----- np.array_split -----

  function ChunkSize(quotient: nat, extras: nat): nat {
    if extras > 0 then quotient + 1 else quotient
  }

  function Fewer(extras: nat): nat {
    if extras > 0 then extras - 1 else 0
  }

  /** n chunks, the first `extras` of them one longer than the quotient, are just as long as the whole. */
  predicate Covers(length: int, n: nat, quotient: nat, extras: nat)
    decreases n
  {
    if n == 0 then length == 0
    else length >= ChunkSize(quotient, extras)
         && Covers(length - ChunkSize(quotient, extras), n - 1, quotient, Fewer(extras))
  }

  lemma {:induction false} CoversIff(length: int, n: nat, quotient: nat, extras: nat)
    requires extras <= n
    ensures Covers(length, n, quotient, extras) <==> length == n * quotient + extras
    decreases n
  {
    if n > 0 {
      CoversIff(length - ChunkSize(quotient, extras), n - 1, quotient, Fewer(extras));
      assert n * quotient == (n - 1) * quotient + quotient;
      assert n * quotient >= quotient;
    }
  }

  lemma DivisionCovers(length: nat, n: nat)
    requires n > 0
    ensures Covers(length, n, length / n, length % n)
  {
    CoversIff(length, n, length / n, length % n);
  }

  function ChunksFrom<T>(s: seq<T>, lo: nat, n: nat, quotient: nat, extras: nat): (chunks: seq<seq<T>>)
    requires lo <= |s| && Covers(|s| - lo, n, quotient, extras)
    ensures |chunks| == n
    ensures forall i :: 0 <= i < n ==> |chunks[i]| == quotient + if i < extras then 1 else 0
    decreases n
  {
    if n == 0 then []
    else
      var size := ChunkSize(quotient, extras);
      [s[lo..lo + size]] + ChunksFrom(s, lo + size, n - 1, quotient, Fewer(extras))
  }

  function ArraySplit<T>(s: seq<T>, n: nat): (chunks: seq<seq<T>>)
    requires n > 0
    ensures |chunks| == n
    ensures forall i :: 0 <= i < n ==> |chunks[i]| == |s| / n + if i < |s| % n then 1 else 0
  {
    DivisionCovers(|s|, n);
    ChunksFrom(s, 0, n, |s| / n, |s| % n)
  }

  lemma {:induction false} ChunksJoin<T>(s: seq<T>, lo: nat, n: nat, quotient: nat, extras: nat)
    requires lo <= |s| && Covers(|s| - lo, n, quotient, extras)
    ensures Flatten(ChunksFrom(s, lo, n, quotient, extras)) == s[lo..]
    decreases n
  {
    if n > 0 {
      var size := ChunkSize(quotient, extras);
      ChunksJoin(s, lo + size, n - 1, quotient, Fewer(extras));
      FlattenCons(s[lo..lo + size], ChunksFrom(s, lo + size, n - 1, quotient, Fewer(extras)));
      Adjacent(s, lo, lo + size);
    }
  }

  // ----- the files -----

  predicate Distinct<T(==)>(s: seq<T>) {
    forall i, j :: 0 <= i < j < |s| ==> s[i] != s[j]
  }

  predicate Disjoint<T(==)>(s: seq<T>, t: seq<T>) {
    forall x :: x in s ==> x !in t
  }

  lemma {:induction false} InFlatten<T>(chunks: seq<seq<T>>, x: T)
    ensures x in Flatten(chunks) <==> exists i :: 0 <= i < |chunks| && x in chunks[i]
    decreases |chunks|
  {
    if chunks != [] {
      var m := |chunks| - 1;
      InFlatten(chunks[..m], x);
      if i :| 0 <= i < |chunks| && x in chunks[i] {
        assert i < m ==> x in chunks[..m][i];
      }
      if i :| 0 <= i < m && x in chunks[..m][i] {
        assert x in chunks[i];
      }
    }
  }

  lemma DistinctHalves<T>(s: seq<T>, t: seq<T>)
    requires Distinct(s + t)
    ensures Distinct(s) && Disjoint(s, t)
  {
    forall i, j | 0 <= i < j < |s|
      ensures s[i] != s[j]
    {
      assert (s + t)[i] == s[i] && (s + t)[j] == s[j];
    }
    forall x | x in s
      ensures x !in t
    {
      var i :| 0 <= i < |s| && s[i] == x;
      forall j | 0 <= j < |t|
        ensures t[j] != x
      {
        assert (s + t)[i] == x && (s + t)[|s| + j] == t[j];
      }
    }
  }

  lemma {:induction false} ChunksAreDisjoint<T>(chunks: seq<seq<T>>, j: nat, i: nat)
    requires Distinct(Flatten(chunks)) && j < i < |chunks|
    ensures Disjoint(chunks[j], chunks[i])
    decreases |chunks|
  {
    var m := |chunks| - 1;
    DistinctHalves(Flatten(chunks[..m]), chunks[m]);
    if i < m {
      ChunksAreDisjoint(chunks[..m], j, i);
    } else {
      forall x | x in chunks[j]
        ensures x !in chunks[i]
      {
        assert x in chunks[..m][j];
        InFlatten(chunks[..m], x);
      }
    }
  }

  ghost predicate PairwiseDisjoint<T>(chunks: seq<seq<T>>) {
    forall j, i {:trigger Disjoint(chunks[j], chunks[i])} :: 0 <= j < i < |chunks| ==> Disjoint(chunks[j], chunks[i])
  }

  lemma DistinctIsDisjoint<T>(chunks: seq<seq<T>>)
    requires Distinct(Flatten(chunks))
    ensures PairwiseDisjoint(chunks)
  {
    forall j, i | 0 <= j < i < |chunks|
      ensures Disjoint(chunks[j], chunks[i])
    {
      ChunksAreDisjoint(chunks, j, i);
    }
  }

  /** A key is listed only under the number of a file it is in. */
  predicate ListedRight<T(==)>(chunks: seq<seq<T>>, n: nat, first: nat, index: map<T, nat>, key: T)
    requires n <= |chunks|
  {
    key in index ==> first <= index[key] < first + n && key in chunks[index[key] - first]
  }

  /** And under every number it is in, so there is one only. */
  predicate Listed<T(==)>(chunks: seq<seq<T>>, i: nat, first: nat, index: map<T, nat>, key: T)
    requires i < |chunks|
  {
    key in chunks[i] ==> key in index && index[key] == first + i
  }

  ghost predicate Indexed<T(!new)>(chunks: seq<seq<T>>, n: nat, first: nat, index: map<T, nat>)
    requires n <= |chunks|
  {
    && (forall key {:trigger ListedRight(chunks, n, first, index, key)} :: ListedRight(chunks, n, first, index, key))
    && (forall i: nat, key {:trigger Listed(chunks, i, first, index, key)} :: i < n ==>
          Listed(chunks, i, first, index, key))
  }

  /** The first n chunks saved as files, numbered from `first` on. */
  predicate FilesAre<T(==)>(files: seq<(nat, seq<T>)>, chunks: seq<seq<T>>, first: nat, n: nat)
    requires n <= |chunks|
  {
    |files| == n && forall i :: 0 <= i < n ==> files[i] == (first + i, chunks[i])
  }

  /** One file more in the index. */
  predicate Extended<T(==)>(index: map<T, nat>, chunk: seq<T>, f: nat, next: map<T, nat>, key: T) {
    && (key in next <==> key in index || key in chunk)
    && (key in next ==> next[key] == if key in chunk then f else index[key])
  }

  /** saves_indexes for one file. */
  method IndexFile<T(==,!new)>(before: map<T, nat>, chunk: seq<T>, f: nat) returns (index: map<T, nat>)
    ensures forall key {:trigger Extended(before, chunk, f, index, key)} :: Extended(before, chunk, f, index, key)
  {
    index := before;
    for k := 0 to |chunk|
      invariant forall key {:trigger Extended(before, chunk[..k], f, index, key)} ::
                  Extended(before, chunk[..k], f, index, key)
    {
      ghost var was, more := index, chunk[..k + 1];
      index := index[chunk[k] := f];
      forall key
        ensures Extended(before, more, f, index, key)
      {
        assert Extended(before, chunk[..k], f, was, key);
        assert more == chunk[..k] + [chunk[k]];
      }
    }
    assert chunk[..|chunk|] == chunk;
  }

  lemma KeyStays<T>(chunks: seq<seq<T>>, n: nat, first: nat, index: map<T, nat>, next: map<T, nat>, i: nat, key: T)
    requires i <= n < |chunks|
    requires i < n ==> Listed(chunks, i, first, index, key) && Disjoint(chunks[i], chunks[n])
    requires Extended(index, chunks[n], first + n, next, key)
    ensures Listed(chunks, i, first, next, key)
  {
  }

  lemma KeyIsRight<T>(chunks: seq<seq<T>>, n: nat, first: nat, index: map<T, nat>, next: map<T, nat>, key: T)
    requires n < |chunks| && ListedRight(chunks, n, first, index, key)
    requires Extended(index, chunks[n], first + n, next, key)
    ensures ListedRight(chunks, n + 1, first, next, key)
  {
  }

  lemma IndexOneMore<T(!new)>(chunks: seq<seq<T>>, n: nat, first: nat, index: map<T, nat>, next: map<T, nat>)
    requires n < |chunks| && Indexed(chunks, n, first, index) && PairwiseDisjoint(chunks)
    requires forall key {:trigger Extended(index, chunks[n], first + n, next, key)} ::
               Extended(index, chunks[n], first + n, next, key)
    ensures Indexed(chunks, n + 1, first, next)
  {
    var m := n + 1;
    forall key
      ensures ListedRight(chunks, m, first, next, key)
    {
      assert ListedRight(chunks, n, first, index, key) && Extended(index, chunks[n], first + n, next, key);
      KeyIsRight(chunks, n, first, index, next, key);
    }
    forall i: nat, key | i < m
      ensures Listed(chunks, i, first, next, key)
    {
      assert Extended(index, chunks[n], first + n, next, key);
      assert i < n ==> Listed(chunks, i, first, index, key) && Disjoint(chunks[i], chunks[n]);
      KeyStays(chunks, n, first, index, next, i, key);
    }
  }

  lemma IndexIsComplete<T(!new)>(chunks: seq<seq<T>>, first: nat, index: map<T, nat>)
    requires Indexed(chunks, |chunks|, first, index)
    ensures index.Keys == (set key | key in Flatten(chunks))
  {
    forall key | key in index
      ensures key in Flatten(chunks)
    {
      InFlatten(chunks, key);
      assert ListedRight(chunks, |chunks|, first, index, key);
    }
    forall key | key in Flatten(chunks)
      ensures key in index
    {
      InFlatten(chunks, key);
      var i :| 0 <= i < |chunks| && key in chunks[i];
      assert Listed(chunks, i, first, index, key);
    }
  }

  lemma ArraySplitJoins<T>(s: seq<T>, n: nat)
    requires n > 0
    ensures Flatten(ArraySplit(s, n)) == s && |ArraySplit(s, n)| == n
    ensures forall i :: 0 <= i < n ==> |ArraySplit(s, n)[i]| == |s| / n + if i < |s| % n then 1 else 0
    ensures Distinct(s) ==> PairwiseDisjoint(ArraySplit(s, n))
  {
    DivisionCovers(|s|, n);
    ChunksJoin(s, 0, n, |s| / n, |s| % n);
    assert s[0..] == s;
    if Distinct(s) {
      DistinctIsDisjoint(ArraySplit(s, n));
    }
  }

  /** The loop over the files. */
  method WriteFiles<T(==,!new)>(chunks: seq<seq<T>>, first: nat) returns (files: seq<(nat, seq<T>)>, index: map<T, nat>)
    requires PairwiseDisjoint(chunks)
    ensures Indexed(chunks, |chunks|, first, index) && FilesAre(files, chunks, first, |chunks|)
  {
    files, index := [], map[];
    for i := 0 to |chunks|
      invariant Indexed(chunks, i, first, index) && FilesAre(files, chunks, first, i)
    {
      var next := IndexFile(index, chunks[i], first + i);
      IndexOneMore(chunks, i, first, index, next);
      files, index := files + [(first + i, chunks[i])], next;
    }
  }

  /** One rank's part of save_hf_model_and_tokenizer: the keys of `layers` layers in `perLayer` files each, numbered
      from the rank's first layer on; no files where array_split has nothing to split into. */
  method SaveShards<T(==,!new)>(keys: seq<T>, start: nat, layers: nat, perLayer: nat)
    returns (ok: bool, files: seq<(nat, seq<T>)>, index: map<T, nat>)
    requires Distinct(keys)
    ensures ok <==> layers * perLayer > 0
    ensures ok ==> Indexed(ArraySplit(keys, layers * perLayer), layers * perLayer, start * perLayer, index)
    ensures ok ==> FilesAre(files, ArraySplit(keys, layers * perLayer), start * perLayer, layers * perLayer)
    ensures ok ==> index.Keys == set key | key in keys
  {
    var n := layers * perLayer;
    if n == 0 {
      return false, [], map[];
    }
    var chunks := ArraySplit(keys, n);
    ArraySplitJoins(keys, n);
    files, index := WriteFiles(chunks, start * perLayer);
    IndexIsComplete(chunks, start * perLayer, index);
    ok := true;
  }

  lemma BelowIff(bound: nat, file: nat, perLayer: nat)
    requires perLayer > 0
    ensures file / perLayer < bound <==> file < bound * perLayer
  {
    var layer := file / perLayer;
    assert file == layer * perLayer + file % perLayer;
    if layer < bound {
      MulMono(layer + 1, bound, perLayer);
      MulStep(layer, perLayer);
    } else {
      MulMono(bound, layer, perLayer);
    }
  }

  lemma RangeIff(start: nat, count: nat, file: nat, perLayer: nat)
    requires perLayer > 0
    ensures start <= file / perLayer < start + count <==> start * perLayer <= file < start * perLayer + count * perLayer
  {
    BelowIff(start, file, perLayer);
    BelowIff(start + count, file, perLayer);
    Distribute(start, count, perLayer);
  }

  /** The ranks' file numbers tile 0 to L * perLayer - 1: every file is written by exactly one rank, the one that has
      the layer it belongs to. */
  lemma FilesTile(shards: seq<nat>, perLayer: nat, r: nat, file: nat)
    requires perLayer > 0 && r < |shards|
    ensures HasLayers(shards, r, file / perLayer) <==>
            SumTo(shards, r) * perLayer <= file < SumTo(shards, r) * perLayer + shards[r] * perLayer
    ensures file / perLayer < SumTo(shards, |shards|) <==> file < SumTo(shards, |shards|) * perLayer
  {
    RangeIff(SumTo(shards, r), shards[r], file, perLayer);
    BelowIff(SumTo(shards, |shards|), file, perLayer);
  }

  /** The file number belongs to a layer of rank r. */
  predicate Writes(shards: seq<nat>, perLayer: nat, r: nat, file: nat) {
    r < |shards| && SumTo(shards, r) * perLayer <= file < SumTo(shards, r) * perLayer + shards[r] * perLayer
  }

  /** Every file number below L * perLayer has a rank that writes it, no other number has one, and none has two. */
  lemma EveryFileHasOneRank(shards: seq<nat>, perLayer: nat, file: nat)
    requires perLayer > 0
    ensures file < SumTo(shards, |shards|) * perLayer <==> exists r :: Writes(shards, perLayer, r, file)
    ensures forall r: nat, q: nat :: Writes(shards, perLayer, r, file) && Writes(shards, perLayer, q, file) ==> r == q
  {
    forall r: nat | r < |shards|
      ensures Writes(shards, perLayer, r, file) <==> HasLayers(shards, r, file / perLayer)
    {
      FilesTile(shards, perLayer, r, file);
    }
    BelowIff(SumTo(shards, |shards|), file, perLayer);
    RanksTileTheLayers(shards, file / perLayer);
    if r :| HasLayers(shards, r, file / perLayer) {
      assert Writes(shards, perLayer, r, file);
    }
    if r :| Writes(shards, perLayer, r, file) {
      assert HasLayers(shards, r, file / perLayer);
    }
  }
}
