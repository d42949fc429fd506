/** The trainer side of the kimi engine: which tensors a rank registers, and in which buckets. */
module KimiRegistration {
  import opened Arithmetic
  import opened Buffers
  import opened Sequences
  import opened Wrappers

  /** A tensor with its name. */
  datatype Item = Item(name: string, data: seq<byte>)

  function TotalSize(bucket: seq<Item>): nat {
    if bucket == [] then 0 else TotalSize(bucket[..|bucket| - 1]) + |bucket[|bucket| - 1].data|
  }

  /** The tensors of one rank: every worldSize-th, from its own number on. */
  function Share(tensors: seq<Item>, worldSize: nat, rank: nat): seq<Item>
    requires worldSize > 0
  {
    if tensors == [] then []
    else
      var n := |tensors| - 1;
      Share(tensors[..n], worldSize, rank) + if n % worldSize == rank then [tensors[n]] else []
  }

  // ----- a bucket is a dictionary -----

  function IndexOf(bucket: seq<Item>, name: string): (at: Option<nat>)
    ensures at.Some? ==> at.value < |bucket| && bucket[at.value].name == name
    ensures at.None? ==> forall k :: 0 <= k < |bucket| ==> bucket[k].name != name
  {
    if bucket == [] then None
    else if bucket[|bucket| - 1].name == name then Some(|bucket| - 1)
    else IndexOf(bucket[..|bucket| - 1], name)
  }

  /** current_bucket[name] = tensor: a name that is there keeps its place and gets the new tensor. */
  function Put(bucket: seq<Item>, item: Item): seq<Item> {
    match IndexOf(bucket, item.name)
    case None => bucket + [item]
    case Some(k) => bucket[k := item]
  }

  /** The dictionary these tensors make. */
  function Dict(items: seq<Item>): seq<Item> {
    if items == [] then [] else Put(Dict(items[..|items| - 1]), items[|items| - 1])
  }

  predicate DistinctNames(items: seq<Item>) {
    forall i, j :: 0 <= i < j < |items| ==> items[i].name != items[j].name
  }

  predicate HasName(items: seq<Item>, name: string) {
    exists k :: 0 <= k < |items| && items[k].name == name
  }

  lemma PutKeepsDistinct(bucket: seq<Item>, item: Item)
    requires DistinctNames(bucket)
    ensures DistinctNames(Put(bucket, item))
  {
  }

  lemma PutAddsName(bucket: seq<Item>, item: Item, name: string)
    ensures HasName(Put(bucket, item), name) <==> HasName(bucket, name) || name == item.name
  {
    var next := Put(bucket, item);
    var at := if IndexOf(bucket, item.name).Some? then IndexOf(bucket, item.name).value else |bucket|;
    assert next[at] == item;
    if k :| 0 <= k < |bucket| && bucket[k].name == name {
      assert next[k].name == name;
    }
    if k :| 0 <= k < |next| && next[k].name == name && k != at {
      assert bucket[k].name == name;
    }
  }

  lemma HasNameSnoc(items: seq<Item>, item: Item, name: string)
    ensures HasName(items + [item], name) <==> HasName(items, name) || name == item.name
  {
    var more := items + [item];
    assert more[|items|] == item;
    if k :| 0 <= k < |items| && items[k].name == name {
      assert more[k].name == name;
    }
  }

  /** Names are kept, each once. */
  lemma {:induction false} DictNames(items: seq<Item>, name: string)
    ensures DistinctNames(Dict(items)) && (HasName(Dict(items), name) <==> HasName(items, name))
  {
    if items != [] {
      var front, last := items[..|items| - 1], items[|items| - 1];
      assert items == front + [last];
      DictNames(front, name);
      PutKeepsDistinct(Dict(front), last);
      PutAddsName(Dict(front), last, name);
      HasNameSnoc(front, last, name);
    }
  }

  /** items[k] is the last one with its name. */
  predicate LastOfName(items: seq<Item>, k: nat, item: Item) {
    k < |items| && items[k] == item && forall j :: k < j < |items| ==> items[j].name != item.name
  }

  lemma PutHas(bucket: seq<Item>, item: Item, e: Item)
    requires DistinctNames(bucket)
    ensures e in Put(bucket, item) <==> e == item || (e in bucket && e.name != item.name)
  {
    var next, at := Put(bucket, item), IndexOf(bucket, item.name);
    var k := if at.Some? then at.value else |bucket|;
    assert next[k] == item;
    if i :| 0 <= i < |bucket| && bucket[i] == e && e.name != item.name {
      assert next[i] == e;
    }
    if i :| 0 <= i < |next| && next[i] == e && i != k {
      assert bucket[i] == e;
    }
  }

  lemma LastSnoc(front: seq<Item>, last: Item, e: Item)
    ensures (exists k: nat :: LastOfName(front + [last], k, e)) <==>
              e == last || ((exists k: nat :: LastOfName(front, k, e)) && e.name != last.name)
  {
    var items := front + [last];
    if e == last {
      assert LastOfName(items, |front|, e);
    } else if k: nat :| LastOfName(front, k, e) && e.name != last.name {
      assert LastOfName(items, k, e);
    }
    if k: nat :| LastOfName(items, k, e) && e != last {
      assert items[|front|] == last;
      assert k < |front| && forall j :: k < j < |front| ==> items[j] == front[j];
      assert LastOfName(front, k, e);
      assert items[|front|].name != e.name;
    }
  }

  /** Of the tensors with one name exactly the last one is kept. */
  lemma {:induction false} LastIsKept(items: seq<Item>, e: Item)
    ensures e in Dict(items) <==> exists k: nat :: LastOfName(items, k, e)
  {
    if items != [] {
      var front, last := items[..|items| - 1], items[|items| - 1];
      LastIsKept(front, e);
      DictNames(front, last.name);
      PutHas(Dict(front), last, e);
      LastSnoc(front, last, e);
      assert items == front + [last];
    }
  }

  lemma PutKeepsPlaces(bucket: seq<Item>, item: Item)
    ensures |bucket| <= |Put(bucket, item)| <= |bucket| + 1
    ensures forall k :: 0 <= k < |bucket| ==> Put(bucket, item)[k].name == bucket[k].name
    ensures |bucket| < |Put(bucket, item)| ==> Put(bucket, item)[|bucket|] == item && !HasName(bucket, item.name)
  {
  }

  /** Tensor a has the name and comes before any that has the other one. */
  predicate IsBefore(items: seq<Item>, a: nat, name: string, other: string) {
    a < |items| && items[a].name == name && forall b :: 0 <= b < |items| && items[b].name == other ==> a < b
  }

  lemma BeforeStays(front: seq<Item>, last: Item, a: nat, name: string, other: string)
    requires IsBefore(front, a, name, other)
    ensures IsBefore(front + [last], a, name, other)
  {
  }

  lemma NewNameIsLater(front: seq<Item>, last: Item, name: string) returns (a: nat)
    requires HasName(front, name) && !HasName(front, last.name)
    ensures IsBefore(front + [last], a, name, last.name)
  {
    a :| 0 <= a < |front| && front[a].name == name;
    assert forall b :: 0 <= b < |front| ==> (front + [last])[b] == front[b];
  }

  /** Names are in the order in which they were put first; a later tensor of the name takes the place. */
  lemma {:induction false} FirstsAreInOrder(items: seq<Item>, i: nat, j: nat) returns (a: nat)
    requires i < j < |Dict(items)|
    ensures IsBefore(items, a, Dict(items)[i].name, Dict(items)[j].name)
  {
    var front, last := items[..|items| - 1], items[|items| - 1];
    var dict := Dict(front);
    assert items == front + [last] && Dict(items) == Put(dict, last);
    PutKeepsPlaces(dict, last);
    if j < |dict| {
      a := FirstsAreInOrder(front, i, j);
      BeforeStays(front, last, a, dict[i].name, dict[j].name);
    } else {
      DictNames(front, dict[i].name);
      DictNames(front, last.name);
      a := NewNameIsLater(front, last, dict[i].name);
    }
  }

  lemma PutSize(bucket: seq<Item>, item: Item)
    ensures |Put(bucket, item)| == |bucket| + (if HasName(bucket, item.name) then 0 else 1)
    ensures !HasName(bucket, item.name) ==> Put(bucket, item) == bucket + [item]
  {
  }

  lemma DistinctSnoc(front: seq<Item>, last: Item)
    ensures DistinctNames(front + [last]) <==> DistinctNames(front) && !HasName(front, last.name)
  {
    var all := front + [last];
    if k :| 0 <= k < |front| && front[k].name == last.name {
      assert all[k].name == all[|front|].name;
    }
    if i, j :| 0 <= i < j < |front| && front[i].name == front[j].name {
      assert all[i].name == all[j].name;
    }
    if i, j :| 0 <= i < j < |all| && all[i].name == all[j].name {
      assert front[i].name == all[i].name;
      assert j < |front| ==> front[j].name == all[j].name;
    }
  }

  lemma DictIffStep(front: seq<Item>, last: Item, b: seq<Item>)
    requires |b| <= |front| && (|b| == |front| <==> DistinctNames(front)) && (DistinctNames(front) ==> b == front)
    requires HasName(b, last.name) <==> HasName(front, last.name)
    ensures var next, items := Put(b, last), front + [last];
            && |next| <= |items| && (|next| == |items| <==> DistinctNames(items))
            && (DistinctNames(items) ==> next == items)
  {
    PutSize(b, last);
    DistinctSnoc(front, last);
  }

  /** A dictionary is no longer than what was put into it, and as long only if it is the same. */
  lemma {:induction false} DictIff(items: seq<Item>)
    ensures |Dict(items)| <= |items|
    ensures |Dict(items)| == |items| <==> DistinctNames(items)
    ensures DistinctNames(items) ==> Dict(items) == items
  {
    if items != [] {
      var front, last := items[..|items| - 1], items[|items| - 1];
      DictIff(front);
      DictNames(front, last.name);
      DictIffStep(front, last, Dict(front));
      assert items == front + [last];
    }
  }

  lemma {:induction false} TotalOfUpdate(bucket: seq<Item>, k: nat, item: Item)
    requires k < |bucket|
    ensures TotalSize(bucket[k := item]) + |bucket[k].data| == TotalSize(bucket) + |item.data|
  {
    var n := |bucket| - 1;
    if k == n {
      assert bucket[k := item][..n] == bucket[..n];
    } else {
      TotalOfUpdate(bucket[..n], k, item);
      assert bucket[k := item][..n] == bucket[..n][k := item];
    }
  }

  lemma {:induction false} DictTotal(items: seq<Item>)
    ensures TotalSize(Dict(items)) <= TotalSize(items)
  {
    if items != [] {
      var front, last := items[..|items| - 1], items[|items| - 1];
      DictTotal(front);
      match IndexOf(Dict(front), last.name) {
        case None => assert (Dict(front) + [last])[..|Dict(front)|] == Dict(front);
        case Some(k) => TotalOfUpdate(Dict(front), k, last);
      }
    }
  }

  // ----- which tensors share a bucket -----

  /** What has been put into the finished buckets and into the current one. */
  datatype Groups = Groups(closed: seq<seq<Item>>, current: seq<Item>)

  function Grouping(items: seq<Item>, bucketBytes: nat): Groups {
    if items == [] then Groups([], [])
    else
      var g, item := Grouping(items[..|items| - 1], bucketBytes), items[|items| - 1];
      if g.current != [] && TotalSize(g.current) + |item.data| > bucketBytes then Groups(g.closed + [g.current], [item])
      else Groups(g.closed, g.current + [item])
  }

  function AllGroups(items: seq<Item>, bucketBytes: nat): seq<seq<Item>> {
    var g := Grouping(items, bucketBytes);
    if g.current == [] then g.closed else g.closed + [g.current]
  }

  /** Within the limit, or a single tensor that is over it by itself. */
  predicate FitsBucket(bucket: seq<Item>, bucketBytes: nat) {
    |bucket| > 0 && (|bucket| == 1 || TotalSize(bucket) <= bucketBytes)
  }

  predicate AllFit(buckets: seq<seq<Item>>, bucketBytes: nat) {
    forall b :: 0 <= b < |buckets| ==> FitsBucket(buckets[b], bucketBytes)
  }

  /** The groups put together are the tensors, and each of them fits. */
  predicate GroupsOf(g: Groups, items: seq<Item>, bucketBytes: nat) {
    && Flatten(g.closed) + g.current == items && AllFit(g.closed, bucketBytes)
    && (g.current != [] ==> FitsBucket(g.current, bucketBytes))
  }

  lemma CloseGroup(g: Groups, items: seq<Item>, bucketBytes: nat)
    requires GroupsOf(g, items, bucketBytes) && g.current != []
    ensures GroupsOf(Groups(g.closed + [g.current], []), items, bucketBytes)
  {
    FlattenSnoc(g.closed, g.current);
  }

  lemma GrowGroup(g: Groups, items: seq<Item>, bucketBytes: nat, item: Item)
    requires GroupsOf(g, items, bucketBytes) && (g.current == [] || TotalSize(g.current) + |item.data| <= bucketBytes)
    ensures GroupsOf(Groups(g.closed, g.current + [item]), items + [item], bucketBytes)
  {
    assert (g.current + [item])[..|g.current|] == g.current;
    assert Flatten(g.closed) + (g.current + [item]) == (Flatten(g.closed) + g.current) + [item];
  }

  lemma {:induction false} GroupingIsRight(items: seq<Item>, bucketBytes: nat)
    ensures GroupsOf(Grouping(items, bucketBytes), items, bucketBytes)
  {
    if items != [] {
      var front, item := items[..|items| - 1], items[|items| - 1];
      GroupingIsRight(front, bucketBytes);
      assert items == front + [item];
      var g := Grouping(front, bucketBytes);
      if g.current != [] && TotalSize(g.current) + |item.data| > bucketBytes {
        CloseGroup(g, front, bucketBytes);
        GrowGroup(Groups(g.closed + [g.current], []), front, bucketBytes, item);
        assert [] + [item] == [item];
      } else {
        GrowGroup(g, front, bucketBytes, item);
      }
    }
  }

  /** The groups, one after the other, are the tensors; each fits. */
  lemma {:induction false} GroupsAreRight(items: seq<Item>, bucketBytes: nat)
    ensures Flatten(AllGroups(items, bucketBytes)) == items && AllFit(AllGroups(items, bucketBytes), bucketBytes)
  {
    var g := Grouping(items, bucketBytes);
    GroupingIsRight(items, bucketBytes);
    if g.current != [] {
      CloseGroup(g, items, bucketBytes);
    }
  }

  function DataOf(bucket: seq<Item>): seq<seq<byte>> {
    seq(|bucket|, i requires 0 <= i < |bucket| => bucket[i].data)
  }

  /** The size is the number of bytes of all tensors together. */
  lemma {:induction false} TotalSizeIsBytes(bucket: seq<Item>)
    ensures TotalSize(bucket) == |Flatten(DataOf(bucket))|
  {
    if bucket != [] {
      var front, last := bucket[..|bucket| - 1], bucket[|bucket| - 1];
      TotalSizeIsBytes(front);
      FlattenSnoc(DataOf(front), last.data);
      assert DataOf(bucket) == DataOf(front) + [last.data];
    }
  }

  /** A group is only closed for a tensor that would have been too much for it. */
  predicate ClosedFor(groups: seq<seq<Item>>, bucketBytes: nat, g: nat)
    requires 0 < g < |groups|
  {
    groups[g] != [] && TotalSize(groups[g - 1]) + |groups[g][0].data| > bucketBytes
  }

  ghost predicate AllClosed(groups: seq<seq<Item>>, bucketBytes: nat) {
    forall g {:trigger ClosedFor(groups, bucketBytes, g)} :: 0 < g < |groups| ==> ClosedFor(groups, bucketBytes, g)
  }

  lemma CloseForNext(groups: seq<seq<Item>>, bucketBytes: nat, item: Item)
    requires AllClosed(groups, bucketBytes) && groups != []
    requires TotalSize(groups[|groups| - 1]) + |item.data| > bucketBytes
    ensures AllClosed(groups + [[item]], bucketBytes)
  {
    var more := groups + [[item]];
    forall g | 0 < g < |more|
      ensures ClosedFor(more, bucketBytes, g)
    {
      if g < |groups| {
        assert ClosedFor(groups, bucketBytes, g);
        assert more[g] == groups[g] && more[g - 1] == groups[g - 1];
      }
    }
  }

  lemma GrowLast(closed: seq<seq<Item>>, current: seq<Item>, bucketBytes: nat, item: Item)
    requires AllClosed(closed + [current], bucketBytes) && current != []
    ensures AllClosed(closed + [current + [item]], bucketBytes)
  {
    var before, after := closed + [current], closed + [current + [item]];
    forall g | 0 < g < |after|
      ensures ClosedFor(after, bucketBytes, g)
    {
      assert ClosedFor(before, bucketBytes, g);
      assert after[g - 1] == before[g - 1] && after[g][0] == before[g][0];
    }
  }

  lemma {:induction false} GroupsAreClosed(items: seq<Item>, bucketBytes: nat)
    ensures AllClosed(AllGroups(items, bucketBytes), bucketBytes)
    ensures Grouping(items, bucketBytes).current == [] <==> items == []
    ensures items == [] ==> Grouping(items, bucketBytes).closed == []
  {
    if items != [] {
      var front, item := items[..|items| - 1], items[|items| - 1];
      GroupsAreClosed(front, bucketBytes);
      var g := Grouping(front, bucketBytes);
      if g.current != [] {
        if TotalSize(g.current) + |item.data| > bucketBytes {
          CloseForNext(g.closed + [g.current], bucketBytes, item);
        } else {
          GrowLast(g.closed, g.current, bucketBytes, item);
        }
      }
    }
  }

  function Dicts(groups: seq<seq<Item>>): (dicts: seq<seq<Item>>)
    ensures |dicts| == |groups|
  {
    seq(|groups|, i requires 0 <= i < |groups| => Dict(groups[i]))
  }

  lemma DictsSnoc(groups: seq<seq<Item>>, group: seq<Item>)
    ensures Dicts(groups + [group]) == Dicts(groups) + [Dict(group)]
  {
  }

  lemma DictsFit(groups: seq<seq<Item>>, bucketBytes: nat)
    requires AllFit(groups, bucketBytes)
    ensures AllFit(Dicts(groups), bucketBytes)
  {
    forall b | 0 <= b < |groups|
      ensures FitsBucket(Dict(groups[b]), bucketBytes)
    {
      assert FitsBucket(groups[b], bucketBytes);
      DictFits(groups[b], bucketBytes);
    }
  }

  lemma DictFits(group: seq<Item>, bucketBytes: nat)
    requires FitsBucket(group, bucketBytes)
    ensures FitsBucket(Dict(group), bucketBytes)
  {
    DictIff(group);
    DictTotal(group);
    DictNames(group, group[0].name);
  }

  predicate AllDistinct(groups: seq<seq<Item>>) {
    forall b :: 0 <= b < |groups| ==> DistinctNames(groups[b])
  }

  lemma AllDistinctSnoc(front: seq<seq<Item>>, last: seq<Item>)
    ensures AllDistinct(front + [last]) <==> AllDistinct(front) && DistinctNames(last)
  {
    var all := front + [last];
    assert all[|front|] == last;
    assert forall b :: 0 <= b < |front| ==> all[b] == front[b];
  }

  /** The dictionaries have all tensors if and only if no group has a name twice. */
  lemma {:induction false} NothingIsLostIff(groups: seq<seq<Item>>)
    ensures |Flatten(Dicts(groups))| <= |Flatten(groups)|
    ensures |Flatten(Dicts(groups))| == |Flatten(groups)| <==> AllDistinct(groups)
    ensures AllDistinct(groups) ==> Flatten(Dicts(groups)) == Flatten(groups)
    decreases |groups|
  {
    if groups != [] {
      var front, last := groups[..|groups| - 1], groups[|groups| - 1];
      NothingIsLostIff(front);
      DictIff(last);
      DictsSnoc(front, last);
      FlattenSnoc(Dicts(front), Dict(last));
      FlattenSnoc(front, last);
      AllDistinctSnoc(front, last);
      assert groups == front + [last];
    }
  }

  // ----- the generator -----

  /** ckpt_get_named_tensor_buckets; None for the ValueError. The buckets have all tensors of the share, in order, if
      and only if no name comes twice among the tensors put into one bucket. */
  method NamedTensorBuckets(tensors: seq<Item>, bucketBytes: int, worldSize: nat, rank: nat)
    returns (result: Option<seq<seq<Item>>>)
    requires worldSize > 0
    ensures result.None? <==> bucketBytes <= 0
    ensures result.Some? ==> result.value == Dicts(AllGroups(Share(tensors, worldSize, rank), bucketBytes))
    ensures result.Some? ==> AllFit(result.value, bucketBytes)
    ensures result.Some? ==> AllClosed(AllGroups(Share(tensors, worldSize, rank), bucketBytes), bucketBytes)
    ensures result.Some? ==> (Flatten(result.value) == Share(tensors, worldSize, rank)
                              <==> AllDistinct(AllGroups(Share(tensors, worldSize, rank), bucketBytes)))
  {
    if bucketBytes <= 0 {
      return None;
    }
    var buckets: seq<seq<Item>>, bucket: seq<Item>, size: nat := [], [], 0;
    ghost var share: seq<Item> := [];
    for i := 0 to |tensors|
      invariant share == Share(tensors[..i], worldSize, rank)
      invariant IsGrouping(Grouping(share, bucketBytes), buckets, bucket, size)
    {
      ShareSnoc(tensors, worldSize, rank, i);
      if i % worldSize == rank {
        buckets, bucket, size := AddTensor(share, buckets, bucket, size, tensors[i], bucketBytes);
        share := share + [tensors[i]];
      }
    }
    assert tensors[..|tensors|] == tensors;
    DictIsEmptyIff(Grouping(share, bucketBytes).current);
    DictsSnoc(Grouping(share, bucketBytes).closed, Grouping(share, bucketBytes).current);
    if bucket != [] {
      buckets := buckets + [bucket];
    }
    BucketsAreRight(share, bucketBytes);
    GroupsAreClosed(share, bucketBytes);
    result := Some(buckets);
  }

  /** What the buckets of a share are. */
  lemma BucketsAreRight(share: seq<Item>, bucketBytes: nat)
    ensures AllFit(Dicts(AllGroups(share, bucketBytes)), bucketBytes)
    ensures Flatten(Dicts(AllGroups(share, bucketBytes))) == share <==> AllDistinct(AllGroups(share, bucketBytes))
  {
    GroupsAreRight(share, bucketBytes);
    DictsFit(AllGroups(share, bucketBytes), bucketBytes);
    NothingIsLostIff(AllGroups(share, bucketBytes));
  }

  /** The loop's body for a tensor of the rank's own. */
  method AddTensor(ghost seen: seq<Item>, buckets: seq<seq<Item>>, bucket: seq<Item>, size: nat, item: Item,
                   bucketBytes: nat)
    returns (newBuckets: seq<seq<Item>>, newBucket: seq<Item>, newSize: nat)
    requires IsGrouping(Grouping(seen, bucketBytes), buckets, bucket, size)
    ensures IsGrouping(Grouping(seen + [item], bucketBytes), newBuckets, newBucket, newSize)
  {
    ghost var g := Grouping(seen, bucketBytes);
    assert (seen + [item])[..|seen|] == seen;
    DictIsEmptyIff(g.current);
    DictsSnoc(g.closed, g.current);
    PutSnoc(g.current, item);
    PutSnoc([], item);
    assert [] + [item] == [item];
    newBuckets, newBucket, newSize := buckets, bucket, size;
    if size + |item.data| > bucketBytes {
      if bucket != [] {
        newBuckets, newBucket, newSize := buckets + [bucket], [], 0;
      }
    }
    newBucket, newSize := Put(newBucket, item), newSize + |item.data|;
  }

  /** The variables of the loop. */
  predicate IsGrouping(g: Groups, buckets: seq<seq<Item>>, bucket: seq<Item>, size: nat) {
    buckets == Dicts(g.closed) && bucket == Dict(g.current) && size == TotalSize(g.current)
  }

  lemma ShareSnoc(tensors: seq<Item>, worldSize: nat, rank: nat, i: nat)
    requires worldSize > 0 && i < |tensors|
    ensures Share(tensors[..i + 1], worldSize, rank)
            == Share(tensors[..i], worldSize, rank) + if i % worldSize == rank then [tensors[i]] else []
  {
    assert tensors[..i + 1][..i] == tensors[..i];
  }

  lemma DictIsEmptyIff(items: seq<Item>)
    ensures Dict(items) == [] <==> items == []
  {
    if items != [] {
      DictNames(items, items[0].name);
    }
  }

  lemma PutSnoc(items: seq<Item>, item: Item)
    ensures TotalSize(items + [item]) == TotalSize(items) + |item.data|
    ensures Dict(items + [item]) == Put(Dict(items), item)
  {
    assert (items + [item])[..|items|] == items;
  }

  // ----- the shares of all ranks -----

  /** How many of the first n tensors go to a rank. */
  lemma {:induction false} ShareSize(tensors: seq<Item>, w: nat, rank: nat)
    requires rank < w
    ensures |Share(tensors, w, rank)| == |tensors| / w + (if rank < |tensors| % w then 1 else 0)
    decreases |tensors|
  {
    if tensors != [] {
      ShareSize(tensors[..|tensors| - 1], w, rank);
      DivStep(|tensors| - 1, w);
    }
  }

  /** The shares partition the input: tensor i is in the share of rank i % w, at place i / w, and the shares are no
      longer than that (so nothing is in two shares, and nothing else is in any). */
  lemma {:induction false} SharesPartition(tensors: seq<Item>, w: nat, i: nat)
    requires w > 0 && i < |tensors|
    ensures var share := Share(tensors, w, i % w); i / w < |share| && share[i / w] == tensors[i]
    decreases |tensors|
  {
    var n := |tensors| - 1;
    ShareSize(tensors[..n], w, i % w);
    if i < n {
      SharesPartition(tensors[..n], w, i);
    }
  }

  lemma PlaceIsInside(length: nat, w: nat, rank: nat, place: nat)
    requires rank < w && place < length / w + (if rank < length % w then 1 else 0)
    ensures place * w + rank < length
  {
    var q := length / w;
    assert length == q * w + length % w;
    MulMono(place, q, w);
    if place < q {
      MulMono(place + 1, q, w);
      MulStep(place, w);
    }
  }

  lemma ShareEntriesAreTensors(tensors: seq<Item>, w: nat, rank: nat, place: nat)
    requires rank < w && place < |Share(tensors, w, rank)|
    ensures var i := place * w + rank;
            i < |tensors| && i % w == rank && i / w == place && Share(tensors, w, rank)[place] == tensors[i]
  {
    ShareSize(tensors, w, rank);
    PlaceIsInside(|tensors|, w, rank, place);
    DivUnique(place, w, rank);
    var i := place * w + rank;
    assert i % w == rank && i / w == place;
    SharesPartition(tensors, w, i);
  }
}
