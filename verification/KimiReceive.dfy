/** receive_tensor of the kimi engine on one rank: its own buckets are staged once a round, copied into a half of the
    buffer at their turn and broadcast from there; the tensors of one bucket are yielded while the next one arrives. */
module KimiReceive {
  import opened Buffers
  import opened Wrappers

  /** The places of tensors in a bucket: offset and size. */
  type Items = seq<(nat, nat)>

  predicate Within(items: Items, size: nat) {
    forall i :: 0 <= i < |items| ==> items[i].0 + items[i].1 <= size
  }

  /** The tensors at these places. */
  function Cut(bytes: seq<byte>, items: Items): seq<seq<byte>>
    requires Within(items, |bytes|)
  {
    seq(|items|, i requires 0 <= i < |items| => bytes[items[i].0..items[i].0 + items[i].1])
  }

  /** An element of the list of buckets. `owned` is what a copy of the bucket from its owner gives, `local` what a copy
      gives that names no owner. */
  datatype Entry = Entry(receiver: nat, owner: nat, size: nat, items: Items, owned: seq<byte>, local: seq<byte>) {
    ghost predicate Valid(bucketSize: nat) {
      size <= bucketSize && |owned| == size == |local| && Within(items, size)
    }
  }

  ghost predicate AllValid(entries: seq<Entry>, bucketSize: nat) {
    forall b {:trigger entries[b].Valid(bucketSize)} :: 0 <= b < |entries| ==> entries[b].Valid(bucketSize)
  }

  /** Where receive_tensor runs, and whether it has a staging buffer. */
  datatype Site = Site(rank: nat, bucketSize: nat, staging: bool) {

    /** What the receiver of a bucket broadcasts. */
    function Source(e: Entry): seq<byte> {
      if staging then e.owned else e.local
    }

    /** What is in the half when the broadcast is complete. */
    function Got(e: Entry, arriving: seq<byte>): seq<byte> {
      if e.receiver == rank then Source(e) else arriving
    }

    /** What this rank puts into the broadcast. */
    function Sent(e: Entry): Option<seq<byte>> {
      if e.receiver == rank then Some(Source(e)) else None
    }
  }

  predicate PieceOf(es: seq<Entry>, pieces: seq<seq<byte>>, k: nat)
    requires k < |es| == |pieces|
  {
    |pieces[k]| == es[k].size
  }

  /** One piece for every broadcast, of the size of its bucket. */
  ghost predicate Pieces(es: seq<Entry>, pieces: seq<seq<byte>>) {
    |pieces| == |es| && forall k {:trigger PieceOf(es, pieces, k)} :: 0 <= k < |es| ==> PieceOf(es, pieces, k)
  }

  /** The tensors of the k-th bucket. */
  function TensorsAt(site: Site, es: seq<Entry>, arriving: seq<seq<byte>>, k: nat): seq<seq<byte>>
    requires AllValid(es, site.bucketSize) && Pieces(es, arriving) && k < |es|
  {
    assert es[k].Valid(site.bucketSize) && PieceOf(es, arriving, k);
    Cut(site.Got(es[k], arriving[k]), es[k].items)
  }

  /** The tensors of the first n buckets. */
  function Tensors(site: Site, es: seq<Entry>, arriving: seq<seq<byte>>, n: nat): seq<seq<byte>>
    requires AllValid(es, site.bucketSize) && Pieces(es, arriving) && n <= |es|
  {
    if n == 0 then [] else Tensors(site, es, arriving, n - 1) + TensorsAt(site, es, arriving, n - 1)
  }

  // ----- tensors, byte by byte -----

  /** The tensor has the bytes from `at` on. */
  predicate IsTensor(tensor: seq<byte>, bytes: seq<byte>, at: nat, size: nat) {
    && at + size <= |bytes| && |tensor| == size
    && forall j :: 0 <= j < size ==> tensor[j] == bytes[at + j]
  }

  /** One tensor for every item of the bucket, with the bytes from its offset on. */
  ghost predicate AreTensors(tensors: seq<seq<byte>>, bytes: seq<byte>, items: Items) {
    && |tensors| == |items|
    && forall i {:trigger TensorAt(tensors, bytes, items, i)} :: 0 <= i < |items| ==> TensorAt(tensors, bytes, items, i)
  }

  predicate TensorAt(tensors: seq<seq<byte>>, bytes: seq<byte>, items: Items, i: nat)
    requires i < |items| == |tensors|
  {
    IsTensor(tensors[i], bytes, items[i].0, items[i].1)
  }

  lemma CutIsTensors(bytes: seq<byte>, items: Items)
    requires Within(items, |bytes|)
    ensures AreTensors(Cut(bytes, items), bytes, items)
  {
  }

  /** How many tensors the first n buckets have. */
  function ItemCount(es: seq<Entry>, n: nat): nat
    requires n <= |es|
  {
    if n == 0 then 0 else ItemCount(es, n - 1) + |es[n - 1].items|
  }

  /** Item i of bucket k is among those that are yielded, behind the items of the buckets before: with the bytes from
      its offset on of what has arrived, or of the rank's own copy. */
  predicate TensorIs(site: Site, es: seq<Entry>, arriving: seq<seq<byte>>, tensors: seq<seq<byte>>, k: nat, i: nat)
    requires k < |es| == |arriving| && i < |es[k].items|
  {
    && ItemCount(es, k) + i < |tensors|
    && IsTensor(tensors[ItemCount(es, k) + i],
                if es[k].receiver != site.rank then arriving[k] else if site.staging then es[k].owned else es[k].local,
                es[k].items[i].0, es[k].items[i].1)
  }

  /** That is so of every item, and nothing else is yielded. */
  ghost predicate AreYielded(site: Site, es: seq<Entry>, arriving: seq<seq<byte>>, tensors: seq<seq<byte>>)
    requires |arriving| == |es|
  {
    && |tensors| == ItemCount(es, |es|)
    && forall k, i {:trigger TensorIs(site, es, arriving, tensors, k, i)} :: 0 <= k < |es| && 0 <= i < |es[k].items| ==>
         TensorIs(site, es, arriving, tensors, k, i)
  }

  lemma {:induction false} TensorsAre(site: Site, es: seq<Entry>, arriving: seq<seq<byte>>, n: nat, k: nat, i: nat)
    requires AllValid(es, site.bucketSize) && Pieces(es, arriving) && k < n <= |es| && i < |es[k].items|
    ensures TensorIs(site, es, arriving, Tensors(site, es, arriving, n), k, i)
    decreases n
  {
    TensorsAreCounted(site, es, arriving, n - 1);
    if k < n - 1 {
      TensorsAre(site, es, arriving, n - 1, k, i);
    } else {
      assert es[k].Valid(site.bucketSize) && PieceOf(es, arriving, k);
      CutIsTensors(site.Got(es[k], arriving[k]), es[k].items);
    }
  }

  lemma {:induction false} TensorsAreCounted(site: Site, es: seq<Entry>, arriving: seq<seq<byte>>, n: nat)
    requires AllValid(es, site.bucketSize) && Pieces(es, arriving) && n <= |es|
    ensures |Tensors(site, es, arriving, n)| == ItemCount(es, n)
  {
    if n > 0 {
      TensorsAreCounted(site, es, arriving, n - 1);
    }
  }

  // ----- the two halves of the buffer -----

  predicate Holds(buffer: seq<byte>, start: nat, bytes: seq<byte>) {
    start + |bytes| <= |buffer| && buffer[start..start + |bytes|] == bytes
  }

  lemma HoldsAfter(buffer: seq<byte>, start: nat, bytes: seq<byte>)
    requires start + |bytes| <= |buffer|
    ensures Holds(Overwrite(buffer, start, bytes), start, bytes)
  {
    OverwriteAt(buffer, start, bytes, 0, 0);
  }

  /** Writing into one half leaves the other one alone. */
  lemma OtherHalf(buffer: seq<byte>, start: nat, bytes: seq<byte>, other: nat, held: seq<byte>)
    requires start + |bytes| <= |buffer| && Holds(buffer, other, held)
    requires start + |bytes| <= other || other + |held| <= start
    ensures Holds(Overwrite(buffer, start, bytes), other, held)
  {
    OverwriteAt(buffer, start, bytes, other, other + |held|);
  }

  lemma SliceOfHeld(all: seq<byte>, start: nat, bytes: seq<byte>, lo: nat, hi: nat)
    requires Holds(all, start, bytes) && lo <= hi <= |bytes|
    ensures all[start + lo..start + hi] == bytes[lo..hi]
  {
    var held, part := all[start..start + |bytes|], all[start + lo..start + hi];
    forall k | 0 <= k < |part|
      ensures part[k] == bytes[lo..hi][k]
    {
      assert part[k] == all[start + (lo + k)] == held[lo + k];
    }
  }

  /** Read the tensors of a bucket out of one half. */
  method Yield(buffer: array<byte>, start: nat, items: Items, ghost bytes: seq<byte>) returns (tensors: seq<seq<byte>>)
    requires Holds(buffer[..], start, bytes) && Within(items, |bytes|)
    ensures tensors == Cut(bytes, items) && AreTensors(tensors, bytes, items)
  {
    CutIsTensors(bytes, items);
    tensors := [];
    for i := 0 to |items|
      invariant |tensors| == i && forall j :: 0 <= j < i ==> tensors[j] == Cut(bytes, items)[j]
    {
      var (offset, size) := items[i];
      SliceOfHeld(buffer[..], start, bytes, offset, offset + size);
      tensors := tensors + [buffer[start + offset..start + offset + size]];
    }
  }

  /** What can be seen of the bucket before: its metadata and, in the other half, its bytes. */
  ghost predicate Shown(site: Site, image: seq<byte>, start: nat, metadata: Option<Items>, held: seq<byte>) {
    metadata.Some? ==> Holds(image, start, held) && |held| <= site.bucketSize && Within(metadata.value, |held|)
  }

  /** The tensors that are still to be yielded. */
  function Remaining(metadata: Option<Items>, held: seq<byte>): seq<seq<byte>>
    requires metadata.Some? ==> Within(metadata.value, |held|)
  {
    if metadata.Some? then Cut(held, metadata.value) else []
  }

  /** What is in the half when the tensors of the bucket before are yielded; they are still there. */
  method Begin(site: Site, e: Entry, buffer: array<byte>, start: nat, staged: array<byte>, underway: seq<byte>,
               ghost metadata: Option<Items>, ghost held: seq<byte>)
    returns (sent: Option<seq<byte>>)
    requires e.Valid(site.bucketSize) && (start == 0 || start == site.bucketSize)
    requires buffer.Length == site.bucketSize + site.bucketSize && staged != buffer && |underway| == e.size
    requires site.staging && e.receiver == site.rank ==> Holds(staged[..], 0, e.owned)
    requires Shown(site, buffer[..], site.bucketSize - start, metadata, held)
    modifies buffer
    ensures Holds(buffer[..], start, site.Got(e, underway)) && sent == site.Sent(e)
    ensures Shown(site, buffer[..], site.bucketSize - start, metadata, held)
  {
    ghost var before := buffer[..];
    HoldsAfter(before, start, site.Got(e, underway));
    if metadata.Some? {
      OtherHalf(before, start, site.Got(e, underway), site.bucketSize - start, held);
    }
    if e.receiver == site.rank {
      CopyInto(buffer, start, if site.staging then staged[..e.size] else e.local);
      sent := Some(buffer[start..start + e.size]);
    } else {
      CopyInto(buffer, start, underway);
      sent := None;
    }
  }

  /** One broadcast into the half at `start`. A receiver puts its bucket there first; on another rank `underway` is what
      has arrived while the tensors of the bucket before, whose metadata is at hand, are yielded from the other half. */
  method Broadcast(site: Site, e: Entry, buffer: array<byte>, start: nat, staged: array<byte>, underway: seq<byte>,
                   arriving: seq<byte>, metadata: Option<Items>, ghost held: seq<byte>)
    returns (tensors: seq<seq<byte>>, sent: Option<seq<byte>>)
    requires e.Valid(site.bucketSize) && (start == 0 || start == site.bucketSize)
    requires buffer.Length == site.bucketSize + site.bucketSize && staged != buffer
    requires site.staging && e.receiver == site.rank ==> Holds(staged[..], 0, e.owned)
    requires |underway| == e.size == |arriving|
    requires Shown(site, buffer[..], site.bucketSize - start, metadata, held)
    modifies buffer
    ensures Holds(buffer[..], start, site.Got(e, arriving))
    ensures sent == site.Sent(e)
    ensures tensors == Remaining(metadata, held)
    ensures if metadata.Some? then AreTensors(tensors, held, metadata.value) else tensors == []
  {
    sent := Begin(site, e, buffer, start, staged, underway, metadata, held);
    tensors := [];
    if metadata.Some? {
      tensors := Yield(buffer, site.bucketSize - start, metadata.value, held);
    }
    if e.receiver != site.rank {
      ghost var before := buffer[..];
      CopyInto(buffer, start, arriving);
      HoldsAfter(before, start, arriving);
    }
  }

  /** gidx % 2 * bucket_size */
  function Start(gidx: nat, bucketSize: nat): (start: nat)
    ensures start == 0 || start == bucketSize
  {
    gidx % 2 * bucketSize
  }

  lemma Halves(gidx: nat, bucketSize: nat)
    ensures Start(gidx + 1, bucketSize) == bucketSize - Start(gidx, bucketSize)
    ensures Start(gidx + 1 + 1, bucketSize) == Start(gidx, bucketSize)
  {
  }

  // ----- one rank, broadcast by broadcast -----

  predicate SentAt(site: Site, es: seq<Entry>, sent: seq<Option<seq<byte>>>, k: nat)
    requires k < |es| && k < |sent|
  {
    sent[k] == if es[k].receiver != site.rank then None else Some(if site.staging then es[k].owned else es[k].local)
  }

  ghost predicate AllSent(site: Site, es: seq<Entry>, sent: seq<Option<seq<byte>>>) {
    |sent| <= |es| && forall k {:trigger SentAt(site, es, sent, k)} :: 0 <= k < |sent| ==> SentAt(site, es, sent, k)
  }

  /** What a rank knows after gidx broadcasts: the bucket of the last one is in its half, with its metadata at hand, and
      the tensors of those before have been yielded. */
  ghost predicate After(site: Site, es: seq<Entry>, arriving: seq<seq<byte>>, gidx: nat, image: seq<byte>,
                        metadata: Option<Items>, tensors: seq<seq<byte>>)
    requires AllValid(es, site.bucketSize) && Pieces(es, arriving)
  {
    && gidx <= |es|
    && if gidx == 0 then metadata.None? && tensors == []
       else
         && metadata == Some(es[gidx - 1].items) && tensors == Tensors(site, es, arriving, gidx - 1)
         && Holds(image, Start(gidx + 1, site.bucketSize), site.Got(es[gidx - 1], arriving[gidx - 1]))
  }

  /** The bytes of the bucket before. */
  function Held(site: Site, es: seq<Entry>, arriving: seq<seq<byte>>, gidx: nat): seq<byte>
    requires gidx <= |es| == |arriving|
  {
    if gidx > 0 then site.Got(es[gidx - 1], arriving[gidx - 1]) else []
  }

  lemma BeforeIsShown(site: Site, es: seq<Entry>, arriving: seq<seq<byte>>, gidx: nat, image: seq<byte>,
                      metadata: Option<Items>, tensors: seq<seq<byte>>)
    requires AllValid(es, site.bucketSize) && Pieces(es, arriving)
    requires After(site, es, arriving, gidx, image, metadata, tensors)
    ensures Shown(site, image, site.bucketSize - Start(gidx, site.bucketSize), metadata, Held(site, es, arriving, gidx))
    ensures tensors + Remaining(metadata, Held(site, es, arriving, gidx)) == Tensors(site, es, arriving, gidx)
  {
    Halves(gidx, site.bucketSize);
    if gidx > 0 {
      assert es[gidx - 1].Valid(site.bucketSize) && PieceOf(es, arriving, gidx - 1);
    }
  }

  lemma AfterNext(site: Site, es: seq<Entry>, arriving: seq<seq<byte>>, gidx: nat, image: seq<byte>)
    requires AllValid(es, site.bucketSize) && Pieces(es, arriving) && gidx < |es|
    requires Holds(image, Start(gidx, site.bucketSize), site.Got(es[gidx], arriving[gidx]))
    ensures After(site, es, arriving, gidx + 1, image, Some(es[gidx].items), Tensors(site, es, arriving, gidx))
  {
    Halves(gidx, site.bucketSize);
  }

  /** The variables of receive_tensor on one rank. */
  class TensorReceiver {
    const site: Site
    const arriving: seq<seq<byte>>   // what the broadcasts of the other ranks bring
    const underway: seq<seq<byte>>   // what has arrived of each when the bucket before is yielded
    const buffer: array<byte>
    const staged: array<byte>        // h2d_buffer
    var gidx: nat
    var metadata: Option<Items>
    var tensors: seq<seq<byte>>      // yielded so far
    var sent: seq<Option<seq<byte>>> // what this rank has put into the broadcasts

    ghost const es: seq<Entry>       // the buckets in the order of the broadcasts

    ghost predicate Valid()
      reads this, buffer
    {
      && AllValid(es, site.bucketSize) && Pieces(es, arriving) && Pieces(es, underway)
      && buffer.Length == site.bucketSize + site.bucketSize && staged.Length == site.bucketSize && staged != buffer
      && After(site, es, arriving, gidx, buffer[..], metadata, tensors)
      && |sent| == gidx && AllSent(site, es, sent)
    }

    constructor (site: Site, arriving: seq<seq<byte>>, underway: seq<seq<byte>>, ghost es: seq<Entry>)
      requires AllValid(es, site.bucketSize) && Pieces(es, arriving) && Pieces(es, underway)
      ensures Valid() && gidx == 0 && this.site == site && this.es == es && this.arriving == arriving
      ensures fresh(buffer) && fresh(staged)
    {
      this.site, this.arriving, this.underway, this.es := site, arriving, underway, es;
      buffer, staged := new byte[site.bucketSize + site.bucketSize], new byte[site.bucketSize];
      gidx, metadata, tensors, sent := 0, None, [], [];
    }

    /** _copy_to_buffer into the staging buffer. */
    method Stage(e: Entry)
      requires Valid() && e.Valid(site.bucketSize)
      modifies staged
      ensures Valid() && Holds(staged[..], 0, e.owned)
    {
      ghost var image := buffer[..];
      HoldsAfter(staged[..], 0, e.owned);
      CopyInto(staged, 0, e.owned);
      assert buffer[..] == image;
    }

    /** The broadcast of the next bucket, with the yields during it. */
    method Exchange(e: Entry) returns (more: seq<seq<byte>>, out: Option<seq<byte>>)
      requires Valid() && gidx < |es| && e == es[gidx]
      requires site.staging && e.receiver == site.rank ==> Holds(staged[..], 0, e.owned)
      modifies buffer
      ensures Holds(buffer[..], Start(gidx, site.bucketSize), site.Got(e, arriving[gidx]))
      ensures tensors + more == Tensors(site, es, arriving, gidx) && out == site.Sent(e)
    {
      assert e.Valid(site.bucketSize) && PieceOf(es, arriving, gidx) && PieceOf(es, underway, gidx);
      BeforeIsShown(site, es, arriving, gidx, buffer[..], metadata, tensors);
      more, out := Broadcast(site, e, buffer, Start(gidx, site.bucketSize), staged, underway[gidx], arriving[gidx],
                             metadata, Held(site, es, arriving, gidx));
    }

    /** The body of the inner loop. */
    method TakeTurn(e: Entry)
      requires Valid() && gidx < |es| && e == es[gidx]
      requires site.staging && e.receiver == site.rank ==> Holds(staged[..], 0, e.owned)
      modifies this, buffer
      ensures Valid() && gidx == old(gidx) + 1
    {
      var more, out := Exchange(e);
      AfterNext(site, es, arriving, gidx, buffer[..]);
      SentMore(site, es, sent, out);
      metadata, tensors, sent, gidx := Some(e.items), tensors + more, sent + [out], gidx + 1;
    }

    /** Behind the loops; None where no metadata has come. */
    method Last() returns (yielded: Option<seq<seq<byte>>>)
      requires Valid()
      ensures yielded.None? <==> gidx == 0
      ensures yielded.Some? ==> yielded.value == Tensors(site, es, arriving, gidx)
    {
      if metadata.None? {
        return None;
      }
      BeforeIsShown(site, es, arriving, gidx, buffer[..], metadata, tensors);
      Halves(gidx, site.bucketSize);
      var last := Yield(buffer, Start(gidx + 1, site.bucketSize), metadata.value, Held(site, es, arriving, gidx));
      yielded := Some(tensors + last);
    }
  }

  lemma SentMore(site: Site, es: seq<Entry>, sent: seq<Option<seq<byte>>>, out: Option<seq<byte>>)
    requires AllSent(site, es, sent) && |sent| < |es| && out == site.Sent(es[|sent|])
    ensures AllSent(site, es, sent + [out])
  {
    forall k | 0 <= k <= |sent|
      ensures SentAt(site, es, sent + [out], k)
    {
      assert k < |sent| ==> SentAt(site, es, sent, k);
    }
  }
}
