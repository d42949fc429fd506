/** The whole of receive_tensor: from the list of buckets to the tensors that every rank yields. */
module KimiTransfer {
  import opened Buffers
  import opened KimiReceive
  import opened KimiRounds
  import opened Wrappers

  function Receivers(entries: seq<Entry>): (rs: seq<nat>)
    ensures |rs| == |entries|
  {
    seq(|entries|, b requires 0 <= b < |entries| => entries[b].receiver)
  }

  /** The entries at these places. */
  function Pick(entries: seq<Entry>, indices: seq<nat>): seq<Entry>
    requires forall i :: 0 <= i < |indices| ==> indices[i] < |entries|
  {
    seq(|indices|, i requires 0 <= i < |indices| => entries[indices[i]])
  }

  /** The indices in the order of the broadcasts. */
  ghost function OrderedIndices(entries: seq<Entry>): (indices: seq<nat>)
    ensures |indices| == |OrderOf(Receivers(entries))|
    ensures forall k :: 0 <= k < |indices| ==> indices[k] < |entries|
  {
    OrderVisitsAll(Receivers(entries));
    var order := OrderOf(Receivers(entries));
    seq(|order|, k requires 0 <= k < |order| => order[k].index)
  }

  /** The buckets in the order of the broadcasts. */
  ghost function InOrder(entries: seq<Entry>): seq<Entry> {
    Pick(entries, OrderedIndices(entries))
  }

  lemma InOrderIsValid(entries: seq<Entry>, bucketSize: nat)
    requires AllValid(entries, bucketSize)
    ensures AllValid(InOrder(entries), bucketSize)
  {
    forall k | 0 <= k < |InOrder(entries)|
      ensures InOrder(entries)[k].Valid(bucketSize)
    {
      assert entries[OrderedIndices(entries)[k]].Valid(bucketSize);
    }
  }

  lemma OrderIsEmptyIff(entries: seq<Entry>)
    ensures InOrder(entries) == [] <==> entries == []
  {
    OrderVisitsAll(Receivers(entries));
    if entries != [] {
      assert IsBroadcast(OrderOf(Receivers(entries)), 0);
    }
  }

  // ----- the buckets a rank receives itself -----

  lemma {:induction false} IndicesAreBuckets(receivers: seq<nat>, r: nat, n: nat)
    requires n <= |receivers|
    ensures forall i :: 0 <= i < |Indices(receivers, r, n)| ==>
              Indices(receivers, r, n)[i] < n && receivers[Indices(receivers, r, n)[i]] == r
  {
    if n > 0 {
      IndicesAreBuckets(receivers, r, n - 1);
    }
  }

  function ListOf(entries: seq<Entry>, r: nat): seq<nat> {
    Indices(Receivers(entries), r, |entries|)
  }

  /** The buckets of this receiver, in order. */
  ghost predicate IsOwn(entries: seq<Entry>, r: nat, own: seq<Entry>) {
    && |own| == |ListOf(entries, r)|
    && forall i {:trigger OwnAt(entries, r, own, i)} :: 0 <= i < |own| ==> OwnAt(entries, r, own, i)
  }

  predicate OwnAt(entries: seq<Entry>, r: nat, own: seq<Entry>, i: nat)
    requires i < |own| == |ListOf(entries, r)|
  {
    ListOf(entries, r)[i] < |entries| && own[i] == entries[ListOf(entries, r)[i]]
  }

  lemma OwnIsValid(entries: seq<Entry>, r: nat, own: seq<Entry>, i: nat, bucketSize: nat)
    requires AllValid(entries, bucketSize) && IsOwn(entries, r, own) && i < |own|
    ensures own[i].Valid(bucketSize)
  {
    assert OwnAt(entries, r, own, i);
    assert entries[ListOf(entries, r)[i]].Valid(bucketSize);
  }

  /** receiver_rank_buckets: the i-th of them is the bucket at place i of the rank's list among the grouped ones. */
  method OwnBuckets(entries: seq<Entry>, rank: nat) returns (own: seq<Entry>)
    ensures IsOwn(entries, rank, own)
  {
    own := [];
    var rs := Receivers(entries);
    for b := 0 to |entries|
      invariant |own| == |Indices(rs, rank, b)|
      invariant forall i :: 0 <= i < |own| ==> Indices(rs, rank, b)[i] < b && own[i] == entries[Indices(rs, rank, b)[i]]
    {
      if entries[b].receiver == rank {
        own := own + [entries[b]];
      }
    }
    assert forall i :: 0 <= i < |own| ==> OwnAt(entries, rank, own, i);
  }

  // ----- the rounds -----

  /** Turn t of round i: the list of the receiver, and its bucket in the order of the broadcasts. */
  lemma TurnIs(entries: seq<Entry>, g: Groups, i: nat, t: nat)
    requires g == GroupsOf(Receivers(entries), |entries|)
    requires i < MaxLen(Receivers(entries), |entries|) && t < |g.receivers|
    ensures g.receivers[t] in g.lists && g.lists[g.receivers[t]] == ListOf(entries, g.receivers[t])
    ensures var list, k := ListOf(entries, g.receivers[t]), Gidx(g, i, t);
            if i < |list| then
              && Gidx(g, i, t + 1) == k + 1
              && k < |InOrder(entries)| && list[i] < |entries|
              && InOrder(entries)[k] == entries[list[i]] && entries[list[i]].receiver == g.receivers[t]
            else Gidx(g, i, t + 1) == k
  {
    var rs, n := Receivers(entries), |entries|;
    OrderVisitsAll(rs);
    var r := g.receivers[t];
    assert r in g.receivers;
    ListsAreIndices(rs, r, n);
    IndicesAreBuckets(rs, r, n);
    PassedNext(g, i, t);
    PassedIsCounted(g, i, t);
    PassedIsCounted(g, i, t + 1);
    RoundsExtend(g, i, t + 1, MaxLen(rs, n));
    if i < |g.lists[r]| {
      assert Passed(g, i, t + 1)[|Passed(g, i, t)|] == Visit(i, t, g.lists[r][i]);
    }
  }

  /** What has been computed from the list of buckets before the rounds. */
  ghost predicate Prepared(site: Site, entries: seq<Entry>, es: seq<Entry>, g: Groups, own: seq<Entry>) {
    && es == InOrder(entries) && AllValid(entries, site.bucketSize)
    && g == GroupsOf(Receivers(entries), |entries|) && IsOwn(entries, site.rank, own)
  }

  /** The body of the inner loop: receivers whose lists are over are passed by. */
  method Turn(receiver: TensorReceiver, entries: seq<Entry>, i: nat, t: nat, g: Groups, ghost own: seq<Entry>)
    requires Prepared(receiver.site, entries, receiver.es, g, own)
    requires i < MaxLen(Receivers(entries), |entries|) && t < |g.receivers|
    requires receiver.Valid() && receiver.gidx == Gidx(g, i, t)
    requires IsStaged(receiver.site, own, i, receiver.staged[..])
    modifies receiver, receiver.buffer
    ensures receiver.Valid() && receiver.gidx == Gidx(g, i, t + 1)
    ensures IsStaged(receiver.site, own, i, receiver.staged[..])
  {
    TurnIs(entries, g, i, t);
    var list := g.lists[g.receivers[t]];
    ghost var image := receiver.staged[..];
    if i < |list| {
      assert g.receivers[t] == receiver.site.rank ==> OwnAt(entries, receiver.site.rank, own, i);
      receiver.TakeTurn(entries[list[i]]);
      assert receiver.staged[..] == image;
    }
  }

  /** The staging buffer shows this rank's bucket of the round. */
  ghost predicate IsStaged(site: Site, own: seq<Entry>, i: nat, image: seq<byte>) {
    site.staging && i < |own| ==> Holds(image, 0, own[i].owned)
  }

  /** The inner loop. */
  method Turns(receiver: TensorReceiver, entries: seq<Entry>, i: nat, g: Groups, ghost own: seq<Entry>)
    requires Prepared(receiver.site, entries, receiver.es, g, own) && i < MaxLen(Receivers(entries), |entries|)
    requires receiver.Valid() && receiver.gidx == Gidx(g, i, 0)
    requires IsStaged(receiver.site, own, i, receiver.staged[..])
    modifies receiver, receiver.buffer
    ensures receiver.Valid() && receiver.gidx == Gidx(g, i, |g.receivers|)
  {
    for t := 0 to |g.receivers|
      invariant receiver.Valid() && receiver.gidx == Gidx(g, i, t)
      invariant IsStaged(receiver.site, own, i, receiver.staged[..])
    {
      Turn(receiver, entries, i, t, g, own);
    }
  }

  /** One round: stage this rank's bucket, then go through the receivers. */
  method Round(receiver: TensorReceiver, entries: seq<Entry>, i: nat, g: Groups, own: seq<Entry>)
    requires Prepared(receiver.site, entries, receiver.es, g, own) && i < MaxLen(Receivers(entries), |entries|)
    requires receiver.Valid() && receiver.gidx == Gidx(g, i, 0)
    modifies receiver, receiver.buffer, receiver.staged
    ensures receiver.Valid() && receiver.gidx == Gidx(g, i + 1, 0)
  {
    if i < |own| && receiver.site.staging {
      OwnIsValid(entries, receiver.site.rank, own, i, receiver.site.bucketSize);
      receiver.Stage(own[i]);
    }
    Turns(receiver, entries, i, g, own);
  }

  /** The outer loop. */
  method Rounds(receiver: TensorReceiver, entries: seq<Entry>, g: Groups, maxLen: nat, own: seq<Entry>)
    requires Prepared(receiver.site, entries, receiver.es, g, own) && maxLen == MaxLen(Receivers(entries), |entries|)
    requires receiver.Valid() && receiver.gidx == 0
    modifies receiver, receiver.buffer, receiver.staged
    ensures receiver.Valid() && receiver.gidx == RoundCount(g, maxLen)
  {
    for i := 0 to maxLen
      invariant receiver.Valid() && receiver.gidx == Gidx(g, i, 0)
    {
      Round(receiver, entries, i, g, own);
    }
  }

  /** The tensors of all buckets, in the order of the broadcasts. */
  ghost function AllTensors(site: Site, entries: seq<Entry>, arriving: seq<seq<byte>>): seq<seq<byte>>
    requires AllValid(entries, site.bucketSize) && Pieces(InOrder(entries), arriving)
  {
    InOrderIsValid(entries, site.bucketSize);
    Tensors(site, InOrder(entries), arriving, |InOrder(entries)|)
  }

  lemma AllTensorsAre(site: Site, entries: seq<Entry>, arriving: seq<seq<byte>>)
    requires AllValid(entries, site.bucketSize) && Pieces(InOrder(entries), arriving)
    ensures AreYielded(site, InOrder(entries), arriving, AllTensors(site, entries, arriving))
  {
    var es := InOrder(entries);
    InOrderIsValid(entries, site.bucketSize);
    TensorsAreCounted(site, es, arriving, |es|);
    forall k, i | 0 <= k < |es| && 0 <= i < |es[k].items|
      ensures TensorIs(site, es, arriving, AllTensors(site, entries, arriving), k, i)
    {
      TensorsAre(site, es, arriving, |es|, k, i);
    }
  }

  /** receive_tensor on one rank. `arriving` is what the broadcasts of the other ranks bring, `underway` what they have
      brought by the time the bucket before is yielded. None where there is nothing to broadcast for anybody, and the
      last lines find `metadata` unbound. */
  method ReceiveTensors(site: Site, entries: seq<Entry>, arriving: seq<seq<byte>>, underway: seq<seq<byte>>)
    returns (yielded: Option<seq<seq<byte>>>, sent: seq<Option<seq<byte>>>)
    requires AllValid(entries, site.bucketSize)
    requires Pieces(InOrder(entries), arriving) && Pieces(InOrder(entries), underway)
    ensures |sent| == |InOrder(entries)| && AllSent(site, InOrder(entries), sent)
    ensures yielded.None? <==> entries == []
    ensures yielded.Some? ==> yielded.value == AllTensors(site, entries, arriving)
    ensures yielded.Some? ==> AreYielded(site, InOrder(entries), arriving, yielded.value)
  {
    InOrderIsValid(entries, site.bucketSize);
    var receiver := new TensorReceiver(site, arriving, underway, InOrder(entries));
    var own := OwnBuckets(entries, site.rank);
    var g, maxLen := GroupBuckets(Receivers(entries));
    Rounds(receiver, entries, g, maxLen, own);
    RoundsAreCounted(g, maxLen);
    OrderIsEmptyIff(entries);
    yielded := receiver.Last();
    sent := receiver.sent;
    AllTensorsAre(site, entries, arriving);
  }

  // ----- all ranks together -----

  /** What arrives on this rank is what the receiver of the bucket puts into the broadcast. */
  ghost predicate Connected(rank: nat, es: seq<Entry>, sent: map<nat, seq<Option<seq<byte>>>>, arriving: seq<seq<byte>>)
    requires |arriving| == |es| && forall r :: r in sent ==> |sent[r]| == |es|
  {
    forall k :: 0 <= k < |es| && es[k].receiver != rank ==>
      es[k].receiver in sent && sent[es[k].receiver][k] == Some(arriving[k])
  }

  /** The tensors as the receivers of the buckets have them. */
  function SourceTensors(staging: bool, es: seq<Entry>, bucketSize: nat, n: nat): seq<seq<byte>>
    requires AllValid(es, bucketSize) && n <= |es|
  {
    if n == 0 then []
    else
      assert es[n - 1].Valid(bucketSize);
      SourceTensors(staging, es, bucketSize, n - 1)
      + Cut(if staging then es[n - 1].owned else es[n - 1].local, es[n - 1].items)
  }

  lemma {:induction false} SourcesAreYielded(site: Site, es: seq<Entry>, sent: map<nat, seq<Option<seq<byte>>>>,
                                             arriving: seq<seq<byte>>, n: nat)
    requires AllValid(es, site.bucketSize) && Pieces(es, arriving) && n <= |es|
    requires forall r :: r in sent ==> |sent[r]| == |es| && AllSent(site.(rank := r), es, sent[r])
    requires Connected(site.rank, es, sent, arriving)
    ensures Tensors(site, es, arriving, n) == SourceTensors(site.staging, es, site.bucketSize, n)
  {
    if n > 0 {
      SourcesAreYielded(site, es, sent, arriving, n - 1);
      var e := es[n - 1];
      if e.receiver != site.rank {
        assert SentAt(site.(rank := e.receiver), es, sent[e.receiver], n - 1);
      }
    }
  }

  /** Item i of bucket k, behind the items of the buckets before, is what the source has from its offset on. */
  predicate SourceShown(staging: bool, es: seq<Entry>, tensors: seq<seq<byte>>, k: nat, i: nat)
    requires k < |es| && i < |es[k].items|
  {
    && ItemCount(es, k) + i < |tensors|
    && IsTensor(tensors[ItemCount(es, k) + i], if staging then es[k].owned else es[k].local,
                es[k].items[i].0, es[k].items[i].1)
  }

  /** When every receiver runs receive_tensor and the broadcasts deliver what is put into them, every rank yields the
      tensors of all buckets, in the order of the rounds: as their owners have them where there is a staging buffer, and
      otherwise as their receivers have them, who are not told the owner then. */
  lemma AllRanksYieldTheSame(site: Site, es: seq<Entry>, sent: map<nat, seq<Option<seq<byte>>>>,
                             arriving: seq<seq<byte>>)
    requires AllValid(es, site.bucketSize) && Pieces(es, arriving)
    requires forall r :: r in sent ==> |sent[r]| == |es| && AllSent(site.(rank := r), es, sent[r])
    requires Connected(site.rank, es, sent, arriving)
    ensures Tensors(site, es, arriving, |es|) == SourceTensors(site.staging, es, site.bucketSize, |es|)
    ensures |Tensors(site, es, arriving, |es|)| == ItemCount(es, |es|)
    ensures forall k, i {:trigger SourceShown(site.staging, es, Tensors(site, es, arriving, |es|), k, i)} ::
              0 <= k < |es| && 0 <= i < |es[k].items| ==>
                SourceShown(site.staging, es, Tensors(site, es, arriving, |es|), k, i)
  {
    SourcesAreYielded(site, es, sent, arriving, |es|);
    TensorsAreCounted(site, es, arriving, |es|);
    forall k, i | 0 <= k < |es| && 0 <= i < |es[k].items|
      ensures SourceShown(site.staging, es, Tensors(site, es, arriving, |es|), k, i)
    {
      TensorsAre(site, es, arriving, |es|, k, i);
      if es[k].receiver != site.rank {
        assert SentAt(site.(rank := es[k].receiver), es, sent[es[k].receiver], k);
      }
    }
  }
}
