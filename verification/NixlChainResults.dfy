/** What the relay chain guarantees in every reachable state and at the end of every execution. */
module NixlChainResults {
  import opened WeightBuckets
  import opened NixlChain
  import opened NixlChainSafety
  import opened NixlChainLiveness

  lemma {:induction false} UnpackPrefix(buckets: seq<Bucket>, j: nat)
    requires j <= |buckets|
    ensures Unpack(buckets) == Unpack(buckets[..j]) + Unpack(buckets[j..])
  {
    if j == 0 {
      assert buckets[..0] == [] && buckets[0..] == buckets;
      assert [] + Unpack(buckets) == Unpack(buckets);
    } else {
      UnpackPrefix(buckets[1..], j - 1);
      assert buckets[..j][1..] == buckets[1..][..j - 1] && buckets[1..][j - 1..] == buckets[j..];
      var x, y, z := ChunksOf(buckets[0]), Unpack(buckets[1..][..j - 1]), Unpack(buckets[j..]);
      assert x + (y + z) == (x + y) + z;
    }
  }

  lemma PrefixIsPrefix(c: Config, j: nat, n: nat)
    requires j <= |c.buckets| && (n > 0 ==> j < |c.buckets| && n <= |c.buckets[j]|)
    ensures Prefix(c, j, n) <= Unpack(c.buckets)
  {
    UnpackPrefix(c.buckets, j);
    if n > 0 {
      PrefixOfConcat(Unpack(c.buckets[..j]), ChunksOf(c.buckets[j]), Unpack(c.buckets[j..][1..]), n);
    }
  }

  lemma PrefixOfConcat<T>(x: seq<T>, y: seq<T>, z: seq<T>, n: nat)
    requires n <= |y|
    ensures x + y[..n] <= x + (y + z)
  {
    assert x + (y + z) == (x + y[..n]) + (y[n..] + z);
  }

  /** Delivery: at any moment a relay has yielded an initial part of the trainer's chunk sequence, metadata and
      bytes, nothing twice and nothing out of order; once it is done, all of it. */
  lemma YieldsTheSendersChunks(c: Config, s: State, i: nat)
    requires c.Valid() && Reachable(c, s) && 0 < i < |s.ranks|
    ensures s.ranks[i].yielded <= Unpack(c.buckets)
    ensures s.ranks[i].phase.Done? ==> s.ranks[i].yielded == Unpack(c.buckets)
  {
    ReachableInv(c, s);
    assert RankOk(c, s, i);
    var r := s.ranks[i];
    match r.phase {
      case Yielding(n) => PrefixIsPrefix(c, r.index, n);
      case AwaitAck => PrefixIsPrefix(c, r.index + 1, 0);
      case AwaitRead => PrefixIsPrefix(c, r.index + 1, 0);
      case Offering => PrefixIsPrefix(c, r.index, 0);
      case AwaitNext => PrefixIsPrefix(c, r.index, 0);
      case _ =>
    }
  }

  /** No assertion of the protocol fires: a chunk always fits, a copy stays in bounds, a notice has the awaited key. */
  lemma NothingFails(c: Config, s: State, i: nat)
    requires c.Valid() && Reachable(c, s) && i < |s.ranks|
    ensures !s.ranks[i].phase.Failed?
  {
    ReachableInv(c, s);
    assert RankOk(c, s, i);
  }

  // ----- buffer stability -----

  /** The event changes buffer b of the rank it belongs to. */
  predicate Writes(c: Config, s: State, e: Event, b: bool)
    requires Shape(c, s) && Enabled(c, s, e)
  {
    match e.action
    case Write => b == s.ranks[e.rank].inB
    case Copy(_) => b != s.ranks[e.rank].inB
    case _ => false
  }

  /** Buffer b of rank i has been published and its owner has not yet taken the read-complete notice:
      the message is under way, the successor is copying, or the notice is under way. */
  predicate Exposed(c: Config, s: State, i: nat, b: bool)
    requires Shape(c, s) && i <= c.relays
  {
    && i < c.relays
    && (|| (exists k :: 0 <= k < |s.links[i].messages| && s.links[i].messages[k].inB == b)
        || (s.ranks[i + 1].transfer.Active? && s.ranks[i + 1].transfer.fromB == b)
        || (s.links[i].notices != [] && PublishedInB(s.ranks[i]) == b))
  }

  /** A buffer is never written while it is published or while chunks are being yielded from it. */
  lemma BuffersAreStable(c: Config, s: State, e: Event, b: bool)
    requires c.Valid() && Reachable(c, s) && Shape(c, s) && Enabled(c, s, e) && Writes(c, s, e, b)
    ensures !Exposed(c, s, e.rank, b)
    ensures s.ranks[e.rank].phase.Yielding? ==> b != s.ranks[e.rank].inB
  {
    ReachableInv(c, s);
    assert RankOk(c, s, e.rank);
    if e.rank < c.relays {
      assert LinkOk(c, s, e.rank);
    }
  }

  /** What a buffer contains changes only by those writes: together with the lemma above, a published
      buffer keeps its contents from the message to the notice. */
  lemma OnlyWritesChangeBuffers(c: Config, s: State, e: Event, i: nat, b: bool)
    requires Shape(c, s) && Enabled(c, s, e) && i <= c.relays
    requires i != e.rank || !Writes(c, s, e, b)
    ensures Apply(c, s, e).ranks[i].Buf(b) == s.ranks[i].Buf(b)
  {
  }

  /** Each link carries at most one publication at a time: as a message, as a running copy or as a notice. */
  lemma OnePublicationPerLink(c: Config, s: State, i: nat)
    requires c.Valid() && Reachable(c, s) && i < |s.links| && i + 1 < |s.ranks|
    ensures |s.links[i].messages| + (if s.ranks[i + 1].transfer.Active? then 1 else 0) + |s.links[i].notices| <= 1
  {
    ReachableInv(c, s);
    assert LinkOk(c, s, i);
  }

  // ----- progress -----

  lemma NeverStuck(c: Config, s: State)
    requires c.Valid() && Reachable(c, s) && Shape(c, s) && !Final(s)
    ensures exists e :: Enabled(c, s, e)
  {
    ReachableInv(c, s);
    var e := SomeoneMoves(c, s);
  }

  /** Executions are finite: no run is longer than the work there was to do. */
  lemma EveryRunIsBounded(c: Config, events: seq<Event>)
    requires c.Valid() && Shape(c, Init(c)) && Run(c, Init(c), events).Some?
    ensures |events| <= TotalWork(c, Init(c))
  {
    InitInv(c);
    RunsAreBounded(c, Init(c), events);
  }

  /** An execution that cannot be continued has finished everywhere and brought every chunk to every relay. */
  lemma CompleteRunsDeliver(c: Config, s: State)
    requires c.Valid() && Reachable(c, s) && Shape(c, s)
    ensures (exists e :: Enabled(c, s, e)) || Final(s)
    ensures Final(s) ==> forall i :: 0 < i <= c.relays ==> s.ranks[i].yielded == Unpack(c.buckets)
  {
    if !Final(s) {
      NeverStuck(c, s);
    } else {
      forall i | 0 < i <= c.relays
        ensures s.ranks[i].yielded == Unpack(c.buckets)
      {
        YieldsTheSendersChunks(c, s, i);
      }
    }
  }
}
