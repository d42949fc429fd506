/** Every reachable state of the relay chain: what each rank holds, what each link carries, and what
    follows from it for the data. */
module NixlChainSafety {
  import opened Buffers
  import opened Wrappers
  import opened WeightChunks
  import opened WeightBuckets
  import opened NixlChain

  // ----- how far a rank is, read off its phase -----

  /** Buckets published. */
  function Published(c: Config, i: nat, r: Rank): nat {
    match r.phase
    case Filling(_) => r.index
    case AwaitPrevious => r.index
    case AwaitFirst => 0
    case ReadFirst => 0
    case Offering => r.index
    case Done => |c.buckets|
    case _ => r.index + 1
  }

  /** Publications known to be read completely. */
  function Acknowledged(c: Config, i: nat, r: Rank): nat {
    match r.phase
    case Filling(_) => if r.index == 0 then 0 else r.index - 1
    case AwaitPrevious => if r.index == 0 then 0 else r.index - 1
    case AwaitRead => r.index + 1
    case Done => |c.buckets|
    case AwaitFirst => 0
    case ReadFirst => 0
    case _ => r.index
  }

  /** Messages taken from the predecessor. */
  function Taken(c: Config, r: Rank): nat {
    match r.phase
    case AwaitFirst => 0
    case ReadFirst => 1
    case Offering => r.index + 1
    case AwaitNext => r.index + 1
    case Done => |c.buckets|
    case _ => if r.isLast then r.index + 1 else r.index + 2
  }

  /** Transfers completed. */
  function Read(c: Config, r: Rank): int {
    Taken(c, r) - (if r.transfer.Active? then 1 else 0)
  }

  /** Which buffer the outstanding publication is in: the trainer has already swapped, a relay has not. */
  function PublishedInB(r: Rank): bool {
    if r.phase.Filling? || r.phase.AwaitPrevious? then !r.inB else r.inB
  }

  // ----- the invariant -----

  ghost predicate FilledTo(buf: seq<byte>, b: Bucket, n: nat)
    requires n <= |b|
  {
    Holds(buf, b[..n])
  }

  ghost predicate SenderInv(c: Config, r: Rank) {
    && r.transfer.NoTransfer?
    && match r.phase
       case Filling(n) => r.index < |c.buckets| && n <= |c.buckets[r.index]|
                          && FilledTo(r.SendBuf(), c.buckets[r.index], n)
                          && (r.index > 0 ==> r.key == r.index - 1)
       case AwaitPrevious => 0 < r.index < |c.buckets| && Holds(r.SendBuf(), c.buckets[r.index]) && r.key == r.index - 1
       case Offering => r.index < |c.buckets| && Holds(r.SendBuf(), c.buckets[r.index])
       case AwaitFinal => c.Last(r.index) && r.key == r.index
       case Done => true
       case _ => false
  }

  /** All chunks of the first j buckets and n more of the next: what a relay at that point has yielded. */
  function Prefix(c: Config, j: nat, n: nat): seq<Chunk>
    requires j <= |c.buckets| && (n > 0 ==> j < |c.buckets| && n <= |c.buckets[j]|)
  {
    Unpack(c.buckets[..j]) + (if n == 0 then [] else ChunksOf(c.buckets[j])[..n])
  }

  /** send_buf shows bucket `index`, described by the metadata at hand. */
  ghost predicate HasBucket(c: Config, r: Rank) {
    && r.index < |c.buckets|
    && r.meta == MetaOf(c.buckets[r.index]) && r.isLast == c.Last(r.index)
    && Holds(r.SendBuf(), c.buckets[r.index])
  }

  /** The read into recv_buf is for bucket j, and recv_buf shows it once the transfer has landed. */
  ghost predicate Reading(c: Config, r: Rank, j: nat) {
    && j < |c.buckets|
    && r.nextMeta == MetaOf(c.buckets[j]) && r.nextIsLast == c.Last(j)
    && !r.transfer.NoTransfer?
    && (r.transfer.Active? ==> r.transfer.key == j && forall at :: at in r.transfer.copied ==> 0 <= at < c.size)
    && (r.transfer.Landed? ==> Holds(r.Buf(!r.inB), c.buckets[j]))
  }

  ghost predicate RelayInv(c: Config, i: nat, r: Rank) {
    match r.phase
    case AwaitFirst => r.transfer.NoTransfer? && r.yielded == []
    case ReadFirst => Reading(c, r, 0) && r.yielded == []
    case Offering => HasBucket(c, r) && r.transfer.NoTransfer? && r.yielded == Prefix(c, r.index, 0)
    case AwaitNext => HasBucket(c, r) && r.transfer.NoTransfer? && r.yielded == Prefix(c, r.index, 0) && !r.isLast
                      && r.key == r.index
    case Yielding(n) => HasBucket(c, r) && n <= |c.buckets[r.index]| && r.yielded == Prefix(c, r.index, n)
                        && r.key == r.index
                        && (if r.isLast then r.transfer.NoTransfer? else Reading(c, r, r.index + 1))
    case AwaitAck => i < c.relays && HasBucket(c, r) && r.yielded == Prefix(c, r.index + 1, 0) && r.key == r.index
                     && (if r.isLast then r.transfer.NoTransfer? else Reading(c, r, r.index + 1))
    case AwaitRead => HasBucket(c, r) && !r.isLast && r.yielded == Prefix(c, r.index + 1, 0)
                      && Reading(c, r, r.index + 1)
    case Done => r.transfer.NoTransfer? && r.yielded == Unpack(c.buckets)
    case _ => false
  }

  ghost predicate RankInv(c: Config, i: nat, r: Rank) {
    if i == 0 then SenderInv(c, r) else RelayInv(c, i, r)
  }

  /** Neighbours agree: at most one publication is outstanding, the queues carry exactly the difference between
      what one side has done and the other has noticed, the published buffer still shows the published bucket,
      and a running transfer has copied bytes that are still there. */
  ghost predicate LinkInv(c: Config, i: nat, a: Rank, l: Link, b: Rank) {
    var published, acknowledged, taken, read :=
      Published(c, i, a), Acknowledged(c, i, a), Taken(c, b), Read(c, b);
    && acknowledged <= read <= taken <= published <= acknowledged + 1
    && published <= |c.buckets|
    && l.messages == (if taken < published
                      then [Message(published - 1, PublishedInB(a), MetaOf(c.buckets[published - 1]),
                                    c.Last(published - 1))]
                      else [])
    && l.notices == (if acknowledged < read then [acknowledged] else [])
    && (acknowledged < published ==> Holds(a.Buf(PublishedInB(a)), c.buckets[published - 1]))
    && (b.transfer.Active? ==>
          && b.transfer.fromB == PublishedInB(a)
          && forall at :: at in b.transfer.copied ==>
               && 0 <= at < |a.Buf(PublishedInB(a))| && at < |b.Buf(!b.inB)|
               && b.Buf(!b.inB)[at] == a.Buf(PublishedInB(a))[at])
  }

  ghost predicate RankOk(c: Config, s: State, i: nat)
    requires Shape(c, s) && i <= c.relays
  {
    RankInv(c, i, s.ranks[i])
  }

  ghost predicate LinkOk(c: Config, s: State, i: nat)
    requires Shape(c, s) && i < c.relays
  {
    LinkInv(c, i, s.ranks[i], s.links[i], s.ranks[i + 1])
  }

  ghost predicate Inv(c: Config, s: State) {
    && Shape(c, s)
    && (forall i :: 0 <= i <= c.relays ==> RankOk(c, s, i))
    && (forall i :: 0 <= i < c.relays ==> LinkOk(c, s, i))
  }

  lemma InitInv(c: Config)
    requires c.Valid()
    ensures Inv(c, Init(c))
  {
    InitShape(c);
    var s := Init(c);
    assert c.buckets[0][..0] == [];
    forall i | 0 <= i <= c.relays
      ensures RankOk(c, s, i)
    {
      assert s.ranks[i] == InitialRank(c, if i == 0 then Filling(0) else AwaitFirst);
    }
    forall i | 0 <= i < c.relays
      ensures LinkOk(c, s, i)
    {
      assert s.ranks[i] == InitialRank(c, if i == 0 then Filling(0) else AwaitFirst);
      assert s.ranks[i + 1] == InitialRank(c, AwaitFirst);
    }
  }

  // ----- a step of rank i touches rank i and the two links beside it -----

  ghost predicate Local(c: Config, s: State, s': State, i: nat)
    requires Shape(c, s) && Shape(c, s') && i <= c.relays
  {
    && (forall k :: 0 <= k <= c.relays && k != i ==> s'.ranks[k] == s.ranks[k])
    && (forall k :: 0 <= k < c.relays && k != i && k != i - 1 ==> s'.links[k] == s.links[k])
  }

  lemma OtherRank(c: Config, s: State, s': State, i: nat, k: nat)
    requires Shape(c, s) && Shape(c, s') && i <= c.relays && Local(c, s, s', i)
    requires k <= c.relays && k != i && RankOk(c, s, k)
    ensures RankOk(c, s', k)
  {
    assert s'.ranks[k] == s.ranks[k];
  }

  lemma OtherLink(c: Config, s: State, s': State, i: nat, k: nat)
    requires Shape(c, s) && Shape(c, s') && i <= c.relays && Local(c, s, s', i)
    requires k < c.relays && k != i && k + 1 != i && LinkOk(c, s, k)
    ensures LinkOk(c, s', k)
  {
    assert s'.ranks[k] == s.ranks[k] && s'.ranks[k + 1] == s.ranks[k + 1] && s'.links[k] == s.links[k];
  }

  lemma LocalStepKeepsInv(c: Config, s: State, s': State, i: nat)
    requires Inv(c, s) && Shape(c, s') && i <= c.relays && Local(c, s, s', i)
    requires RankInv(c, i, s'.ranks[i])
    requires i > 0 ==> LinkInv(c, i - 1, s'.ranks[i - 1], s'.links[i - 1], s'.ranks[i])
    requires i < c.relays ==> LinkInv(c, i, s'.ranks[i], s'.links[i], s'.ranks[i + 1])
    ensures Inv(c, s')
  {
    forall k | 0 <= k <= c.relays
      ensures RankOk(c, s', k)
    {
      if k != i {
        assert RankOk(c, s, k);
        OtherRank(c, s, s', i, k);
      }
    }
    forall k | 0 <= k < c.relays
      ensures LinkOk(c, s', k)
    {
      if k != i && k != i - 1 {
        assert LinkOk(c, s, k);
        OtherLink(c, s, s', i, k);
      }
    }
  }

  // ----- what a neighbour sees of a rank -----

  /** Upstream side of a link: the successor cannot tell a' from a. */
  ghost predicate SameUpstream(c: Config, i: nat, a: Rank, a': Rank) {
    && Published(c, i, a') == Published(c, i, a)
    && Acknowledged(c, i, a') == Acknowledged(c, i, a)
    && (Acknowledged(c, i, a) < Published(c, i, a) ==>
          PublishedInB(a') == PublishedInB(a) && a'.Buf(PublishedInB(a)) == a.Buf(PublishedInB(a)))
  }

  /** Downstream side of a link: the predecessor cannot tell b' from b. */
  ghost predicate SameDownstream(c: Config, b: Rank, b': Rank) {
    && Taken(c, b') == Taken(c, b)
    && b'.transfer.Active? == b.transfer.Active?
    && (b.transfer.Active? ==> b'.transfer == b.transfer && b'.Buf(!b'.inB) == b.Buf(!b.inB))
  }

  lemma UpstreamUnchanged(c: Config, i: nat, a: Rank, a': Rank, l: Link, b: Rank)
    requires LinkInv(c, i, a, l, b) && SameUpstream(c, i, a, a')
    ensures LinkInv(c, i, a', l, b)
  {
  }

  lemma DownstreamUnchanged(c: Config, i: nat, a: Rank, l: Link, b: Rank, b': Rank)
    requires LinkInv(c, i, a, l, b) && SameDownstream(c, b, b')
    ensures LinkInv(c, i, a, l, b')
  {
  }

  /** A step that neither neighbour can see. */
  lemma InternalStep(c: Config, s: State, i: nat, r': Rank)
    requires Inv(c, s) && i <= c.relays
    requires |r'.bufA| == |r'.bufB| == c.size
    requires RankInv(c, i, r') && SameUpstream(c, i, s.ranks[i], r')
    requires i > 0 ==> SameDownstream(c, s.ranks[i], r')
    ensures Inv(c, WithRank(s, i, r'))
  {
    var s' := WithRank(s, i, r');
    if i > 0 {
      assert LinkOk(c, s, i - 1);
      DownstreamUnchanged(c, i - 1, s.ranks[i - 1], s.links[i - 1], s.ranks[i], r');
    }
    if i < c.relays {
      assert LinkOk(c, s, i);
      UpstreamUnchanged(c, i, s.ranks[i], r', s.links[i], s.ranks[i + 1]);
    }
    LocalStepKeepsInv(c, s, s', i);
  }

  /** A step that the successor sees, through the link between them. */
  lemma DownstreamStep(c: Config, s: State, i: nat, r': Rank, l': Link)
    requires Inv(c, s) && i < c.relays
    requires |r'.bufA| == |r'.bufB| == c.size
    requires RankInv(c, i, r') && (i > 0 ==> SameDownstream(c, s.ranks[i], r'))
    requires LinkInv(c, i, r', l', s.ranks[i + 1])
    ensures Inv(c, WithLink(WithRank(s, i, r'), i, l'))
  {
    var s' := WithLink(WithRank(s, i, r'), i, l');
    assert Local(c, s, s', i);
    if i > 0 {
      assert LinkOk(c, s, i - 1);
      DownstreamUnchanged(c, i - 1, s.ranks[i - 1], s.links[i - 1], s.ranks[i], r');
    }
    LocalStepKeepsInv(c, s, s', i);
  }

  /** A step that the predecessor sees. */
  lemma UpstreamStep(c: Config, s: State, i: nat, r': Rank, l': Link)
    requires Inv(c, s) && 0 < i <= c.relays
    requires |r'.bufA| == |r'.bufB| == c.size
    requires RankInv(c, i, r') && SameUpstream(c, i, s.ranks[i], r')
    requires LinkInv(c, i - 1, s.ranks[i - 1], l', r')
    ensures Inv(c, WithLink(WithRank(s, i, r'), i - 1, l'))
  {
    var s' := WithLink(WithRank(s, i, r'), i - 1, l');
    if i < c.relays {
      assert LinkOk(c, s, i);
      UpstreamUnchanged(c, i, s.ranks[i], r', s.links[i], s.ranks[i + 1]);
    }
    LocalStepKeepsInv(c, s, s', i);
  }

  lemma LinkBefore(c: Config, s: State, i: nat)
    requires Inv(c, s) && 0 < i <= c.relays
    ensures RelayInv(c, i, s.ranks[i])
    ensures LinkInv(c, i - 1, s.ranks[i - 1], s.links[i - 1], s.ranks[i])
  {
    assert RankOk(c, s, i);
    assert LinkOk(c, s, i - 1);
  }

  // ----- the steps, one at a time -----

  lemma PrefixIsWellPlaced(b: Bucket, n: nat, size: nat)
    requires WellPlaced(b, size) && n < |b|
    ensures WellPlaced(b[..n], size)
    ensures b[n].offset == Used(b[..n]) && Used(b[..n]) + |b[n].bytes| <= size
  {
    UsedIsMonotone(b, n);
    assert EntryPlaced(b, n);
    forall i | 0 <= i < n
      ensures EntryPlaced(b[..n], i)
    {
      assert b[..n][..i] == b[..i];
      assert EntryPlaced(b, i);
    }
  }

  /** The trainer's write lands in the buffer being filled; the other one is not touched. */
  lemma WriteFills(b: Bucket, n: nat, buf: seq<byte>)
    requires WellPlaced(b, |buf|) && n < |b| && FilledTo(buf, b, n)
    ensures b[n].offset + |b[n].bytes| <= |buf|
    ensures FilledTo(Overwrite(buf, b[n].offset, b[n].bytes), b, n + 1)
  {
    PrefixIsWellPlaced(b, n, |buf|);
    var e := b[n];
    HoldsAfterAppend(buf, Overwrite(buf, e.offset, e.bytes), b[..n], e, |buf|);
    assert b[..n + 1] == b[..n] + [e];
  }

  lemma Rewritten(c: Config, r: Rank, after: seq<byte>, n: nat)
    requires SenderInv(c, r) && r.phase.Filling? && r.index < |c.buckets| && n <= |c.buckets[r.index]|
    requires FilledTo(after, c.buckets[r.index], n)
    ensures var r' := r.WithBuf(r.inB, after).(phase := Filling(n));
            SenderInv(c, r') && SameUpstream(c, 0, r, r')
  {
  }

  lemma WriteRank(c: Config, r: Rank)
    requires c.Valid() && SenderInv(c, r) && r.phase.Filling? && r.phase.written < |c.buckets[r.index]|
    requires |r.bufA| == |r.bufB| == c.size
    ensures SenderInv(c, DoWrite(c, r)) && SameUpstream(c, 0, r, DoWrite(c, r))
    ensures |DoWrite(c, r).bufA| == |DoWrite(c, r).bufB| == c.size
  {
    var b, n, buf := c.buckets[r.index], r.phase.written, r.SendBuf();
    assert b in c.buckets;
    assert NewName(b, n);
    WriteFills(b, n, buf);
    Rewritten(c, r, Overwrite(buf, b[n].offset, b[n].bytes), n + 1);
  }

  lemma WriteStep(c: Config, s: State, e: Event)
    requires c.Valid() && Inv(c, s) && Enabled(c, s, e) && e.action.Write?
    ensures Inv(c, Apply(c, s, e))
  {
    assert RankOk(c, s, 0);
    WriteRank(c, s.ranks[0]);
    InternalStep(c, s, 0, DoWrite(c, s.ranks[0]));
  }

  lemma SealStep(c: Config, s: State, e: Event)
    requires c.Valid() && Inv(c, s) && Enabled(c, s, e) && e.action.Seal?
    ensures Inv(c, Apply(c, s, e))
  {
    var r := s.ranks[0];
    assert RankOk(c, s, 0);
    assert c.buckets[r.index][..r.phase.written] == c.buckets[r.index];
    InternalStep(c, s, 0, r.(phase := if r.index > 0 then AwaitPrevious else Offering));
  }

  lemma SenderOffer(c: Config, r: Rank, l: Link, b: Rank)
    requires c.Valid() && SenderInv(c, r) && r.phase.Offering? && LinkInv(c, 0, r, l, b)
    ensures SenderInv(c, DoOffer(c, 0, r))
    ensures LinkInv(c, 0, DoOffer(c, 0, r), l.(messages := l.messages + [Offered(c, 0, r)]), b)
  {
    if !c.Last(r.index) {
      assert c.buckets[r.index + 1][..0] == [];
    }
  }

  lemma RelayOffer(c: Config, i: nat, r: Rank)
    requires 0 < i && RelayInv(c, i, r) && r.phase.Offering?
    ensures RelayInv(c, i, DoOffer(c, i, r)) && SameDownstream(c, r, DoOffer(c, i, r))
  {
  }

  lemma RelayOfferLink(c: Config, i: nat, r: Rank, l: Link, b: Rank)
    requires 0 < i && RelayInv(c, i, r) && r.phase.Offering? && LinkInv(c, i, r, l, b)
    ensures LinkInv(c, i, DoOffer(c, i, r), l.(messages := l.messages + [Offered(c, i, r)]), b)
  {
  }

  lemma OfferStep(c: Config, s: State, e: Event)
    requires c.Valid() && Inv(c, s) && Enabled(c, s, e) && e.action.Offer?
    ensures Inv(c, Apply(c, s, e))
  {
    var i, r := e.rank, s.ranks[e.rank];
    assert RankOk(c, s, i);
    if i < c.relays {
      assert LinkOk(c, s, i);
      if i == 0 {
        SenderOffer(c, r, s.links[i], s.ranks[i + 1]);
      } else {
        RelayOffer(c, i, r);
        RelayOfferLink(c, i, r, s.links[i], s.ranks[i + 1]);
      }
      DownstreamStep(c, s, i, DoOffer(c, i, r), s.links[i].(messages := s.links[i].messages + [Offered(c, i, r)]));
    } else {
      RelayOffer(c, i, r);
      LastRelayStep(c, s, DoOffer(c, i, r));
    }
  }

  /** The last relay has no successor: only its downstream view matters. */
  lemma LastRelayStep(c: Config, s: State, r': Rank)
    requires c.Valid() && Inv(c, s)
    requires |r'.bufA| == |r'.bufB| == c.size
    requires RelayInv(c, c.relays, r') && SameDownstream(c, s.ranks[c.relays], r')
    ensures Inv(c, WithRank(s, c.relays, r'))
  {
    var i := c.relays;
    assert LinkOk(c, s, i - 1);
    DownstreamUnchanged(c, i - 1, s.ranks[i - 1], s.links[i - 1], s.ranks[i], r');
    LocalStepKeepsInv(c, s, WithRank(s, i, r'), i);
  }

  lemma TakeMessageLink(c: Config, i: nat, a: Rank, l: Link, b: Rank)
    requires LinkInv(c, i, a, l, b) && RelayInv(c, i + 1, b) && l.messages != []
    requires b.phase.AwaitFirst? || b.phase.AwaitNext?
    ensures LinkInv(c, i, a, l.(messages := l.messages[1..]), DoTakeMessage(b, l.messages[0]))
    ensures RelayInv(c, i + 1, DoTakeMessage(b, l.messages[0]))
    ensures SameUpstream(c, i + 1, b, DoTakeMessage(b, l.messages[0]))
  {
  }

  lemma TakeMessageStep(c: Config, s: State, e: Event)
    requires c.Valid() && Inv(c, s) && Enabled(c, s, e) && e.action.TakeMessage?
    ensures Inv(c, Apply(c, s, e))
  {
    var i, r := e.rank, s.ranks[e.rank];
    var l := s.links[i - 1];
    LinkBefore(c, s, i);
    TakeMessageLink(c, i - 1, s.ranks[i - 1], l, r);
    UpstreamStep(c, s, i, DoTakeMessage(r, l.messages[0]), l.(messages := l.messages[1..]));
  }

  lemma CopyRank(c: Config, i: nat, b: Rank, a: Rank, at: nat)
    requires RelayInv(c, i, b) && b.transfer.Active? && at < c.size
    requires |a.bufA| == |a.bufB| == |b.bufA| == |b.bufB| == c.size
    ensures RelayInv(c, i, DoCopy(b, a, at))
    ensures SameUpstream(c, i, b, DoCopy(b, a, at))
    ensures |DoCopy(b, a, at).bufA| == |DoCopy(b, a, at).bufB| == c.size
  {
    assert DoCopy(b, a, at).Buf(b.inB) == b.Buf(b.inB);
  }

  lemma CopyLink(c: Config, i: nat, a: Rank, l: Link, b: Rank, at: nat)
    requires LinkInv(c, i, a, l, b) && b.transfer.Active? && at < c.size
    requires |a.bufA| == |a.bufB| == |b.bufA| == |b.bufB| == c.size
    ensures LinkInv(c, i, a, l, DoCopy(b, a, at))
  {
    assert DoCopy(b, a, at).Buf(b.inB) == b.Buf(b.inB);
  }

  lemma CopyStep(c: Config, s: State, e: Event)
    requires c.Valid() && Inv(c, s) && Enabled(c, s, e) && e.action.Copy?
    ensures Inv(c, Apply(c, s, e))
  {
    var i, at := e.rank, e.action.at;
    var r, a, l := s.ranks[i], s.ranks[i - 1], s.links[i - 1];
    LinkBefore(c, s, i);
    CopyLink(c, i - 1, a, l, r, at);
    CopyRank(c, i, r, a, at);
    UpstreamStep(c, s, i, DoCopy(r, a, at), l);
    assert s.links[i - 1 := l] == s.links;
  }

  /** All bytes copied from a buffer that did not change meanwhile: the copy shows the published bucket. */
  lemma LandLink(c: Config, i: nat, a: Rank, l: Link, b: Rank)
    requires LinkInv(c, i, a, l, b) && RelayInv(c, i + 1, b) && b.transfer.Active?
    requires forall at :: 0 <= at < c.size ==> at in b.transfer.copied
    requires |a.bufA| == |a.bufB| == |b.bufA| == |b.bufB| == c.size
    ensures LinkInv(c, i, a, l.(notices := l.notices + [b.transfer.key]), b.(transfer := Landed))
    ensures RelayInv(c, i + 1, b.(transfer := Landed))
    ensures SameUpstream(c, i + 1, b, b.(transfer := Landed))
  {
    assert a.Buf(PublishedInB(a)) == b.Buf(!b.inB);
  }

  lemma LandStep(c: Config, s: State, e: Event)
    requires c.Valid() && Inv(c, s) && Enabled(c, s, e) && e.action.Land?
    ensures Inv(c, Apply(c, s, e))
  {
    var i := e.rank;
    var r, a, l := s.ranks[i], s.ranks[i - 1], s.links[i - 1];
    LinkBefore(c, s, i);
    LandLink(c, i - 1, a, l, r);
    UpstreamStep(c, s, i, r.(transfer := Landed), l.(notices := l.notices + [r.transfer.key]));
  }

  lemma SwapRank(c: Config, i: nat, r: Rank)
    requires c.Valid() && RelayInv(c, i, r) && (r.phase.ReadFirst? || r.phase.AwaitRead?) && r.transfer.Landed?
    ensures RelayInv(c, i, DoSwap(r)) && SameDownstream(c, r, DoSwap(r)) && SameUpstream(c, i, r, DoSwap(r))
  {
    assert c.buckets[..0] == [];
  }

  lemma SwapStep(c: Config, s: State, e: Event)
    requires c.Valid() && Inv(c, s) && Enabled(c, s, e) && e.action.Swap?
    ensures Inv(c, Apply(c, s, e))
  {
    var i, r := e.rank, s.ranks[e.rank];
    assert RankOk(c, s, i);
    SwapRank(c, i, r);
    InternalStep(c, s, i, DoSwap(r));
  }

  lemma {:induction false} UnpackSnoc(buckets: seq<Bucket>, b: Bucket)
    ensures Unpack(buckets + [b]) == Unpack(buckets) + ChunksOf(b)
  {
    if buckets == [] {
      assert (buckets + [b])[1..] == [];
    } else {
      assert (buckets + [b])[1..] == buckets[1..] + [b];
      UnpackSnoc(buckets[1..], b);
    }
  }

  lemma PrefixNextBucket(c: Config, j: nat)
    requires j < |c.buckets|
    ensures Prefix(c, j, |c.buckets[j]|) == Prefix(c, j + 1, 0)
    ensures c.Last(j) ==> Prefix(c, j + 1, 0) == Unpack(c.buckets)
  {
    assert c.buckets[..j + 1] == c.buckets[..j] + [c.buckets[j]];
    UnpackSnoc(c.buckets[..j], c.buckets[j]);
    if c.Last(j) {
      assert c.buckets[..j + 1] == c.buckets;
    }
  }

  lemma HeldSlice(buf: seq<byte>, b: Bucket, n: nat)
    requires Holds(buf, b) && n < |b|
    ensures Slice(buf, b[n].offset, |b[n].bytes|) == b[n].bytes
  {
    assert EntryHeld(buf, b[n]);
  }

  lemma PrefixNextChunk(c: Config, j: nat, n: nat)
    requires j < |c.buckets| && n < |c.buckets[j]|
    ensures Prefix(c, j, n + 1) == Prefix(c, j, n) + [Chunk(c.buckets[j][n].meta, c.buckets[j][n].bytes)]
  {
    var cs := ChunksOf(c.buckets[j]);
    assert cs[..n + 1] == cs[..n] + [cs[n]];
    assert cs[..0] == [];
  }

  /** The chunk taken out of the buffer is the next chunk of the trainer, metadata and bytes. */
  lemma EmitIsNextChunk(c: Config, r: Rank)
    requires c.Valid() && HasBucket(c, r) && r.phase.Yielding? && r.phase.emitted < |r.meta|
    requires r.yielded == Prefix(c, r.index, r.phase.emitted)
    ensures DoEmit(r).yielded == Prefix(c, r.index, r.phase.emitted + 1)
  {
    var b, n := c.buckets[r.index], r.phase.emitted;
    assert b in c.buckets;
    assert EntryPlaced(b, n);
    HeldSlice(r.SendBuf(), b, n);
    PrefixNextChunk(c, r.index, n);
  }

  lemma EmitRank(c: Config, i: nat, r: Rank)
    requires c.Valid() && RelayInv(c, i, r) && r.phase.Yielding? && r.phase.emitted < |r.meta|
    ensures RelayInv(c, i, DoEmit(r)) && SameDownstream(c, r, DoEmit(r)) && SameUpstream(c, i, r, DoEmit(r))
  {
    EmitIsNextChunk(c, r);
  }

  lemma EmitStep(c: Config, s: State, e: Event)
    requires c.Valid() && Inv(c, s) && Enabled(c, s, e) && e.action.Emit?
    ensures Inv(c, Apply(c, s, e))
  {
    var i, r := e.rank, s.ranks[e.rank];
    assert RankOk(c, s, i);
    EmitRank(c, i, r);
    InternalStep(c, s, i, DoEmit(r));
  }

  lemma EndEmitRank(c: Config, i: nat, r: Rank)
    requires c.Valid() && i <= c.relays && RelayInv(c, i, r) && r.phase.Yielding? && r.phase.emitted == |r.meta|
    ensures var r' := DoEndEmit(r, i < c.relays);
            RelayInv(c, i, r') && SameDownstream(c, r, r') && (i < c.relays ==> SameUpstream(c, i, r, r'))
  {
    PrefixNextBucket(c, r.index);
  }

  lemma EndEmitStep(c: Config, s: State, e: Event)
    requires c.Valid() && Inv(c, s) && Enabled(c, s, e) && e.action.EndEmit?
    ensures Inv(c, Apply(c, s, e))
  {
    var i, r := e.rank, s.ranks[e.rank];
    assert RankOk(c, s, i);
    EndEmitRank(c, i, r);
    if i < c.relays {
      InternalStep(c, s, i, DoEndEmit(r, true));
    } else {
      LastRelayStep(c, s, DoEndEmit(r, false));
    }
  }

  lemma TakeNoticeLink(c: Config, i: nat, a: Rank, l: Link, b: Rank)
    requires c.Valid() && LinkInv(c, i, a, l, b) && RankInv(c, i, a) && l.notices != []
    requires a.phase.AwaitPrevious? || a.phase.AwaitFinal? || a.phase.AwaitAck?
    ensures !DoTakeNotice(a, l.notices[0]).phase.Failed?
    ensures LinkInv(c, i, DoTakeNotice(a, l.notices[0]), l.(notices := l.notices[1..]), b)
  {
  }

  lemma TakeNoticeRank(c: Config, i: nat, a: Rank)
    requires c.Valid() && RankInv(c, i, a)
    requires a.phase.AwaitPrevious? || a.phase.AwaitFinal? || a.phase.AwaitAck?
    ensures RankInv(c, i, DoTakeNotice(a, a.key))
    ensures i > 0 ==> SameDownstream(c, a, DoTakeNotice(a, a.key))
  {
    if i > 0 {
      PrefixNextBucket(c, a.index);
    }
  }

  lemma TakeNoticeStep(c: Config, s: State, e: Event)
    requires c.Valid() && Inv(c, s) && Enabled(c, s, e) && e.action.TakeNotice?
    ensures Inv(c, Apply(c, s, e))
  {
    var i, r := e.rank, s.ranks[e.rank];
    var l := s.links[i];
    assert RankOk(c, s, i);
    assert LinkOk(c, s, i);
    TakeNoticeLink(c, i, r, l, s.ranks[i + 1]);
    TakeNoticeRank(c, i, r);
    DownstreamStep(c, s, i, DoTakeNotice(r, l.notices[0]), l.(notices := l.notices[1..]));
  }

  lemma StepKeepsInv(c: Config, s: State, e: Event)
    requires c.Valid() && Inv(c, s) && Enabled(c, s, e)
    ensures Inv(c, Apply(c, s, e))
  {
    match e.action
    case Write => WriteStep(c, s, e);
    case Seal => SealStep(c, s, e);
    case Offer => OfferStep(c, s, e);
    case TakeMessage => TakeMessageStep(c, s, e);
    case Copy(_) => CopyStep(c, s, e);
    case Land => LandStep(c, s, e);
    case Swap => SwapStep(c, s, e);
    case Emit => EmitStep(c, s, e);
    case EndEmit => EndEmitStep(c, s, e);
    case TakeNotice => TakeNoticeStep(c, s, e);
  }

  lemma {:induction false} RunKeepsInv(c: Config, s: State, events: seq<Event>)
    requires c.Valid() && Inv(c, s) && Run(c, s, events).Some?
    ensures Inv(c, Run(c, s, events).value)
    decreases |events|
  {
    if events != [] {
      StepKeepsInv(c, s, events[0]);
      RunKeepsInv(c, Apply(c, s, events[0]), events[1..]);
    }
  }

  lemma ReachableInv(c: Config, s: State)
    requires c.Valid() && Reachable(c, s)
    ensures Inv(c, s)
  {
    InitInv(c);
    var events :| Run(c, Init(c), events) == Some(s);
    RunKeepsInv(c, Init(c), events);
  }
}
