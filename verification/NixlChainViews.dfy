/** The chunks a relay yields are views of its buffer, not copies: how long they stay right. */
module NixlChainViews {
  import opened Buffers
  import opened Wrappers
  import opened WeightBuckets
  import opened WeightChunks
  import opened NixlChain
  import opened NixlChainSafety

  /** The buffer that bucket j is read into and yielded from: the two take turns. */
  function HomeInB(j: nat): bool {
    j % 2 == 0
  }

  /** Behind the first read send_buf shows the current bucket, and the other buffer the one before until it is read
      into. */
  ghost predicate ViewInv(c: Config, r: Rank) {
    if r.phase.AwaitFirst? || r.phase.ReadFirst? then !r.inB
    else
      && r.index < |c.buckets| && r.inB == HomeInB(r.index) && Holds(r.SendBuf(), c.buckets[r.index])
      && (r.index > 0 && r.transfer.NoTransfer? ==> Holds(r.Buf(!r.inB), c.buckets[r.index - 1]))
      && (r.phase.Done? ==> c.Last(r.index))
  }

  ghost predicate ViewOk(c: Config, s: State, i: nat)
    requires Shape(c, s) && i <= c.relays
  {
    i > 0 ==> ViewInv(c, s.ranks[i])
  }

  ghost predicate AllViews(c: Config, s: State) {
    Shape(c, s) && forall i :: 0 <= i <= c.relays ==> ViewOk(c, s, i)
  }

  // ----- the steps of a relay -----

  lemma CopyKeepsView(c: Config, r: Rank, a: Rank, at: nat)
    requires ViewInv(c, r) && r.transfer.Active? && at < c.size
    requires |a.bufA| == |a.bufB| == |r.bufA| == |r.bufB| == c.size
    ensures ViewInv(c, DoCopy(r, a, at))
  {
    assert DoCopy(r, a, at).Buf(r.inB) == r.Buf(r.inB);
  }

  lemma SwapKeepsView(c: Config, i: nat, r: Rank)
    requires ViewInv(c, r) && RelayInv(c, i, r) && (r.phase.ReadFirst? || r.phase.AwaitRead?) && r.transfer.Landed?
    ensures ViewInv(c, DoSwap(r))
  {
    assert DoSwap(r).SendBuf() == r.Buf(!r.inB) && DoSwap(r).Buf(!DoSwap(r).inB) == r.SendBuf();
  }

  /** The other steps change neither the buffers nor their roles. */
  lemma OthersKeepView(c: Config, i: nat, r: Rank, r': Rank)
    requires ViewInv(c, r) && RelayInv(c, i, r)
    requires r'.bufA == r.bufA && r'.bufB == r.bufB && r'.inB == r.inB && r'.index == r.index
    requires r'.transfer.NoTransfer? ==> r.transfer.NoTransfer?
    requires (r'.phase.AwaitFirst? || r'.phase.ReadFirst?) <==> (r.phase.AwaitFirst? || r.phase.ReadFirst?)
    requires r'.phase.Done? ==> r.phase.Yielding? || r.phase.AwaitAck?
    requires r'.phase.Done? ==> r.isLast
    ensures ViewInv(c, r')
  {
  }

  lemma NoticeKeepsView(c: Config, i: nat, r: Rank, notice: nat)
    requires ViewInv(c, r) && RelayInv(c, i, r) && r.phase.AwaitAck?
    ensures ViewInv(c, DoTakeNotice(r, notice))
  {
    OthersKeepView(c, i, r, DoTakeNotice(r, notice));
  }

  lemma RelayStepKeepsView(c: Config, s: State, e: Event)
    requires c.Valid() && Inv(c, s) && Enabled(c, s, e) && 0 < e.rank && ViewInv(c, s.ranks[e.rank])
    ensures ViewInv(c, Apply(c, s, e).ranks[e.rank])
  {
    var i, r := e.rank, s.ranks[e.rank];
    assert RankOk(c, s, i);
    match e.action {
      case Offer => OthersKeepView(c, i, r, DoOffer(c, i, r));
      case TakeMessage => OthersKeepView(c, i, r, DoTakeMessage(r, s.links[i - 1].messages[0]));
      case Copy(at) => CopyKeepsView(c, r, s.ranks[i - 1], at);
      case Land => OthersKeepView(c, i, r, r.(transfer := Landed));
      case Swap => SwapKeepsView(c, i, r);
      case Emit => OthersKeepView(c, i, r, DoEmit(r));
      case EndEmit => OthersKeepView(c, i, r, DoEndEmit(r, i < c.relays));
      case TakeNotice => NoticeKeepsView(c, i, r, s.links[i].notices[0]);
      case _ =>
    }
  }

  lemma StepKeepsViews(c: Config, s: State, e: Event)
    requires c.Valid() && Inv(c, s) && AllViews(c, s) && Enabled(c, s, e)
    ensures AllViews(c, Apply(c, s, e))
  {
    ApplyKeepsShape(c, s, e);
    forall i | 0 <= i <= c.relays
      ensures ViewOk(c, Apply(c, s, e), i)
    {
      assert ViewOk(c, s, i);
      if i == e.rank && i > 0 {
        RelayStepKeepsView(c, s, e);
      }
    }
  }

  lemma {:induction false} RunKeepsViews(c: Config, s: State, events: seq<Event>)
    requires c.Valid() && Inv(c, s) && AllViews(c, s) && Run(c, s, events).Some?
    ensures AllViews(c, Run(c, s, events).value)
    decreases |events|
  {
    if events != [] {
      StepKeepsInv(c, s, events[0]);
      StepKeepsViews(c, s, events[0]);
      RunKeepsViews(c, Apply(c, s, events[0]), events[1..]);
    }
  }

  lemma ReachableViews(c: Config, s: State)
    requires c.Valid() && Reachable(c, s)
    ensures AllViews(c, s)
  {
    InitInv(c);
    var events :| Run(c, Init(c), events) == Some(s);
    forall i | 0 <= i <= c.relays
      ensures ViewOk(c, Init(c), i)
    {
      assert Init(c).ranks[i] == InitialRank(c, if i == 0 then Filling(0) else AwaitFirst);
    }
    RunKeepsViews(c, Init(c), events);
  }

  // ----- how long a view is right -----

  /** What a view of chunk n of bucket j shows. */
  function View(c: Config, r: Rank, j: nat, n: nat): seq<byte>
    requires j < |c.buckets| && n < |c.buckets[j]|
  {
    Slice(r.Buf(HomeInB(j)), c.buckets[j][n].offset, |c.buckets[j][n].bytes|)
  }

  /** The chunk that is yielded next is a view of that buffer. */
  lemma EmitsView(c: Config, s: State, e: Event)
    requires c.Valid() && Reachable(c, s) && Shape(c, s) && Enabled(c, s, e) && e.action.Emit?
    ensures var r := s.ranks[e.rank];
            && r.index < |c.buckets| && r.phase.emitted < |c.buckets[r.index]|
            && Apply(c, s, e).ranks[e.rank].yielded
               == r.yielded + [Chunk(c.buckets[r.index][r.phase.emitted].meta, View(c, r, r.index, r.phase.emitted))]
  {
    ReachableInv(c, s);
    ReachableViews(c, s);
    assert RankOk(c, s, e.rank) && ViewOk(c, s, e.rank);
    var b := c.buckets[s.ranks[e.rank].index];
    assert b in c.buckets;
    assert EntryPlaced(b, s.ranks[e.rank].phase.emitted);
  }

  /** In every reachable state the views of a bucket that a relay has read are right as long as it has not begun to read
      the next bucket but one. */
  lemma ViewsStayRight(c: Config, s: State, i: nat, j: nat, n: nat)
    requires c.Valid() && Reachable(c, s) && 0 < i < |s.ranks| && j < |c.buckets| && n < |c.buckets[j]|
    requires Read(c, s.ranks[i]) > j && Taken(c, s.ranks[i]) <= j + 2
    ensures View(c, s.ranks[i], j, n) == c.buckets[j][n].bytes
  {
    ReachableInv(c, s);
    ReachableViews(c, s);
    assert RankOk(c, s, i) && ViewOk(c, s, i);
    var r := s.ranks[i];
    assert Holds(r.Buf(HomeInB(j)), c.buckets[j]);
    HeldSlice(r.Buf(HomeInB(j)), c.buckets[j], n);
  }

  /** When that one has been read in turn, a view of the old bucket shows the chunk of the new one that lies in its
      place, so it is right only if the two have the same bytes. */
  lemma ViewsShowTheNextButOne(c: Config, s: State, i: nat, j: nat, n: nat, m: nat)
    requires c.Valid() && Reachable(c, s) && 0 < i < |s.ranks| && j + 2 < |c.buckets|
    requires n < |c.buckets[j]| && m < |c.buckets[j + 2]|
    requires var entry, later := c.buckets[j][n], c.buckets[j + 2][m];
             entry.offset == later.offset && |entry.bytes| == |later.bytes|
    requires Read(c, s.ranks[i]) > j + 2 && Taken(c, s.ranks[i]) <= j + 4
    ensures View(c, s.ranks[i], j, n) == c.buckets[j + 2][m].bytes
  {
    ViewsStayRight(c, s, i, j + 2, m);
    assert HomeInB(j + 2) == HomeInB(j);
  }

  /** The next bucket but one is read into the buffer a bucket was yielded from. */
  lemma ReadsIntoHome(c: Config, s: State, i: nat, j: nat)
    requires c.Valid() && Reachable(c, s) && 0 < i < |s.ranks|
    requires s.ranks[i].transfer.Active? && s.ranks[i].transfer.key == j + 2
    ensures HomeInB(j) == !s.ranks[i].inB
  {
    ReachableInv(c, s);
    ReachableViews(c, s);
    assert RankOk(c, s, i) && ViewOk(c, s, i);
    assert s.ranks[i].index == j + 1;
  }

  lemma CopiedByte(r: Rank, a: Rank, at: nat, offset: nat, length: nat, size: nat)
    requires r.transfer.Active? && |a.bufA| == |a.bufB| == |r.bufA| == |r.bufB| == size
    requires offset <= at < offset + length <= size
    ensures var view := Slice(DoCopy(r, a, at).Buf(!r.inB), offset, length);
            |view| == length && view[at - offset] == a.Buf(r.transfer.fromB)[at]
  {
  }

  /** From then on they are overwritten: the view is wrong as soon as a byte in it has been copied that differs. */
  lemma ReadEndsView(c: Config, s: State, e: Event, j: nat, n: nat)
    requires c.Valid() && Reachable(c, s) && Shape(c, s) && Enabled(c, s, e) && e.action.Copy?
    requires j < |c.buckets| && n < |c.buckets[j]| && s.ranks[e.rank].transfer.key == j + 2
    requires var entry, r := c.buckets[j][n], s.ranks[e.rank];
             && entry.offset <= e.action.at < entry.offset + |entry.bytes| && e.rank > 0
             && s.ranks[e.rank - 1].Buf(r.transfer.fromB)[e.action.at] != entry.bytes[e.action.at - entry.offset]
    ensures View(c, Apply(c, s, e).ranks[e.rank], j, n) != c.buckets[j][n].bytes
  {
    var entry, r := c.buckets[j][n], s.ranks[e.rank];
    ReadsIntoHome(c, s, e.rank, j);
    assert c.buckets[j] in c.buckets;
    EntryEndsBefore(c.buckets[j], n, c.size);
    CopiedByte(r, s.ranks[e.rank - 1], e.action.at, entry.offset, |entry.bytes|, c.size);
  }
}
