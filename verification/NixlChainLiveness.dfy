/** The relay chain cannot get stuck and cannot run forever. */
module NixlChainLiveness {
  import opened NixlChain
  import opened NixlChainSafety

  // ----- some rank can always move -----

  predicate WaitsForNotice(r: Rank) {
    r.phase.AwaitPrevious? || r.phase.AwaitFinal? || r.phase.AwaitAck?
  }

  predicate WaitsForMessage(r: Rank) {
    r.phase.AwaitFirst? || r.phase.AwaitNext?
  }

  lemma TransferMoves(c: Config, s: State, i: nat) returns (e: Event)
    requires Inv(c, s) && 0 < i <= c.relays && s.ranks[i].transfer.Active?
    ensures Enabled(c, s, e)
  {
    if at :| 0 <= at < c.size && at !in s.ranks[i].transfer.copied {
      e := Event(i, Copy(at));
    } else {
      e := Event(i, Land);
    }
  }

  /** A rank that is not waiting for a neighbour can move by itself. */
  lemma MovesAlone(c: Config, s: State, i: nat) returns (e: Event)
    requires c.Valid() && Inv(c, s) && i <= c.relays && !s.ranks[i].phase.Done?
    requires WaitsForNotice(s.ranks[i]) ==> i < c.relays && s.links[i].notices != []
    requires WaitsForMessage(s.ranks[i]) ==> i > 0 && s.links[i - 1].messages != []
    ensures Enabled(c, s, e)
  {
    assert RankOk(c, s, i);
    var r := s.ranks[i];
    match r.phase {
      case Filling(n) => e := Event(i, if n < |c.buckets[r.index]| then Write else Seal);
      case Offering => e := Event(i, Offer);
      case Yielding(n) => e := Event(i, if n < |r.meta| then Emit else EndEmit);
      case ReadFirst =>
        if r.transfer.Active? { e := TransferMoves(c, s, i); } else { e := Event(i, Swap); }
      case AwaitRead =>
        if r.transfer.Active? { e := TransferMoves(c, s, i); } else { e := Event(i, Swap); }
      case _ => e := Event(i, if WaitsForNotice(r) then TakeNotice else TakeMessage);
    }
  }

  /** Waiting for a read to finish: the reader, or one further down the chain, can move. */
  lemma {:induction false} NoticeComes(c: Config, s: State, i: nat) returns (e: Event)
    requires c.Valid() && Inv(c, s) && i < c.relays && WaitsForNotice(s.ranks[i])
    ensures Enabled(c, s, e)
    decreases c.relays - i
  {
    assert RankOk(c, s, i) && LinkOk(c, s, i) && RankOk(c, s, i + 1);
    if s.links[i].notices != [] {
      e := MovesAlone(c, s, i);
    } else if s.ranks[i + 1].transfer.Active? {
      e := TransferMoves(c, s, i + 1);
    } else if WaitsForNotice(s.ranks[i + 1]) {
      e := NoticeComes(c, s, i + 1);
    } else {
      e := MovesAlone(c, s, i + 1);
    }
  }

  lemma PredecessorIsNotDone(c: Config, s: State, i: nat)
    requires c.Valid() && Inv(c, s) && 0 < i <= c.relays && WaitsForMessage(s.ranks[i]) && s.links[i - 1].messages == []
    ensures !s.ranks[i - 1].phase.Done? && (WaitsForMessage(s.ranks[i - 1]) ==> i - 1 > 0)
  {
    assert RankOk(c, s, i) && LinkOk(c, s, i - 1) && RankOk(c, s, i - 1);
  }

  /** Waiting for metadata: someone further up can move, or someone that rank is waiting for. */
  lemma {:induction false} MessageComes(c: Config, s: State, i: nat) returns (e: Event)
    requires c.Valid() && Inv(c, s) && 0 < i <= c.relays && WaitsForMessage(s.ranks[i])
    ensures Enabled(c, s, e)
    decreases i
  {
    if s.links[i - 1].messages != [] {
      e := MovesAlone(c, s, i);
      return;
    }
    PredecessorIsNotDone(c, s, i);
    if WaitsForMessage(s.ranks[i - 1]) {
      e := MessageComes(c, s, i - 1);
    } else if WaitsForNotice(s.ranks[i - 1]) {
      e := NoticeComes(c, s, i - 1);
    } else {
      e := MovesAlone(c, s, i - 1);
    }
  }

  lemma SomeoneMoves(c: Config, s: State) returns (e: Event)
    requires c.Valid() && Inv(c, s) && !Final(s)
    ensures Enabled(c, s, e)
  {
    var i :| 0 <= i < |s.ranks| && !s.ranks[i].phase.Done?;
    assert RankOk(c, s, i);
    if WaitsForNotice(s.ranks[i]) {
      e := NoticeComes(c, s, i);
    } else if WaitsForMessage(s.ranks[i]) {
      e := MessageComes(c, s, i);
    } else {
      e := MovesAlone(c, s, i);
    }
  }

  // ----- every step uses up work -----

  function StagesFrom(c: Config, j: nat): nat
    decreases |c.buckets| - j
  {
    if j >= |c.buckets| then 0 else |c.buckets[j]| + 6 + StagesFrom(c, j + 1)
  }

  function ReadsFrom(c: Config, j: nat): nat
    decreases |c.buckets| - j
  {
    if j >= |c.buckets| then 0 else c.size + 3 + ReadsFrom(c, j + 1)
  }

  function Positions(n: nat): (s: set<nat>)
    ensures |s| == n && forall k: nat :: k in s <==> k < n
  {
    if n == 0 then {} else Positions(n - 1) + {n - 1}
  }

  /** Steps left in the program of a rank. */
  function StageWork(c: Config, i: nat, r: Rank): int {
    var n := if r.index < |c.buckets| then |c.buckets[r.index]| else 0;
    match r.phase
    case Filling(written) => StagesFrom(c, r.index) - written
    case AwaitPrevious => StagesFrom(c, r.index) - n - 1
    case AwaitFinal => StagesFrom(c, r.index) - n - 3
    case AwaitFirst => StagesFrom(c, 0) + 2
    case ReadFirst => StagesFrom(c, 0) + 1
    case Offering => StagesFrom(c, r.index) - (if i == 0 then n + 2 else 0)
    case AwaitNext => StagesFrom(c, r.index) - 1
    case Yielding(emitted) => StagesFrom(c, r.index) - 2 - emitted
    case AwaitAck => StagesFrom(c, r.index) - 3 - n
    case AwaitRead => StagesFrom(c, r.index) - 4 - n
    case Done => 0
    case Failed => 0
  }

  /** Bytes and completions left in its reads. */
  function ReadWork(c: Config, i: nat, r: Rank): nat {
    if i == 0 then 0
    else
      ReadsFrom(c, Taken(c, r)) +
      match r.transfer
      case NoTransfer => 0
      case Active(_, _, copied) => |Positions(c.size) - copied| + 2
      case Landed => 1
  }

  function Work(c: Config, i: nat, r: Rank): int {
    StageWork(c, i, r) + ReadWork(c, i, r)
  }

  function WorkUpTo(c: Config, s: State, n: nat): int
    requires n <= |s.ranks|
  {
    if n == 0 then 0 else WorkUpTo(c, s, n - 1) + Work(c, n - 1, s.ranks[n - 1])
  }

  function TotalWork(c: Config, s: State): int {
    WorkUpTo(c, s, |s.ranks|)
  }

  lemma WorkIsNonNegative(c: Config, s: State, i: nat)
    requires c.Valid() && Inv(c, s) && i <= c.relays
    ensures Work(c, i, s.ranks[i]) >= 0
  {
    assert RankOk(c, s, i);
  }

  lemma {:induction false} TotalIsNonNegative(c: Config, s: State, n: nat)
    requires c.Valid() && Inv(c, s) && n <= |s.ranks|
    ensures WorkUpTo(c, s, n) >= 0
  {
    if n > 0 {
      TotalIsNonNegative(c, s, n - 1);
      WorkIsNonNegative(c, s, n - 1);
    }
  }

  lemma {:induction false} WorkUpToDiffers(c: Config, s: State, s': State, i: nat, n: nat)
    requires n <= |s.ranks| == |s'.ranks| && i < |s.ranks|
    requires forall k :: 0 <= k < |s.ranks| && k != i ==> s'.ranks[k] == s.ranks[k]
    ensures WorkUpTo(c, s', n) - WorkUpTo(c, s, n)
         == if i < n then Work(c, i, s'.ranks[i]) - Work(c, i, s.ranks[i]) else 0
  {
    if n > 0 {
      WorkUpToDiffers(c, s, s', i, n - 1);
    }
  }

  lemma CopyKeepsStage(c: Config, i: nat, r: Rank, source: Rank, at: nat)
    requires r.transfer.Active? && at < c.size
    requires |r.bufA| == |r.bufB| == |source.bufA| == |source.bufB| == c.size
    ensures var t := DoCopy(r, source, at);
            && t.phase == r.phase && t.index == r.index
            && t.transfer == r.transfer.(copied := r.transfer.copied + {at})
  {
  }

  lemma CopyUsesWork(c: Config, i: nat, r: Rank, source: Rank, at: nat)
    requires 0 < i && RelayInv(c, i, r) && r.transfer.Active? && at < c.size && at !in r.transfer.copied
    requires |r.bufA| == |r.bufB| == |source.bufA| == |source.bufB| == c.size
    ensures Work(c, i, DoCopy(r, source, at)) < Work(c, i, r)
  {
    CopyKeepsStage(c, i, r, source, at);
    var t := DoCopy(r, source, at);
    assert StageWork(c, i, t) == StageWork(c, i, r) && Taken(c, t) == Taken(c, r);
    OneByteLess(c.size, r.transfer.copied, at);
  }

  lemma OneByteLess(size: nat, copied: set<nat>, at: nat)
    requires at < size && at !in copied
    ensures |Positions(size) - (copied + {at})| == |Positions(size) - copied| - 1
  {
    assert Positions(size) - (copied + {at}) == (Positions(size) - copied) - {at};
  }

  lemma SenderStepUsesWork(c: Config, s: State, e: Event)
    requires c.Valid() && Inv(c, s) && Enabled(c, s, e) && e.rank == 0
    ensures Work(c, 0, Apply(c, s, e).ranks[0]) < Work(c, 0, s.ranks[0])
  {
    assert RankOk(c, s, 0) && LinkOk(c, s, 0);
    if e.action.Write? {
      WriteRank(c, s.ranks[0]);
    }
  }

  lemma TakeMessageUsesWork(c: Config, i: nat, r: Rank, m: Message)
    requires 0 < i && RelayInv(c, i, r) && WaitsForMessage(r) && c.Valid()
    ensures Work(c, i, DoTakeMessage(r, m)) < Work(c, i, r)
  {
    assert Positions(c.size) - {} == Positions(c.size);
  }

  /** The remaining steps of a relay, each on the rank alone. */
  lemma OfferUsesWork(c: Config, i: nat, r: Rank)
    requires c.Valid() && 0 < i && RelayInv(c, i, r) && r.phase.Offering?
    ensures Work(c, i, DoOffer(c, i, r)) < Work(c, i, r)
  {
  }

  lemma LandUsesWork(c: Config, i: nat, r: Rank)
    requires c.Valid() && 0 < i && RelayInv(c, i, r) && r.transfer.Active?
    ensures Work(c, i, r.(transfer := Landed)) < Work(c, i, r)
  {
  }

  lemma SwapUsesWork(c: Config, i: nat, r: Rank)
    requires c.Valid() && 0 < i && RelayInv(c, i, r) && (r.phase.ReadFirst? || r.phase.AwaitRead?) && r.transfer.Landed?
    ensures Work(c, i, DoSwap(r)) < Work(c, i, r)
  {
  }

  lemma EmitUsesWork(c: Config, i: nat, r: Rank, hasNext: bool)
    requires c.Valid() && 0 < i && RelayInv(c, i, r) && r.phase.Yielding?
    ensures r.phase.emitted < |r.meta| ==> Work(c, i, DoEmit(r)) < Work(c, i, r)
    ensures r.phase.emitted == |r.meta| ==> Work(c, i, DoEndEmit(r, hasNext)) < Work(c, i, r)
  {
  }

  lemma TakeNoticeUsesWork(c: Config, i: nat, r: Rank)
    requires c.Valid() && 0 < i && RelayInv(c, i, r) && r.phase.AwaitAck?
    ensures Work(c, i, DoTakeNotice(r, r.key)) < Work(c, i, r)
  {
  }

  lemma RelayStepUsesWork(c: Config, s: State, e: Event)
    requires c.Valid() && Inv(c, s) && Enabled(c, s, e) && 0 < e.rank && !e.action.Copy?
    ensures Work(c, e.rank, Apply(c, s, e).ranks[e.rank]) < Work(c, e.rank, s.ranks[e.rank])
  {
    var i, r := e.rank, s.ranks[e.rank];
    assert RankOk(c, s, i);
    match e.action {
      case Offer => OfferUsesWork(c, i, r);
      case TakeMessage => TakeMessageUsesWork(c, i, r, s.links[i - 1].messages[0]);
      case Land => LandUsesWork(c, i, r);
      case Swap => SwapUsesWork(c, i, r);
      case Emit => EmitUsesWork(c, i, r, i < c.relays);
      case EndEmit => EmitUsesWork(c, i, r, i < c.relays);
      case TakeNotice =>
        assert LinkOk(c, s, i);
        TakeNoticeUsesWork(c, i, r);
      case _ =>
    }
  }

  lemma StepUsesWork(c: Config, s: State, e: Event)
    requires c.Valid() && Inv(c, s) && Enabled(c, s, e)
    ensures TotalWork(c, Apply(c, s, e)) < TotalWork(c, s)
  {
    ApplyKeepsShape(c, s, e);
    WorkUpToDiffers(c, s, Apply(c, s, e), e.rank, |s.ranks|);
    RankUsesWork(c, s, e);
  }

  lemma CopyStepUsesWork(c: Config, s: State, e: Event)
    requires c.Valid() && Inv(c, s) && Enabled(c, s, e) && 0 < e.rank && e.action.Copy?
    ensures Work(c, e.rank, Apply(c, s, e).ranks[e.rank]) < Work(c, e.rank, s.ranks[e.rank])
  {
    var r, source, at := s.ranks[e.rank], s.ranks[e.rank - 1], e.action.at;
    assert RankOk(c, s, e.rank);
    assert Apply(c, s, e).ranks[e.rank] == DoCopy(r, source, at) by {
      LinkBefore(c, s, e.rank);
    }
    CopyUsesWork(c, e.rank, r, source, at);
  }

  lemma RankUsesWork(c: Config, s: State, e: Event)
    requires c.Valid() && Inv(c, s) && Enabled(c, s, e)
    ensures Work(c, e.rank, Apply(c, s, e).ranks[e.rank]) < Work(c, e.rank, s.ranks[e.rank])
  {
    if e.rank == 0 {
      SenderStepUsesWork(c, s, e);
    } else if e.action.Copy? {
      CopyStepUsesWork(c, s, e);
    } else {
      RelayStepUsesWork(c, s, e);
    }
  }

  lemma {:induction false} RunsAreBounded(c: Config, s: State, events: seq<Event>)
    requires c.Valid() && Inv(c, s) && Run(c, s, events).Some?
    ensures |events| <= TotalWork(c, s)
    decreases |events|
  {
    TotalIsNonNegative(c, s, |s.ranks|);
    if events != [] {
      StepUsesWork(c, s, events[0]);
      StepKeepsInv(c, s, events[0]);
      RunsAreBounded(c, Apply(c, s, events[0]), events[1..]);
    }
  }
}
