/** The relay chain of checkpoint_engine/nixl_checkpoint_engine.py as a transition system: rank 0 sends,
    ranks 1 to n receive from their predecessor and pass on to their successor. Every rank owns two buffers.
    A publication is a message naming one of them; the successor then copies that buffer byte by byte, in any
    order and at any pace, and a notification goes back once the last byte has arrived. Between two awaits a
    rank runs undisturbed, and the steps of different ranks and of the copies interleave in every possible way. */
module NixlChain {
  import opened Arithmetic
  import opened Buffers
  import opened Wrappers
  import opened WeightChunks
  import opened WeightBuckets

  /** What the trainer has to send, bucket by bucket; the capacity of a buffer; the number of relays. */
  datatype Config = Config(buckets: seq<Bucket>, size: nat, relays: nat) {
    ghost predicate Valid() {
      && 1 <= relays && 1 <= |buckets|
      && forall b :: b in buckets ==> WellPlaced(b, size) && DistinctNames(b)
    }

    function Last(j: nat): bool {
      j + 1 == |buckets|
    }
  }

  /** remote_descs becomes the name of the published buffer, notify_key the count of publications before. */
  datatype Message = Message(key: nat, inB: bool, meta: seq<Placed>, isLast: bool)

  /** The two queues between neighbours: metadata downstream, read-complete notices upstream. */
  datatype Link = Link(messages: seq<Message>, notices: seq<nat>)

  datatype Transfer = NoTransfer | Active(fromB: bool, key: nat, copied: set<nat>) | Landed

  datatype Phase =
    // the trainer
    | Filling(written: nat) | AwaitPrevious | AwaitFinal
    // a relay
    | AwaitFirst | ReadFirst | AwaitNext | Yielding(emitted: nat) | AwaitAck | AwaitRead
    // both
    | Offering | Done | Failed

  /** One process. `inB` says which buffer is currently send_buf, `index` counts the buckets it has moved on from. */
  datatype Rank = Rank(bufA: seq<byte>, bufB: seq<byte>, inB: bool, phase: Phase, index: nat, key: nat,
                       meta: seq<Placed>, isLast: bool, nextMeta: seq<Placed>, nextIsLast: bool,
                       transfer: Transfer, yielded: seq<Chunk>)
  {
    function Buf(b: bool): seq<byte> {
      if b then bufB else bufA
    }

    function SendBuf(): seq<byte> {
      Buf(inB)
    }

    function WithBuf(b: bool, bytes: seq<byte>): Rank {
      if b then this.(bufB := bytes) else this.(bufA := bytes)
    }
  }

  datatype State = State(ranks: seq<Rank>, links: seq<Link>)

  datatype Action =
    | Write          // the trainer copies one chunk into send_buf
    | Seal           // the next chunk does not fit, or there is none
    | Offer          // publish send_buf
    | TakeMessage    // read_metadata and begin_read
    | Copy(at: nat)  // the transfer moves one byte
    | Land           // the transfer is done; the notice is sent
    | Swap           // wait_for_complete of the read returns; the buffers change roles
    | Emit           // yield one chunk out of send_buf
    | EndEmit        // all chunks of the bucket have been yielded
    | TakeNotice     // wait_for_complete of the publication returns

  datatype Event = Event(rank: nat, action: Action)

  // ----- the program of a rank -----

  predicate Shape(c: Config, s: State) {
    && |s.ranks| == c.relays + 1 && |s.links| == c.relays
    && forall i :: 0 <= i < |s.ranks| ==> |s.ranks[i].bufA| == c.size && |s.ranks[i].bufB| == c.size
  }

  function InitialRank(c: Config, phase: Phase): Rank {
    var zeros := seq(c.size, _ => 0 as byte);
    Rank(zeros, zeros, false, phase, 0, 0, [], false, [], false, NoTransfer, [])
  }

  function Init(c: Config): State {
    State(seq(c.relays + 1, i => InitialRank(c, if i == 0 then Filling(0) else AwaitFirst)),
          seq(c.relays, _ => Link([], [])))
  }

  predicate Enabled(c: Config, s: State, e: Event)
    requires Shape(c, s)
  {
    && e.rank <= c.relays
    && var i, r := e.rank, s.ranks[e.rank];
       match e.action
       case Write => i == 0 && r.phase.Filling? && r.index < |c.buckets| && r.phase.written < |c.buckets[r.index]|
       case Seal => i == 0 && r.phase.Filling? && r.index < |c.buckets| && r.phase.written == |c.buckets[r.index]|
       case Offer => r.phase.Offering? && (i == 0 ==> r.index < |c.buckets|)
       case TakeMessage => 0 < i && (r.phase.AwaitFirst? || r.phase.AwaitNext?) && s.links[i - 1].messages != []
       case Copy(at) => 0 < i && r.transfer.Active? && at < c.size && at !in r.transfer.copied
       case Land => 0 < i && r.transfer.Active? && forall at :: 0 <= at < c.size ==> at in r.transfer.copied
       case Swap => 0 < i && (r.phase.ReadFirst? || r.phase.AwaitRead?) && r.transfer.Landed?
       case Emit => r.phase.Yielding? && r.phase.emitted < |r.meta|
       case EndEmit => r.phase.Yielding? && r.phase.emitted == |r.meta|
       case TakeNotice => i < c.relays && s.links[i].notices != []
                          && (r.phase.AwaitPrevious? || r.phase.AwaitFinal? || r.phase.AwaitAck?)
  }

  /** buf[lo:hi], clamped the way a slice is. */
  function Slice(buf: seq<byte>, lo: nat, size: nat): seq<byte> {
    var from := Min(lo, |buf|);
    buf[from..Min(lo + size, |buf|)]
  }

  /** tensor_meta.name not in bucket_meta, which has the chunks written before. */
  predicate NewName(b: Bucket, n: nat)
    requires n < |b|
  {
    forall k :: 0 <= k < n ==> b[k].meta.name != b[n].meta.name
  }

  /** send_buf[offset : offset + n].copy_(chunk), after the assertions that it fits and that its name is new. */
  function DoWrite(c: Config, r: Rank): Rank
    requires r.phase.Filling? && r.index < |c.buckets| && r.phase.written < |c.buckets[r.index]|
  {
    var e, buf := c.buckets[r.index][r.phase.written], r.SendBuf();
    if e.offset + |e.bytes| > |buf| || !NewName(c.buckets[r.index], r.phase.written) then r.(phase := Failed)
    else r.WithBuf(r.inB, Overwrite(buf, e.offset, e.bytes)).(phase := Filling(r.phase.written + 1))
  }

  /** The message a rank publishes: the trainer describes its bucket, a relay passes the metadata on. */
  function Offered(c: Config, i: nat, r: Rank): Message
    requires i == 0 ==> r.index < |c.buckets|
  {
    if i == 0 then Message(r.index, r.inB, MetaOf(c.buckets[r.index]), c.Last(r.index))
    else Message(r.index, r.inB, r.meta, r.isLast)
  }

  /** After publishing, the trainer swaps and fills the other buffer; a relay waits for the next bucket. */
  function DoOffer(c: Config, i: nat, r: Rank): Rank {
    if i == 0 then
      if c.Last(r.index) then r.(phase := AwaitFinal, key := r.index)
      else r.(phase := Filling(0), key := r.index, inB := !r.inB, index := r.index + 1)
    else
      r.(phase := if r.isLast then Yielding(0) else AwaitNext, key := r.index)
  }

  function DoTakeMessage(r: Rank, m: Message): Rank {
    r.(phase := if r.phase.AwaitFirst? then ReadFirst else Yielding(0),
       transfer := Active(m.inB, m.key, {}), nextMeta := m.meta, nextIsLast := m.isLast)
  }

  function DoCopy(r: Rank, source: Rank, at: nat): Rank
    requires r.transfer.Active?
  {
    var from, to := source.Buf(r.transfer.fromB), r.Buf(!r.inB);
    if at < |from| && at < |to| then
      r.WithBuf(!r.inB, to[at := from[at]]).(transfer := r.transfer.(copied := r.transfer.copied + {at}))
    else r.(phase := Failed)
  }

  function DoSwap(r: Rank): Rank {
    r.(inB := !r.inB, meta := r.nextMeta, isLast := r.nextIsLast, transfer := NoTransfer, phase := Offering,
       index := if r.phase.ReadFirst? then 0 else r.index + 1)
  }

  function DoEmit(r: Rank): Rank
    requires r.phase.Yielding? && r.phase.emitted < |r.meta|
  {
    var p := r.meta[r.phase.emitted];
    r.(phase := Yielding(r.phase.emitted + 1),
       yielded := r.yielded + [Chunk(p.meta, Slice(r.SendBuf(), p.offset, p.meta.chunkSize))])
  }

  function DoEndEmit(r: Rank, hasNext: bool): Rank {
    r.(phase := if hasNext then AwaitAck else if r.isLast then Done else AwaitRead)
  }

  /** The assertion of wait_for_complete: the notice carries the key of the publication. */
  function DoTakeNotice(r: Rank, notice: nat): Rank {
    r.(phase := if notice != r.key then Failed
                else if r.phase.AwaitPrevious? then Offering
                else if r.phase.AwaitFinal? || r.isLast then Done
                else AwaitRead)
  }

  function WithRank(s: State, i: nat, r: Rank): State
    requires i < |s.ranks|
  {
    s.(ranks := s.ranks[i := r])
  }

  function WithLink(s: State, i: nat, l: Link): State
    requires i < |s.links|
  {
    s.(links := s.links[i := l])
  }

  function Apply(c: Config, s: State, e: Event): State
    requires Shape(c, s) && Enabled(c, s, e)
  {
    var i, r := e.rank, s.ranks[e.rank];
    match e.action
    case Write => WithRank(s, i, DoWrite(c, r))
    case Seal => WithRank(s, i, r.(phase := if r.index > 0 then AwaitPrevious else Offering))
    case Offer =>
      var s' := WithRank(s, i, DoOffer(c, i, r));
      if i < c.relays then
        WithLink(s', i, s.links[i].(messages := s.links[i].messages + [Offered(c, i, r)]))
      else s'
    case TakeMessage =>
      var l := s.links[i - 1];
      WithLink(WithRank(s, i, DoTakeMessage(r, l.messages[0])), i - 1, l.(messages := l.messages[1..]))
    case Copy(at) => WithRank(s, i, DoCopy(r, s.ranks[i - 1], at))
    case Land =>
      var l := s.links[i - 1];
      WithLink(WithRank(s, i, r.(transfer := Landed)), i - 1, l.(notices := l.notices + [r.transfer.key]))
    case Swap => WithRank(s, i, DoSwap(r))
    case Emit => WithRank(s, i, DoEmit(r))
    case EndEmit => WithRank(s, i, DoEndEmit(r, i < c.relays))
    case TakeNotice =>
      var l := s.links[i];
      WithLink(WithRank(s, i, DoTakeNotice(r, l.notices[0])), i, l.(notices := l.notices[1..]))
  }

  lemma ApplyKeepsShape(c: Config, s: State, e: Event)
    requires Shape(c, s) && Enabled(c, s, e)
    ensures Shape(c, Apply(c, s, e))
  {
  }

  /** The state a sequence of events leads to, if each of them is possible when its turn comes. */
  function Run(c: Config, s: State, events: seq<Event>): Option<State>
    requires Shape(c, s)
    decreases |events|
  {
    if events == [] then Some(s)
    else if !Enabled(c, s, events[0]) then None
    else
      ApplyKeepsShape(c, s, events[0]);
      Run(c, Apply(c, s, events[0]), events[1..])
  }

  lemma InitShape(c: Config)
    ensures Shape(c, Init(c))
  {
    var s := Init(c);
    forall i | 0 <= i < |s.ranks|
      ensures |s.ranks[i].bufA| == c.size && |s.ranks[i].bufB| == c.size
    {
      assert s.ranks[i] == InitialRank(c, if i == 0 then Filling(0) else AwaitFirst);
    }
  }

  /** s can occur in some execution. */
  ghost predicate Reachable(c: Config, s: State) {
    InitShape(c);
    exists events :: Run(c, Init(c), events) == Some(s)
  }

  predicate Final(s: State) {
    forall i :: 0 <= i < |s.ranks| ==> s.ranks[i].phase.Done?
  }
}
