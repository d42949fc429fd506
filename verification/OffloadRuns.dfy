/** Whole training runs of the offload handler, compared with a reference that keeps every saved tensor where it is. */
module OffloadRuns {
  import opened Wrappers
  import opened OffloadWindow
  import opened OffloadHandler
  import opened Sequences

  /** What autograd does with the handler. A stray tensor, or one the checker turns down, is its own tag. */
  datatype Handle = Tagged(tag: Tag) | Direct(tensor: Tensor)

  datatype Event = Save(tensor: Tensor, needOffload: bool) | Forward | Backward | Restore(handle: Handle)

  /** What the caller gets back. */
  datatype Reply = Nothing | Kept(handle: Handle) | Restored(tensor: Tensor)

  // ----- the reference -----

  /** saved: the tensors as they were pushed; group and count: the position in the model. */
  datatype Ref = Ref(backward: bool, group: nat, count: nat, saved: map<Tag, Tensor>)

  const START := Ref(false, 0, 0, map[])

  /** Tensors saved in one group and sharing a key have the same contents, and contents fill their shape. */
  ghost predicate Fits(r: Ref, t: Tensor) {
    && |t.data| == Numel(t.shape)
    && forall tag :: tag in r.saved && tag.group == r.group && r.saved[tag].key == t.key ==> r.saved[tag].data == t.data
  }

  /** What the training loop may do: save during the forward pass, commit each of the L groups once forward and once
      backward, and restore a group's tensors once the backward pass has reached it. */
  ghost predicate Legal(r: Ref, L: nat, e: Event) {
    match e
    case Save(t, need) => !r.backward && r.group < L && (need ==> Fits(r, t))
    case Forward => !r.backward && r.group < L
    case Backward => r.group > 0 && (r.backward || r.group == L)
    case Restore(Direct(_)) => true
    case Restore(Tagged(tag)) => r.backward && tag in r.saved && tag.group >= r.group
  }

  /** A pass is over when the first group has been committed backward and everything saved has been restored. */
  function Settle(r: Ref): Ref {
    if r.backward && r.group == 0 && r.saved == map[] then START else r
  }

  function RefStep(r: Ref, e: Event): (Ref, Reply)
    requires e.Backward? ==> r.group > 0
    requires e.Restore? && e.handle.Tagged? ==> e.handle.tag in r.saved
  {
    match e
    case Save(t, need) =>
      var tag := Tag(r.group, r.count);
      if need then (r.(saved := r.saved[tag := t], count := r.count + 1), Kept(Tagged(tag)))
      else (r, Kept(Direct(t)))
    case Forward => (r.(group := r.group + 1, count := 0), Nothing)
    case Backward => (Settle(r.(backward := true, group := r.group - 1)), Nothing)
    case Restore(Direct(t)) => (r, Restored(t))
    case Restore(Tagged(tag)) => (Settle(r.(saved := r.saved - {tag})), Restored(r.saved[tag]))
  }

  // ----- the handler -----

  ghost function Step(h: Handler, e: Event): Option<(Handler, Reply)> {
    match e
    case Save(t, need) =>
      if !need then Some((h, Kept(Direct(t))))
      else (match Push(h, t)
            case None => None
            case Some((h', tag)) => Some((h', Kept(Tagged(tag)))))
    case Forward =>
      (match CommitForward(h)
       case None => None
       case Some(h') => Some((h', Nothing)))
    case Backward =>
      (match CommitBackward(h)
       case None => None
       case Some(h') => Some((h', Nothing)))
    case Restore(Direct(t)) => Some((h, Restored(t)))
    case Restore(Tagged(tag)) =>
      match Pop(h, tag)
      case None => None
      case Some((h', t)) => Some((h', Restored(t)))
  }

  // ----- how the two are related -----

  /** The number of groups whose window has closed, as the handler counts it: never below one going backward. */
  ghost predicate Counted(windows: map<nat, int>, G: nat, group: nat, backward: bool, n: nat) {
    if backward && group == 0 then n == 0
    else
      && n <= G
      && (backward ==> n >= 1)
      && (forall k :: n <= k < G && k in windows ==> windows[k] >= group)
      && (forall k :: 0 <= k < n && k in windows ==> windows[k] < group || (backward && n == 1))
  }

  /** Group k has a copy on the CPU: going forward, if its transfer has begun; going backward, until its window. */
  predicate HasCopy(h: Handler, r: Ref, k: nat) {
    k in h.windows && if r.backward then h.windows[k] < r.group else r.group > 0 && k <= h.offloadedGroupCount
  }

  /** A saved tensor is on the device unchanged, or its contents are in its group's copy under its key. */
  ghost predicate Safe(h: Handler, r: Ref, tag: Tag)
    requires tag in h.state && tag in r.saved
  {
    match h.state[tag]
    case OnDevice(t) => t == r.saved[tag]
    case OnCpu(key, shape) =>
      && key == r.saved[tag].key && shape == r.saved[tag].shape
      && tag.group in h.mapping && key in h.mapping[tag.group] && h.mapping[tag.group][key] == r.saved[tag].data
  }

  /** Only transferred groups are off the device, and when there are more layers than groups all of their tensors are.
      (With as many groups as layers the transfer of every group but the first starts before its tensors exist.) */
  predicate Transferred(h: Handler, L: nat, tag: Tag) {
    tag.group in h.mapping && (tag.group == 0 || L > h.numOffloadGroup)
  }

  ghost predicate TensorOk(h: Handler, L: nat, r: Ref, tag: Tag)
    requires tag in h.state && tag in r.saved
  {
    Safe(h, r, tag) && (h.state[tag].OnCpu? <==> Transferred(h, L, tag))
  }

  ghost predicate TensorsSafe(h: Handler, L: nat, r: Ref) {
    && h.state.Keys == r.saved.Keys
    && forall tag {:trigger TensorOk(h, L, r, tag)} :: tag in r.saved ==> TensorOk(h, L, r, tag)
  }

  predicate BufferOk(h: Handler, r: Ref, tag: Tag) {
    && (tag in h.buffers <==> tag in r.saved && tag.group < h.numOffloadGroup)
    && (!r.backward && tag in h.buffers ==>
          h.buffers[tag] == if tag.group < h.offloadedGroupCount then None else Some(r.saved[tag]))
  }

  ghost predicate BuffersTrack(h: Handler, r: Ref) {
    forall tag {:trigger BufferOk(h, r, tag)} :: BufferOk(h, r, tag)
  }

  predicate TagOk(L: nat, r: Ref, tag: Tag)
    requires tag in r.saved
  {
    && |r.saved[tag].data| == Numel(r.saved[tag].shape) && tag.group < L
    && (!r.backward ==> tag.group < r.group || (tag.group == r.group && tag.index < r.count))
  }

  predicate Agree(saved: map<Tag, Tensor>, s: Tag, t: Tag)
    requires s in saved && t in saved
  {
    s.group == t.group && saved[s].key == saved[t].key ==> saved[s].data == saved[t].data
  }

  ghost predicate SavedWell(L: nat, r: Ref) {
    && r.group <= L
    && (r.backward || r.group == L ==> r.count == 0)
    && (forall tag {:trigger TagOk(L, r, tag)} :: tag in r.saved ==> TagOk(L, r, tag))
    && (forall s, t {:trigger Agree(r.saved, s, t)} :: s in r.saved && t in r.saved ==> Agree(r.saved, s, t))
  }

  ghost predicate Related(h: Handler, L: nat, r: Ref) {
    && GoodWindows(h.windows, L, h.numOffloadGroup)
    && h.currentGroup == r.group && h.tensorCount == r.count
    && Counted(h.windows, h.numOffloadGroup, r.group, r.backward, h.offloadedGroupCount)
    && (forall k: nat :: k in h.mapping <==> HasCopy(h, r, k))
    && SavedWell(L, r) && TensorsSafe(h, L, r) && BuffersTrack(h, r)
  }

  lemma InitialRelated(G: nat, L: nat)
    requires 1 <= G <= L
    ensures Related(Initial(G, L), L, START)
  {
    WindowMapIsGood(L, G);
  }

  /** Between passes the handler is exactly as it was created. */
  lemma RelatedToStartIsInitial(h: Handler, L: nat)
    requires Related(h, L, START) && 1 <= h.numOffloadGroup && h.windows == WindowMap(L, h.numOffloadGroup)
    ensures h == Initial(h.numOffloadGroup, L)
  {
    assert h.state == map[];
    forall tag
      ensures tag !in h.buffers
    {
      assert BufferOk(h, START, tag);
    }
    assert h.buffers == map[];
    assert h.mapping == map[];
    assert h.windows[0] >= 0;
  }

  // ----- saving and restoring -----

  /** While a group is being saved its transfer is not under way, unless it has nothing to transfer. */
  lemma NotYetTransferred(h: Handler, L: nat, r: Ref, tag: Tag)
    requires Related(h, L, r) && !r.backward && tag.group == r.group
    ensures !Transferred(h, L, tag)
    ensures tag.group < h.numOffloadGroup ==> tag.group >= h.offloadedGroupCount
  {
    var n := h.offloadedGroupCount;
    assert tag.group in h.windows ==> h.windows[tag.group] >= r.group;
    assert n > 0 ==> h.windows[n - 1] < r.group;
  }

  lemma SavedWellAfterSave(L: nat, r: Ref, t: Tensor)
    requires SavedWell(L, r) && Legal(r, L, Save(t, true))
    ensures Tag(r.group, r.count) !in r.saved
    ensures SavedWell(L, r.(saved := r.saved[Tag(r.group, r.count) := t], count := r.count + 1))
  {
    var tag := Tag(r.group, r.count);
    assert tag in r.saved ==> TagOk(L, r, tag);
    var r' := r.(saved := r.saved[tag := t], count := r.count + 1);
    forall x | x in r'.saved
      ensures TagOk(L, r', x)
    {
      assert x != tag ==> TagOk(L, r, x);
    }
    forall x, y | x in r'.saved && y in r'.saved
      ensures Agree(r'.saved, x, y)
    {
      assert x != tag && y != tag ==> Agree(r.saved, x, y);
    }
  }

  lemma SaveRelated(h: Handler, L: nat, r: Ref, t: Tensor)
    requires Related(h, L, r) && Legal(r, L, Save(t, true))
    ensures Push(h, t).Some? && Push(h, t).value.1 == Tag(r.group, r.count)
    ensures Related(Push(h, t).value.0, L, r.(saved := r.saved[Tag(r.group, r.count) := t], count := r.count + 1))
  {
    var tag := Tag(r.group, r.count);
    SavedWellAfterSave(L, r, t);
    NotYetTransferred(h, L, r, tag);
    var h', r' := Push(h, t).value.0, r.(saved := r.saved[tag := t], count := r.count + 1);
    forall x | x in r'.saved
      ensures TensorOk(h', L, r', x)
    {
      assert x != tag ==> TensorOk(h, L, r, x);
    }
    forall x
      ensures BufferOk(h', r', x)
    {
      assert BufferOk(h, r, x);
    }
  }

  lemma RestoreRelated(h: Handler, L: nat, r: Ref, tag: Tag)
    requires Related(h, L, r) && Legal(r, L, Restore(Tagged(tag)))
    ensures Pop(h, tag).Some? && Pop(h, tag).value.1 == r.saved[tag]
    ensures Related(Pop(h, tag).value.0, L, r.(saved := r.saved - {tag}))
  {
    assert TensorOk(h, L, r, tag);
    assert tag.group in h.windows ==> h.windows[tag.group] >= r.group;
    var h', r' := Pop(h, tag).value.0, r.(saved := r.saved - {tag});
    forall x | x in r'.saved
      ensures TensorOk(h', L, r', x) && TagOk(L, r', x)
    {
      assert TensorOk(h, L, r, x) && TagOk(L, r, x);
    }
    forall x, y | x in r'.saved && y in r'.saved
      ensures Agree(r'.saved, x, y)
    {
      assert Agree(r.saved, x, y);
    }
    forall x
      ensures BufferOk(h', r', x)
    {
      assert BufferOk(h, r, x);
    }
  }

  lemma SettleRelated(h: Handler, L: nat, r: Ref)
    requires Related(h, L, r)
    ensures Related(h, L, Settle(r))
  {
    if r.backward && r.group == 0 && r.saved == map[] {
      forall x
        ensures BufferOk(h, START, x)
      {
        assert BufferOk(h, r, x);
      }
    }
  }

  // ----- the forward commit -----

  /** Starting the transfer of a group whose tensors are all on the device keeps them safe. */
  lemma OffloadKeepsSafe(h: Handler, L: nat, r: Ref, g: nat, tag: Tag)
    requires SavedWell(L, r) && TensorsSafe(h, L, r) && g !in h.mapping && tag in r.saved
    ensures BulkOffload(h, g).Some? && BulkOffload(h, g).value.state.Keys == r.saved.Keys
    ensures Safe(BulkOffload(h, g).value, r, tag)
    ensures BulkOffload(h, g).value.state[tag].OnCpu? == (tag.group == g || h.state[tag].OnCpu?)
  {
    CanOffload(h, L, r, g);
    BackupIsBackup(h.state, g);
    assert TensorOk(h, L, r, tag);
    if tag.group == g {
      var key := r.saved[tag].key;
      var other :| other in h.state.Keys && IsKeyOf(h.state, g, other, key)
                   && Backup(h.state, g)[key] == h.state[other].tensor.data;
      assert TensorOk(h, L, r, other);
      assert Agree(r.saved, tag, other);
    }
  }

  lemma CanOffload(h: Handler, L: nat, r: Ref, g: nat)
    requires TensorsSafe(h, L, r) && g !in h.mapping
    ensures BulkOffload(h, g).Some?
  {
    forall tag | tag in h.state && tag.group == g
      ensures h.state[tag].OnDevice?
    {
      assert TensorOk(h, L, r, tag);
    }
  }

  /** Between the start of the first transfer and the window check. */
  ghost predicate Committing(h: Handler, L: nat, r: Ref) {
    && GoodWindows(h.windows, L, h.numOffloadGroup)
    && h.currentGroup == r.group && !r.backward && r.group < L
    && Counted(h.windows, h.numOffloadGroup, r.group, false, h.offloadedGroupCount)
    && (forall k: nat :: k in h.mapping <==> k in h.windows && k <= h.offloadedGroupCount)
    && SavedWell(L, r) && TensorsSafe(h, L, r) && BuffersTrack(h, r)
  }

  lemma KickOffCommits(h: Handler, L: nat, r: Ref)
    requires Related(h, L, r) && Legal(r, L, Forward)
    ensures KickOff(h).Some? && Committing(KickOff(h).value, L, r)
  {
    if r.group == 0 {
      assert h.windows[0] >= 0;
      CanOffload(h, L, r, 0);
      var h' := KickOff(h).value;
      forall tag | tag in r.saved
        ensures TensorOk(h', L, r, tag)
      {
        OffloadKeepsSafe(h, L, r, 0, tag);
        assert TensorOk(h, L, r, tag) && TagOk(L, r, tag);
      }
      forall x
        ensures BufferOk(h', r, x)
      {
        assert BufferOk(h, r, x);
      }
    }
  }

  lemma WindowIsOpen(h: Handler, L: nat, r: Ref)
    requires Committing(h, L, r)
    ensures h.offloadedGroupCount in h.windows
  {
    assert h.windows[h.numOffloadGroup - 1] == L - 1;
  }

  /** The next group has no copy yet. If it already has tensors there are more layers than groups. */
  lemma OffloadNext(h: Handler, L: nat, r: Ref, g: nat)
    requires SavedWell(L, r) && TensorsSafe(h, L, r) && !r.backward && g !in h.mapping
    requires g == 0 || L > h.numOffloadGroup || g > r.group
    ensures BulkOffload(h, g).Some? && TensorsSafe(BulkOffload(h, g).value, L, r)
  {
    CanOffload(h, L, r, g);
    var h' := BulkOffload(h, g).value;
    forall tag | tag in r.saved
      ensures TensorOk(h', L, r, tag)
    {
      assert TensorOk(h, L, r, tag) && TagOk(L, r, tag);
      OffloadKeepsSafe(h, L, r, g, tag);
    }
  }

  lemma AdvanceTensors(h: Handler, L: nat, r: Ref)
    requires Committing(h, L, r)
    ensures Advance(h).Some? && TensorsSafe(Advance(h).value, L, r)
  {
    var n := h.offloadedGroupCount;
    WindowIsOpen(h, L, r);
    if h.windows[n] == r.group && n + 1 < h.numOffloadGroup {
      var freed := h.(buffers := Freed(h.buffers, n));
      SafetyIsAboutTensors(h, freed, L, r, r);
      OffloadNext(freed, L, r, n + 1);
      SafetyIsAboutTensors(BulkOffload(freed, n + 1).value, Advance(h).value, L, r, r);
    } else {
      SafetyIsAboutTensors(h, Advance(h).value, L, r, r);
    }
  }

  lemma AdvanceBuffers(h: Handler, L: nat, r: Ref)
    requires Committing(h, L, r) && Advance(h).Some?
    ensures BuffersTrack(Advance(h).value, r.(group := r.group + 1, count := 0))
  {
    var h', r' := Advance(h).value, r.(group := r.group + 1, count := 0);
    forall x
      ensures BufferOk(h', r', x)
    {
      assert BufferOk(h, r, x);
    }
  }

  lemma AdvanceCounts(h: Handler, L: nat, r: Ref)
    requires Committing(h, L, r) && Advance(h).Some?
    ensures var h' := Advance(h).value;
            && h'.offloadedGroupCount ==
                 h.offloadedGroupCount + (if h.windows[h.offloadedGroupCount] == r.group then 1 else 0)
            && (forall k: nat :: k in h'.mapping <==> k in h.windows && k <= h'.offloadedGroupCount)
            && h'.windows == h.windows && h'.numOffloadGroup == h.numOffloadGroup
  {
  }

  lemma AdvanceCounted(windows: map<nat, int>, L: nat, G: nat, group: nat, n: nat)
    requires GoodWindows(windows, L, G) && Counted(windows, G, group, false, n) && n in windows
    ensures Counted(windows, G, group + 1, false, if windows[n] == group then n + 1 else n)
  {
    forall k: nat | n < k < G
      ensures windows[k] > windows[n]
    {
      assert DueBefore(windows, n, k);
    }
    forall k: nat | k < n
      ensures windows[k] < windows[n]
    {
      assert DueBefore(windows, k, n);
    }
  }

  /** Safety does not depend on the position in the model. */
  lemma SafetyIsAboutTensors(h: Handler, h': Handler, L: nat, r: Ref, r': Ref)
    requires TensorsSafe(h, L, r) && r'.saved == r.saved
    requires h'.state == h.state && h'.mapping == h.mapping && h'.numOffloadGroup == h.numOffloadGroup
    ensures TensorsSafe(h', L, r')
  {
    forall tag | tag in r'.saved
      ensures TensorOk(h', L, r', tag)
    {
      assert TensorOk(h, L, r, tag);
    }
  }

  lemma SavedWellAfterMove(L: nat, r: Ref, r': Ref)
    requires SavedWell(L, r) && r'.saved == r.saved && r'.group <= L && r'.count == 0
    requires r'.backward || (!r.backward && r'.group == r.group + 1)
    ensures SavedWell(L, r')
  {
    forall x | x in r'.saved
      ensures TagOk(L, r', x)
    {
      assert TagOk(L, r, x);
    }
    forall x, y | x in r'.saved && y in r'.saved
      ensures Agree(r'.saved, x, y)
    {
      assert Agree(r.saved, x, y);
    }
  }

  lemma CommitForwardIs(h: Handler)
    requires KickOff(h).Some? && Advance(KickOff(h).value).Some?
    ensures CommitForward(h) ==
            Some(Advance(KickOff(h).value).value.(currentGroup := h.currentGroup + 1, tensorCount := 0))
    ensures CommitForward(h).value.windows == h.windows && CommitForward(h).value.numOffloadGroup == h.numOffloadGroup
  {
    AdvanceKeepsWindows(KickOff(h).value);
  }

  lemma AdvanceKeepsWindows(h: Handler)
    requires Advance(h).Some?
    ensures Advance(h).value.windows == h.windows && Advance(h).value.numOffloadGroup == h.numOffloadGroup
  {
  }

  /** The window check is done and the commit only has to move on to the next group. */
  ghost predicate Ending(h: Handler, L: nat, r: Ref) {
    && GoodWindows(h.windows, L, h.numOffloadGroup) && !r.backward && r.group < L
    && Counted(h.windows, h.numOffloadGroup, r.group + 1, false, h.offloadedGroupCount)
    && (forall k: nat :: k in h.mapping <==> k in h.windows && k <= h.offloadedGroupCount)
    && SavedWell(L, r) && TensorsSafe(h, L, r) && BuffersTrack(h, r.(group := r.group + 1, count := 0))
  }

  lemma EndOfGroup(h: Handler, L: nat, r: Ref)
    requires Ending(h, L, r)
    ensures Related(h.(currentGroup := r.group + 1, tensorCount := 0), L, r.(group := r.group + 1, count := 0))
  {
    var h', r' := h.(currentGroup := r.group + 1, tensorCount := 0), r.(group := r.group + 1, count := 0);
    SafetyIsAboutTensors(h, h', L, r, r');
    SavedWellAfterMove(L, r, r');
    forall x
      ensures BufferOk(h', r', x)
    {
      assert BufferOk(h, r', x);
    }
  }

  lemma AdvanceEnds(h: Handler, L: nat, r: Ref)
    requires Committing(h, L, r)
    ensures Advance(h).Some? && Ending(Advance(h).value, L, r)
    ensures Advance(h).value.windows == h.windows && Advance(h).value.numOffloadGroup == h.numOffloadGroup
  {
    AdvanceTensors(h, L, r);
    AdvanceBuffers(h, L, r);
    WindowIsOpen(h, L, r);
    AdvanceCounts(h, L, r);
    AdvanceCounted(h.windows, L, h.numOffloadGroup, r.group, h.offloadedGroupCount);
  }

  lemma ForwardRelated(h: Handler, L: nat, r: Ref)
    requires Related(h, L, r) && Legal(r, L, Forward)
    ensures CommitForward(h).Some?
    ensures Related(CommitForward(h).value, L, r.(group := r.group + 1, count := 0))
    ensures CommitForward(h).value.windows == h.windows && CommitForward(h).value.numOffloadGroup == h.numOffloadGroup
  {
    KickOffCommits(h, L, r);
    AdvanceEnds(KickOff(h).value, L, r);
    CommitForwardIs(h);
    EndOfGroup(Advance(KickOff(h).value).value, L, r);
  }

  // ----- the backward commit -----

  /** Bringing a group back makes its tensors what they were. */
  lemma ReloadKeepsSafe(h: Handler, L: nat, r: Ref, g: nat)
    requires SavedWell(L, r) && TensorsSafe(h, L, r)
    requires g < h.numOffloadGroup && g in h.mapping
    ensures BulkReload(h, g).Some?
    ensures TensorsSafe(BulkReload(h, g).value, L, r)
  {
    forall tag | tag in h.state && tag.group == g && h.state[tag].OnCpu?
      ensures h.state[tag].key in h.mapping[g] && |h.mapping[g][h.state[tag].key]| == Numel(h.state[tag].shape)
    {
      assert TensorOk(h, L, r, tag) && TagOk(L, r, tag);
    }
    var h' := BulkReload(h, g).value;
    forall tag | tag in r.saved
      ensures TensorOk(h', L, r, tag)
    {
      assert TensorOk(h, L, r, tag);
    }
  }

  lemma BackwardCounts(windows: map<nat, int>, L: nat, G: nat, group: nat, backward: bool, n: nat)
    requires GoodWindows(windows, L, G) && Counted(windows, G, group, backward, n)
    requires 0 < group <= L && (backward || group == L)
    ensures 1 <= n <= G
    ensures Counted(windows, G, group - 1, true,
              if group == 1 then 0 else if windows[n - 1] == group - 1 && n > 1 then n - 1 else n)
    ensures forall k: nat :: k in windows && k != n - 1 ==> windows[k] != group - 1
  {
    assert windows[G - 1] == L - 1;
    if n > 0 {
      forall k: nat | k < n - 1
        ensures windows[k] < windows[n - 1]
      {
        assert DueBefore(windows, k, n - 1);
      }
      forall k: nat | n - 1 < k < G
        ensures windows[k] > windows[n - 1]
      {
        assert DueBefore(windows, n - 1, k);
      }
    }
  }

  lemma CommitBackwardIs(h: Handler)
    requires h.currentGroup > 0 && h.offloadedGroupCount > 0 && h.offloadedGroupCount - 1 in h.windows
    ensures var n, h1 := h.offloadedGroupCount, h.(currentGroup := h.currentGroup - 1);
            var h2 := if h.windows[n - 1] == h.currentGroup - 1 then BulkReload(h1, n - 1) else Some(h1);
            && CommitBackward(h).Some? == h2.Some?
            && (h2.Some? ==>
                  && CommitBackward(h).value.state == h2.value.state
                  && CommitBackward(h).value.mapping == h2.value.mapping
                  && CommitBackward(h).value.numOffloadGroup == h2.value.numOffloadGroup)
  {
  }

  lemma BackwardTensors(h: Handler, L: nat, r: Ref)
    requires Related(h, L, r) && Legal(r, L, Backward)
    ensures CommitBackward(h).Some? && TensorsSafe(CommitBackward(h).value, L, r)
  {
    var n, h1 := h.offloadedGroupCount, h.(currentGroup := h.currentGroup - 1);
    BackwardCounts(h.windows, L, h.numOffloadGroup, r.group, r.backward, n);
    SafetyIsAboutTensors(h, h1, L, r, r);
    if h.windows[n - 1] == r.group - 1 {
      assert HasCopy(h, r, n - 1);
      ReloadKeepsSafe(h1, L, r, n - 1);
      h1 := BulkReload(h1, n - 1).value;
    }
    CommitBackwardIs(h);
    SafetyIsAboutTensors(h1, CommitBackward(h).value, L, r, r);
  }

  lemma BackwardRest(h: Handler, L: nat, r: Ref)
    requires Related(h, L, r) && Legal(r, L, Backward) && CommitBackward(h).Some?
    ensures var h', n := CommitBackward(h).value, h.offloadedGroupCount;
            && 1 <= n <= h.numOffloadGroup
            && h'.offloadedGroupCount == (if r.group == 1 then 0
                                          else if h.windows[n - 1] == r.group - 1 && n > 1 then n - 1 else n)
            && h'.mapping.Keys == h.mapping.Keys - (if h.windows[n - 1] == r.group - 1 then {n - 1} else {})
            && h'.windows == h.windows && h'.numOffloadGroup == h.numOffloadGroup
            && h'.currentGroup == r.group - 1 && h'.tensorCount == r.count && h'.buffers == h.buffers
  {
    BackwardCounts(h.windows, L, h.numOffloadGroup, r.group, r.backward, h.offloadedGroupCount);
  }

  lemma CopiesAfterBackward(h: Handler, L: nat, r: Ref, k: nat)
    requires Related(h, L, r) && Legal(r, L, Backward)
    ensures var n := h.offloadedGroupCount;
            && 1 <= n <= h.numOffloadGroup
            && (k in h.mapping && !(k == n - 1 && h.windows[n - 1] == r.group - 1)
                <==> k in h.windows && h.windows[k] < r.group - 1)
  {
    BackwardCounts(h.windows, L, h.numOffloadGroup, r.group, r.backward, h.offloadedGroupCount);
    assert k in h.mapping <==> HasCopy(h, r, k);
  }

  lemma BackwardBuffers(h: Handler, L: nat, r: Ref)
    requires Related(h, L, r) && Legal(r, L, Backward) && CommitBackward(h).Some?
    ensures BuffersTrack(CommitBackward(h).value, r.(backward := true, group := r.group - 1))
  {
    BackwardRest(h, L, r);
    var h', r' := CommitBackward(h).value, r.(backward := true, group := r.group - 1);
    forall x
      ensures BufferOk(h', r', x)
    {
      assert BufferOk(h, r, x);
    }
  }

  lemma BackwardCopies(h: Handler, L: nat, r: Ref)
    requires Related(h, L, r) && Legal(r, L, Backward) && CommitBackward(h).Some?
    ensures var h', r' := CommitBackward(h).value, r.(backward := true, group := r.group - 1);
            forall k: nat :: k in h'.mapping <==> HasCopy(h', r', k)
  {
    BackwardRest(h, L, r);
    var h', r' := CommitBackward(h).value, r.(backward := true, group := r.group - 1);
    forall k: nat
      ensures k in h'.mapping <==> HasCopy(h', r', k)
    {
      CopiesAfterBackward(h, L, r, k);
      assert k in h'.mapping <==> k in h'.mapping.Keys;
    }
  }

  lemma BackwardRelated(h: Handler, L: nat, r: Ref)
    requires Related(h, L, r) && Legal(r, L, Backward)
    ensures CommitBackward(h).Some?
    ensures Related(CommitBackward(h).value, L, r.(backward := true, group := r.group - 1))
  {
    BackwardTensors(h, L, r);
    BackwardBuffers(h, L, r);
    BackwardCopies(h, L, r);
    BackwardRest(h, L, r);
    BackwardCounts(h.windows, L, h.numOffloadGroup, r.group, r.backward, h.offloadedGroupCount);
    var h', r' := CommitBackward(h).value, r.(backward := true, group := r.group - 1);
    SafetyIsAboutTensors(h', h', L, r, r');
    SavedWellAfterMove(L, r, r');
  }

  // ----- whole runs -----

  ghost function Run(h: Handler, events: seq<Event>): Option<(Handler, seq<Reply>)>
    decreases |events|
  {
    if events == [] then Some((h, []))
    else match Step(h, events[0])
         case None => None
         case Some((h', reply)) =>
           match Run(h', events[1..])
           case None => None
           case Some((h'', replies)) => Some((h'', [reply] + replies))
  }

  ghost predicate LegalRun(r: Ref, L: nat, events: seq<Event>)
    decreases |events|
  {
    events == [] || (Legal(r, L, events[0]) && LegalRun(RefStep(r, events[0]).0, L, events[1..]))
  }

  ghost function RefRun(r: Ref, L: nat, events: seq<Event>): (Ref, seq<Reply>)
    requires LegalRun(r, L, events)
    decreases |events|
  {
    if events == [] then (r, [])
    else
      var (r', reply) := RefStep(r, events[0]);
      var (r'', replies) := RefRun(r', L, events[1..]);
      (r'', [reply] + replies)
  }

  ghost predicate Refines(h: Handler, L: nat, r: Ref, e: Event)
    requires Legal(r, L, e)
  {
    && Step(h, e).Some? && Step(h, e).value.1 == RefStep(r, e).1
    && Related(Step(h, e).value.0, L, RefStep(r, e).0)
    && Step(h, e).value.0.windows == h.windows && Step(h, e).value.0.numOffloadGroup == h.numOffloadGroup
  }

  lemma ForwardRefines(h: Handler, L: nat, r: Ref)
    requires Related(h, L, r) && Legal(r, L, Forward)
    ensures Refines(h, L, r, Forward)
  {
    ForwardRelated(h, L, r);
  }

  lemma BackwardRefines(h: Handler, L: nat, r: Ref)
    requires Related(h, L, r) && Legal(r, L, Backward)
    ensures Refines(h, L, r, Backward)
  {
    BackwardRelated(h, L, r);
    BackwardRest(h, L, r);
    SettleRelated(CommitBackward(h).value, L, r.(backward := true, group := r.group - 1));
  }

  lemma SaveRefines(h: Handler, L: nat, r: Ref, t: Tensor, need: bool)
    requires Related(h, L, r) && Legal(r, L, Save(t, need))
    ensures Refines(h, L, r, Save(t, need))
  {
    if need {
      SaveRelated(h, L, r, t);
    }
  }

  lemma RestoreRefines(h: Handler, L: nat, r: Ref, tag: Tag)
    requires Related(h, L, r) && Legal(r, L, Restore(Tagged(tag)))
    ensures Refines(h, L, r, Restore(Tagged(tag)))
  {
    RestoreRelated(h, L, r, tag);
    SettleRelated(Pop(h, tag).value.0, L, r.(saved := r.saved - {tag}));
  }

  lemma StepRefines(h: Handler, L: nat, r: Ref, e: Event)
    requires Related(h, L, r) && Legal(r, L, e)
    ensures Refines(h, L, r, e)
  {
    match e
    case Save(t, need) => SaveRefines(h, L, r, t, need);
    case Forward => ForwardRefines(h, L, r);
    case Backward => BackwardRefines(h, L, r);
    case Restore(Direct(_)) =>
    case Restore(Tagged(tag)) => RestoreRefines(h, L, r, tag);
  }

  lemma {:induction false} RunRefines(h: Handler, L: nat, r: Ref, events: seq<Event>)
    requires Related(h, L, r) && LegalRun(r, L, events)
    ensures Run(h, events).Some? && Run(h, events).value.1 == RefRun(r, L, events).1
    ensures Related(Run(h, events).value.0, L, RefRun(r, L, events).0)
    ensures Run(h, events).value.0.windows == h.windows && Run(h, events).value.0.numOffloadGroup == h.numOffloadGroup
    decreases |events|
  {
    if events != [] {
      StepRefines(h, L, r, events[0]);
      RunRefines(Step(h, events[0]).value.0, L, RefStep(r, events[0]).0, events[1..]);
    }
  }

  /** Any number of iterations, any number of tensors: no assertion or lookup fails, every restore answers with the
      tensor that was saved, and whenever a pass is complete the handler is back in its initial state. */
  lemma HandlerRefinesReference(G: nat, L: nat, events: seq<Event>)
    requires 1 <= G <= L && LegalRun(START, L, events)
    ensures Run(Initial(G, L), events).Some?
    ensures Run(Initial(G, L), events).value.1 == RefRun(START, L, events).1
    ensures RefRun(START, L, events).0 == START ==> Run(Initial(G, L), events).value.0 == Initial(G, L)
  {
    InitialRelated(G, L);
    RunRefines(Initial(G, L), L, START, events);
    if RefRun(START, L, events).0 == START {
      RelatedToStartIsInitial(Run(Initial(G, L), events).value.0, L);
    }
  }

  // ----- the replies of a run -----

  lemma {:induction false} OneReplyEach(r: Ref, L: nat, events: seq<Event>)
    requires LegalRun(r, L, events)
    ensures |RefRun(r, L, events).1| == |events|
    decreases |events|
  {
    if events != [] {
      OneReplyEach(RefStep(r, events[0]).0, L, events[1..]);
    }
  }

  /** The first j events do not hand out the tag. */
  ghost predicate NotKept(r: Ref, L: nat, events: seq<Event>, tag: Tag, j: nat)
    requires LegalRun(r, L, events)
  {
    forall k :: 0 <= k < j && k < |RefRun(r, L, events).1| ==> RefRun(r, L, events).1[k] != Kept(Tagged(tag))
  }

  lemma {:induction false} RunTail(r: Ref, L: nat, events: seq<Event>, tag: Tag, j: nat)
    requires LegalRun(r, L, events) && 0 < j < |events| && NotKept(r, L, events, tag, j)
    ensures var next := RefStep(r, events[0]).0;
            && LegalRun(next, L, events[1..]) && NotKept(next, L, events[1..], tag, j - 1)
            && |RefRun(r, L, events).1| == |RefRun(next, L, events[1..]).1| + 1 == |events|
            && RefRun(r, L, events).1[j] == RefRun(next, L, events[1..]).1[j - 1]
            && RefStep(r, events[0]).1 != Kept(Tagged(tag))
  {
    var next := RefStep(r, events[0]).0;
    OneReplyEach(next, L, events[1..]);
    var replies, rest := RefRun(r, L, events).1, RefRun(next, L, events[1..]).1;
    assert replies == [RefStep(r, events[0]).1] + rest;
    assert replies[0] != Kept(Tagged(tag));
    forall k | 0 <= k < j - 1 && k < |rest|
      ensures rest[k] != Kept(Tagged(tag))
    {
      assert replies[k + 1] == rest[k];
    }
  }

  /** A tag that is not handed out again cannot be restored. */
  lemma {:induction false} NotRestored(r: Ref, L: nat, events: seq<Event>, tag: Tag, j: nat)
    requires LegalRun(r, L, events) && j < |events| && NotKept(r, L, events, tag, j) && tag !in r.saved
    ensures events[j] != Restore(Tagged(tag))
    decreases |events|
  {
    if j > 0 {
      RunTail(r, L, events, tag, j);
      NotRestored(RefStep(r, events[0]).0, L, events[1..], tag, j - 1);
    }
  }

  /** What is kept under a tag answers its restore. */
  lemma {:induction false} KeptAnswers(r: Ref, L: nat, events: seq<Event>, tag: Tag, j: nat)
    requires LegalRun(r, L, events) && j < |events| && NotKept(r, L, events, tag, j)
    requires tag in r.saved && events[j] == Restore(Tagged(tag))
    ensures |RefRun(r, L, events).1| == |events| && RefRun(r, L, events).1[j] == Restored(r.saved[tag])
    decreases |events|
  {
    OneReplyEach(r, L, events);
    if j > 0 {
      var next := RefStep(r, events[0]).0;
      RunTail(r, L, events, tag, j);
      if tag in next.saved {
        KeptAnswers(next, L, events[1..], tag, j - 1);
      } else {
        NotRestored(next, L, events[1..], tag, j - 1);
      }
    }
  }

  lemma {:induction false} DirectAnswers(r: Ref, L: nat, events: seq<Event>, t: Tensor, j: nat)
    requires LegalRun(r, L, events) && j < |events| && events[j] == Restore(Direct(t))
    ensures |RefRun(r, L, events).1| == |events| && RefRun(r, L, events).1[j] == Restored(t)
    decreases |events|
  {
    OneReplyEach(r, L, events);
    if j > 0 {
      DirectAnswers(RefStep(r, events[0]).0, L, events[1..], t, j - 1);
    }
  }

  lemma {:induction false} SavedAnswers(r: Ref, L: nat, events: seq<Event>, i: nat, j: nat)
    requires LegalRun(r, L, events) && i < j < |events| == |RefRun(r, L, events).1|
    requires events[i].Save? && events[j].Restore? && RefRun(r, L, events).1[i] == Kept(events[j].handle)
    requires forall k :: i < k < j ==> RefRun(r, L, events).1[k] != Kept(events[j].handle)
    ensures RefRun(r, L, events).1[j] == Restored(events[i].tensor)
    decreases |events|
  {
    var next, rest := RefStep(r, events[0]).0, events[1..];
    var replies, later := RefRun(r, L, events).1, RefRun(next, L, events[1..]).1;
    OneReplyEach(next, L, rest);
    assert replies == [RefStep(r, events[0]).1] + later;
    if i > 0 {
      assert forall k :: i - 1 < k < j - 1 ==> later[k] == replies[k + 1];
      SavedAnswers(next, L, rest, i - 1, j - 1);
    } else if events[j].handle.Tagged? {
      var tag := events[j].handle.tag;
      assert forall k :: 0 <= k < j - 1 ==> later[k] == replies[k + 1];
      KeptAnswers(next, L, rest, tag, j - 1);
    } else {
      DirectAnswers(next, L, rest, events[0].tensor, j - 1);
    }
  }

  /** A restore answers with the tensor of the save that handed out its tag, or the tensor, last. */
  lemma RestoresAnswer(G: nat, L: nat, events: seq<Event>, i: nat, j: nat)
    requires 1 <= G <= L && LegalRun(START, L, events) && i < j < |events| && Run(Initial(G, L), events).Some?
    requires var replies := Run(Initial(G, L), events).value.1;
             && |replies| == |events| && events[i].Save? && events[j].Restore?
             && replies[i] == Kept(events[j].handle) && forall k :: i < k < j ==> replies[k] != Kept(events[j].handle)
    ensures Run(Initial(G, L), events).value.1[j] == Restored(events[i].tensor)
  {
    HandlerRefinesReference(G, L, events);
    SavedAnswers(START, L, events, i, j);
  }

  /** What the offloading methods ask of their callers holds throughout every run. */
  lemma KeysAgreeInRuns(G: nat, L: nat, events: seq<Event>, g: nat)
    requires 1 <= G <= L && LegalRun(START, L, events) && Run(Initial(G, L), events).Some?
    ensures KeysAgree(Run(Initial(G, L), events).value.0.state, g)
  {
    InitialRelated(G, L);
    RunRefines(Initial(G, L), L, START, events);
    var h, r := Run(Initial(G, L), events).value.0, RefRun(START, L, events).0;
    forall s, t | s in h.state && t in h.state && s.group == g && t.group == g
      && h.state[s].OnDevice? && h.state[t].OnDevice? && h.state[s].tensor.key == h.state[t].tensor.key
      ensures h.state[s].tensor.data == h.state[t].tensor.data
    {
      assert TensorOk(h, L, r, s) && TensorOk(h, L, r, t) && Agree(r.saved, s, t);
    }
  }

  // ----- device memory -----

  /** The handler keeps a device reference to some tensor of group k. */
  ghost predicate HoldsGroup(h: Handler, k: nat) {
    || (exists tag :: tag in h.state && tag.group == k && h.state[tag].OnDevice?)
    || (exists tag :: tag in h.buffers && tag.group == k && h.buffers[tag].Some?)
  }

  lemma HeldWhenRelated(h: Handler, L: nat, r: Ref, k: nat)
    requires Related(h, L, r) && !r.backward && L > h.numOffloadGroup && HoldsGroup(h, k)
    ensures k <= r.group && (k in h.windows ==> h.windows[k] >= r.group)
  {
    var n := h.offloadedGroupCount;
    if tag :| tag in h.state && tag.group == k && h.state[tag].OnDevice? {
      assert TensorOk(h, L, r, tag) && TagOk(L, r, tag);
    } else {
      var tag :| tag in h.buffers && tag.group == k && h.buffers[tag].Some?;
      assert BufferOk(h, r, tag) && TagOk(L, r, tag);
    }
  }

  lemma RunIsRelated(G: nat, L: nat, events: seq<Event>)
    requires 1 <= G <= L && LegalRun(START, L, events) && Run(Initial(G, L), events).Some?
    ensures var h := Run(Initial(G, L), events).value.0;
            Related(h, L, RefRun(START, L, events).0) && h.windows == WindowMap(L, G) && h.numOffloadGroup == G
  {
    InitialRelated(G, L);
    RunRefines(Initial(G, L), L, START, events);
  }

  /** In every run, in the forward pass, a group is on the device from its first tensor until its window has closed. */
  lemma HeldGroups(G: nat, L: nat, events: seq<Event>, k: nat)
    requires 1 <= G < L && LegalRun(START, L, events) && Run(Initial(G, L), events).Some?
    requires !RefRun(START, L, events).0.backward && HoldsGroup(Run(Initial(G, L), events).value.0, k)
    ensures var group := RefRun(START, L, events).0.group; k <= group && (k < G ==> Window(L, G, k) >= group)
  {
    RunIsRelated(G, L, events);
    HeldWhenRelated(Run(Initial(G, L), events).value.0, L, RefRun(START, L, events).0, k);
  }

  /** With the wiring of enable_activation_offloading, one group less than there are layers, at most the group
      being computed and the one before it are held. */
  lemma AtMostTwoGroupsHeld(G: nat, events: seq<Event>, k: nat)
    requires 1 <= G && LegalRun(START, G + 1, events) && Run(Initial(G, G + 1), events).Some?
    requires !RefRun(START, G + 1, events).0.backward
    requires HoldsGroup(Run(Initial(G, G + 1), events).value.0, k)
    ensures var group := RefRun(START, G + 1, events).0.group; group - 1 <= k <= group
  {
    RunIsRelated(G, G + 1, events);
    HeldWhenRelated(Run(Initial(G, G + 1), events).value.0, G + 1, RefRun(START, G + 1, events).0, k);
  }

  /** With fewer groups than layers, in every run: the tensors of group k leave the device when the window of the group
      before it has closed (those of the first group with the first commit), and are back when the backward pass has
      reached their own window; those of the groups that are not offloaded stay. */
  lemma WhereTensorsAre(G: nat, L: nat, events: seq<Event>, tag: Tag)
    requires 1 <= G < L && LegalRun(START, L, events) && Run(Initial(G, L), events).Some?
    requires tag in Run(Initial(G, L), events).value.0.state
    ensures var r := RefRun(START, L, events).0;
            Run(Initial(G, L), events).value.0.state[tag].OnCpu? <==>
              && tag.group < G
              && if r.backward then Window(L, G, tag.group) < r.group
                 else r.group > 0 && (tag.group == 0 || Window(L, G, tag.group - 1) < r.group)
  {
    var h, r := Run(Initial(G, L), events).value.0, RefRun(START, L, events).0;
    RunIsRelated(G, L, events);
    assert TensorOk(h, L, r, tag);
    assert tag.group in h.mapping <==> HasCopy(h, r, tag.group);
    if 0 < tag.group < G && !r.backward {
      assert h.windows[tag.group - 1] == Window(L, G, tag.group - 1);
    }
  }

  /** With as many groups as layers, in no run anything but the first group ever leaves the device: the transfer of
      every other group is started one layer before that group has any tensors. */
  lemma OnlyFirstGroupMovesWhenEqual(L: nat, events: seq<Event>, tag: Tag)
    requires 1 <= L && LegalRun(START, L, events) && Run(Initial(L, L), events).Some?
    requires tag in Run(Initial(L, L), events).value.0.state && tag.group > 0
    ensures Run(Initial(L, L), events).value.0.state[tag].OnDevice?
  {
    RunIsRelated(L, L, events);
    assert TensorOk(Run(Initial(L, L), events).value.0, L, RefRun(START, L, events).0, tag);
  }
}
