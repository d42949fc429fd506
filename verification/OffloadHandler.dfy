/** AsyncDoubleBufferGroupOffloadHandler of utils/activation_offload.py: activations saved in the forward pass are
    moved to the CPU group by group, and brought back in time for the backward pass. */
module OffloadHandler {
  import opened Wrappers
  import opened OffloadWindow
  import opened Sequences

  type Scalar = int

  /** A tensor seen through its unique key (a number for the pair of address and dtype), its shape and its flat
      contents. */
  datatype Tensor = Tensor(key: nat, shape: seq<nat>, data: seq<Scalar>)

  datatype Tag = Tag(group: nat, index: nat)

  /** What tensor_tag_to_state holds: the tensor, or after the transfer its key and shape. */
  datatype Saved = OnDevice(tensor: Tensor) | OnCpu(key: nat, shape: seq<nat>)

  /** The handler's fields. */
  datatype Handler = Handler(
    numOffloadGroup: nat, windows: map<nat, int>,
    currentGroup: nat, tensorCount: nat,
    state: map<Tag, Saved>, buffers: map<Tag, Option<Tensor>>,
    offloadedGroupCount: nat, mapping: map<nat, map<nat, seq<Scalar>>>)

  function Initial(G: nat, L: nat): Handler
    requires 0 < G
  {
    Handler(G, WindowMap(L, G), 0, 0, map[], map[], 0, map[])
  }

  // ----- the operations as functions; None where an assertion, a lookup or a view of the source fails -----

  function Push(h: Handler, t: Tensor): Option<(Handler, Tag)> {
    var tag := Tag(h.currentGroup, h.tensorCount);
    if tag in h.state then None
    else Some((h.(tensorCount := h.tensorCount + 1, state := h.state[tag := OnDevice(t)],
                  buffers := if h.currentGroup < h.numOffloadGroup then h.buffers[tag := Some(t)] else h.buffers), tag))
  }

  predicate GroupOnDevice(state: map<Tag, Saved>, g: nat) {
    forall tag :: tag in state && tag.group == g ==> state[tag].OnDevice?
  }

  predicate IsKeyOf(state: map<Tag, Saved>, g: nat, tag: Tag, key: nat) {
    tag in state && tag.group == g && state[tag].OnDevice? && state[tag].tensor.key == key
  }

  /** A possible offload_mapping of these tags: for every key of the group the contents of one tensor with that key. */
  ghost predicate IsBackupOf(state: map<Tag, Saved>, tags: set<Tag>, g: nat, backup: map<nat, seq<Scalar>>) {
    && (forall tag :: tag in tags && tag in state && tag.group == g && state[tag].OnDevice? ==>
          state[tag].tensor.key in backup)
    && (forall key :: key in backup ==>
          exists tag :: tag in tags && IsKeyOf(state, g, tag, key) && backup[key] == state[tag].tensor.data)
  }

  ghost predicate IsBackup(state: map<Tag, Saved>, g: nat, backup: map<nat, seq<Scalar>>) {
    IsBackupOf(state, state.Keys, g, backup)
  }

  /** The one the handler makes (which tensor comes first for a key depends on the dictionary order). */
  ghost function Backup(state: map<Tag, Saved>, g: nat): map<nat, seq<Scalar>> {
    BackupExists(state, g);
    var backup :| IsBackup(state, g, backup);
    backup
  }

  lemma BackupExists(state: map<Tag, Saved>, g: nat)
    ensures exists backup :: IsBackup(state, g, backup)
  {
    var keys := set tag | tag in state && tag.group == g && state[tag].OnDevice? :: state[tag].tensor.key;
    var backup := map key | key in keys ::
      (var tag :| tag in state.Keys && IsKeyOf(state, g, tag, key); state[tag].tensor.data);
    assert IsBackup(state, g, backup);
  }

  lemma BackupIsBackup(state: map<Tag, Saved>, g: nat)
    ensures IsBackup(state, g, Backup(state, g))
  {
    BackupExists(state, g);
  }

  function MovedOne(tag: Tag, saved: Saved, g: nat): Saved {
    if tag.group == g && saved.OnDevice? then OnCpu(saved.tensor.key, saved.tensor.shape) else saved
  }

  function Moved(state: map<Tag, Saved>, g: nat): map<Tag, Saved> {
    map tag | tag in state :: MovedOne(tag, state[tag], g)
  }

  /** With these copies. */
  ghost function BulkOffloadWith(h: Handler, g: nat, backup: map<nat, seq<Scalar>>): Option<Handler> {
    if !GroupOnDevice(h.state, g) then None
    else Some(h.(state := Moved(h.state, g), mapping := h.mapping[g := backup]))
  }

  ghost function BulkOffload(h: Handler, g: nat): Option<Handler> {
    BulkOffloadWith(h, g, Backup(h.state, g))
  }

  function Freed(buffers: map<Tag, Option<Tensor>>, g: nat): map<Tag, Option<Tensor>> {
    map tag | tag in buffers :: if tag.group == g then None else buffers[tag]
  }

  /** The first group starts moving at the end of the first layer. */
  lemma AdvanceNeeds(h: Handler)
    requires Advance(h).Some?
    ensures var n := h.offloadedGroupCount;
            && n in h.windows
            && (h.windows[n] == h.currentGroup && n + 1 < h.numOffloadGroup ==> GroupOnDevice(h.state, n + 1))
  {
  }

  lemma AdvancedBy(h: Handler, moved: Handler, backup: map<nat, seq<Scalar>>)
    requires WindowClosed(h, backup) == Some(moved)
    requires h.offloadedGroupCount in h.windows && h.windows[h.offloadedGroupCount] == h.currentGroup
    ensures AdvanceWith(h, backup) == Some(moved.(offloadedGroupCount := h.offloadedGroupCount + 1))
  {
  }

  /** Exactly the tensors of the group are dropped. */
  lemma FreedDrops(buffers: map<Tag, Option<Tensor>>, g: nat)
    ensures Freed(buffers, g).Keys == buffers.Keys
    ensures forall tag :: tag in buffers && tag.group == g ==> Freed(buffers, g)[tag] == None
    ensures forall tag :: tag in buffers && tag.group != g ==> Freed(buffers, g)[tag] == buffers[tag]
  {
  }

  ghost function KickOffWith(h: Handler, backup: map<nat, seq<Scalar>>): Option<Handler> {
    if h.currentGroup == 0 then BulkOffloadWith(h, 0, backup) else Some(h)
  }

  ghost function KickOff(h: Handler): Option<Handler> {
    KickOffWith(h, Backup(h.state, 0))
  }

  /** At the end of the layer its window names, a group's buffers are dropped and the next group starts moving. */
  ghost function AdvanceWith(h: Handler, backup: map<nat, seq<Scalar>>): Option<Handler> {
    var n := h.offloadedGroupCount;
    if n !in h.windows then None
    else if h.windows[n] != h.currentGroup then Some(h)
    else
      match WindowClosed(h, backup)
      case None => None
      case Some(moved) => Some(moved.(offloadedGroupCount := n + 1))
  }

  ghost function WindowClosed(h: Handler, backup: map<nat, seq<Scalar>>): Option<Handler> {
    var n := h.offloadedGroupCount;
    var freed := h.(buffers := Freed(h.buffers, n));
    if n + 1 < h.numOffloadGroup then BulkOffloadWith(freed, n + 1, backup) else Some(freed)
  }

  ghost function Advance(h: Handler): Option<Handler> {
    AdvanceWith(h, Backup(h.state, h.offloadedGroupCount + 1))
  }

  ghost function SynchronizeForward(h: Handler): Option<Handler> {
    match KickOff(h)
    case None => None
    case Some(h') => Advance(h')
  }

  /** The same with the copies that are made at the first layer's end and when the window moves on. */
  ghost function SynchronizeForwardWith(h: Handler, first: map<nat, seq<Scalar>>, next: map<nat, seq<Scalar>>)
    : Option<Handler>
  {
    match KickOffWith(h, first)
    case None => None
    case Some(h') => AdvanceWith(h', next)
  }

  ghost function CommitForwardWith(h: Handler, first: map<nat, seq<Scalar>>, next: map<nat, seq<Scalar>>)
    : Option<Handler>
  {
    match SynchronizeForwardWith(h, first, next)
    case None => None
    case Some(h') => Some(h'.(currentGroup := h.currentGroup + 1, tensorCount := 0))
  }

  ghost function CommitForward(h: Handler): Option<Handler> {
    match SynchronizeForward(h)
    case None => None
    case Some(h') => Some(h'.(currentGroup := h.currentGroup + 1, tensorCount := 0))
  }

  /** offload_mapping[key].view(shape) exists for every tensor of the group that is on the CPU. */
  predicate Viewable(state: map<Tag, Saved>, g: nat, backup: map<nat, seq<Scalar>>) {
    forall tag :: tag in state && tag.group == g && state[tag].OnCpu? ==>
      state[tag].key in backup && |backup[state[tag].key]| == Numel(state[tag].shape)
  }

  function Recovered(state: map<Tag, Saved>, g: nat, backup: map<nat, seq<Scalar>>): map<Tag, Saved>
    requires Viewable(state, g, backup)
  {
    map tag | tag in state ::
      if tag.group == g && state[tag].OnCpu?
      then OnDevice(Tensor(state[tag].key, state[tag].shape, backup[state[tag].key]))
      else state[tag]
  }

  function BulkReload(h: Handler, g: nat): Option<Handler> {
    if g >= h.numOffloadGroup || g !in h.mapping || !Viewable(h.state, g, h.mapping[g]) then None
    else Some(h.(state := Recovered(h.state, g, h.mapping[g]), mapping := h.mapping - {g}))
  }

  function CommitBackward(h: Handler): Option<Handler> {
    if h.currentGroup == 0 || h.offloadedGroupCount == 0 || h.offloadedGroupCount - 1 !in h.windows then None
    else
      var h1, n := h.(currentGroup := h.currentGroup - 1), h.offloadedGroupCount;
      var h2 := if h.windows[n - 1] != h1.currentGroup then Some(h1)
                else match BulkReload(h1, n - 1)
                     case None => None
                     case Some(r) => Some(r.(offloadedGroupCount := if n > 1 then n - 1 else n));
      if h2.None? then None
      else if h1.currentGroup == 0 then Some(h2.value.(offloadedGroupCount := 0))
      else h2
  }

  function Pop(h: Handler, tag: Tag): Option<(Handler, Tensor)> {
    if tag !in h.state || h.state[tag].OnCpu? then None
    else Some((h.(state := h.state - {tag}, buffers := h.buffers - {tag}), h.state[tag].tensor))
  }

  // ----- one group there and back -----

  /** Tensors of the group that share a key have the same contents. */
  predicate KeysAgree(state: map<Tag, Saved>, g: nat) {
    forall s, t ::
      (&& s in state && t in state && s.group == g && t.group == g && state[s].OnDevice? && state[t].OnDevice?
       && state[s].tensor.key == state[t].tensor.key) ==> state[s].tensor.data == state[t].tensor.data
  }

  predicate WellShaped(state: map<Tag, Saved>) {
    forall tag :: tag in state && state[tag].OnDevice? ==> |state[tag].tensor.data| == Numel(state[tag].tensor.shape)
  }

  /** Offloading a group and reloading it gives back every tensor exactly when tensors sharing a key agree.
      One copy is kept per key, whatever tensor it was taken from, so a second tensor that starts at the same
      address but has other contents (or is longer) comes back wrong or not at all. */
  lemma OffloadReloadIff(state: map<Tag, Saved>, g: nat, backup: map<nat, seq<Scalar>>)
    requires GroupOnDevice(state, g) && WellShaped(state) && IsBackup(state, g, backup)
    ensures KeysAgree(state, g) <==>
            Viewable(Moved(state, g), g, backup) && Recovered(Moved(state, g), g, backup) == state
  {
    var moved := Moved(state, g);
    if KeysAgree(state, g) {
      forall tag | tag in state && tag.group == g
        ensures state[tag].tensor.key in backup && backup[state[tag].tensor.key] == state[tag].tensor.data
      {
        var key := state[tag].tensor.key;
        var other :| other in state.Keys && IsKeyOf(state, g, other, key) && backup[key] == state[other].tensor.data;
      }
    }
    if Viewable(moved, g, backup) && Recovered(moved, g, backup) == state {
      forall s, t | && s in state && t in state && s.group == g && t.group == g
                    && state[s].tensor.key == state[t].tensor.key
        ensures state[s].tensor.data == state[t].tensor.data
      {
        assert Recovered(moved, g, backup)[s] == state[s] && Recovered(moved, g, backup)[t] == state[t];
        assert moved[s].OnCpu? && moved[t].OnCpu?;
      }
    }
  }

  /** Under that condition the copies do not depend on the dictionary order. */
  lemma BackupIsUnique(state: map<Tag, Saved>, g: nat, x: map<nat, seq<Scalar>>, y: map<nat, seq<Scalar>>)
    requires IsBackup(state, g, x) && IsBackup(state, g, y) && KeysAgree(state, g)
    ensures x == y
  {
    forall key | key in x
      ensures key in y && x[key] == y[key]
    {
      var s :| s in state.Keys && IsKeyOf(state, g, s, key) && x[key] == state[s].tensor.data;
      assert state[s].tensor.key in y;
      var t :| t in state.Keys && IsKeyOf(state, g, t, key) && y[key] == state[t].tensor.data;
    }
    forall key | key in y
      ensures key in x
    {
      var t :| t in state.Keys && IsKeyOf(state, g, t, key) && y[key] == state[t].tensor.data;
    }
  }

  lemma MovingKeepsAgreement(state: map<Tag, Saved>, g: nat, other: nat)
    requires KeysAgree(state, other)
    ensures KeysAgree(Moved(state, g), other)
  {
  }

  /** In the middle of bulk_offload_group, with `todo` still to be looked at. */
  ghost predicate Offloading(before: map<Tag, Saved>, g: nat, todo: set<Tag>, now: map<Tag, Saved>,
                             backup: map<nat, seq<Scalar>>)
  {
    && GroupOnDevice(before, g)
    && todo <= before.Keys == now.Keys
    && (forall tag :: tag in before ==> now[tag] == if tag in todo then before[tag] else MovedOne(tag, before[tag], g))
    && IsBackupOf(before, before.Keys - todo, g, backup)
  }

  /** One more tag: a tensor whose key is new is copied, every tensor of the group is replaced by its key. */
  function WithCopy(tag: Tag, saved: Saved, g: nat, backup: map<nat, seq<Scalar>>): map<nat, seq<Scalar>> {
    if tag.group != g || !saved.OnDevice? || saved.tensor.key in backup then backup
    else backup[saved.tensor.key := saved.tensor.data]
  }

  lemma OffloadingStep(before: map<Tag, Saved>, g: nat, todo: set<Tag>, now: map<Tag, Saved>,
                       backup: map<nat, seq<Scalar>>, tag: Tag)
    requires Offloading(before, g, todo, now, backup) && tag in todo
    ensures Offloading(before, g, todo - {tag}, now[tag := MovedOne(tag, now[tag], g)],
                       WithCopy(tag, now[tag], g, backup))
  {
    var seen := before.Keys - todo;
    assert before.Keys - (todo - {tag}) == seen + {tag};
    SeeOneMore(before, seen, g, backup, tag);
  }

  lemma SeeOneMore(state: map<Tag, Saved>, seen: set<Tag>, g: nat, backup: map<nat, seq<Scalar>>, tag: Tag)
    requires IsBackupOf(state, seen, g, backup) && tag in state
    ensures IsBackupOf(state, seen + {tag}, g, WithCopy(tag, state[tag], g, backup))
  {
    var next := WithCopy(tag, state[tag], g, backup);
    forall key | key in next
      ensures exists t :: t in seen + {tag} && IsKeyOf(state, g, t, key) && next[key] == state[t].tensor.data
    {
      if key in backup {
        var t :| t in seen && IsKeyOf(state, g, t, key) && backup[key] == state[t].tensor.data;
        assert t in seen + {tag};
      } else {
        assert IsKeyOf(state, g, tag, key);
      }
    }
  }

  lemma OffloadingDone(before: map<Tag, Saved>, g: nat, now: map<Tag, Saved>, backup: map<nat, seq<Scalar>>)
    requires Offloading(before, g, {}, now, backup)
    ensures now == Moved(before, g) && IsBackup(before, g, backup)
  {
    assert before.Keys - {} == before.Keys;
  }

  /** Where tensors that share a key agree, it does not matter which copies are made. */
  lemma AnyBackup(state: map<Tag, Saved>, g: nat, backup: map<nat, seq<Scalar>>)
    requires IsBackup(state, g, backup) && KeysAgree(state, g)
    ensures backup == Backup(state, g)
  {
    BackupIsBackup(state, g);
    BackupIsUnique(state, g, backup, Backup(state, g));
  }

  /** The pass over the dictionary, in whatever order, that keeps the first tensor of each key. */
  method CollectGroup(before: map<Tag, Saved>, g: nat)
    returns (state: map<Tag, Saved>, offloadMapping: map<nat, seq<Scalar>>)
    requires GroupOnDevice(before, g)
    ensures state == Moved(before, g) && IsBackup(before, g, offloadMapping)
  {
    state, offloadMapping := before, map[];
    var todo := before.Keys;
    while todo != {}
      invariant Offloading(before, g, todo, state, offloadMapping)
      decreases |todo|
    {
      var tag :| tag in todo;
      var saved := state[tag];
      OffloadingStep(before, g, todo, state, offloadMapping, tag);
      todo := todo - {tag};
      if tag.group == g {
        if saved.tensor.key !in offloadMapping {
          offloadMapping := offloadMapping[saved.tensor.key := saved.tensor.data];
        }
        state := state[tag := OnCpu(saved.tensor.key, saved.tensor.shape)];
      } else {
        assert state[tag := saved] == state;
      }
    }
    OffloadingDone(before, g, state, offloadMapping);
  }

  /** h' is what the synchronization makes of h with copies that some order of the dictionary gives. */
  ghost predicate Synchronizes(h: Handler, h': Handler, first: map<nat, seq<Scalar>>, next: map<nat, seq<Scalar>>) {
    && IsBackup(h.state, 0, first) && KickOffWith(h, first).Some?
    && IsBackup(KickOffWith(h, first).value.state, h.offloadedGroupCount + 1, next)
    && Some(h') == SynchronizeForwardWith(h, first, next)
  }

  ghost predicate CommitsForward(h: Handler, h': Handler, first: map<nat, seq<Scalar>>, next: map<nat, seq<Scalar>>) {
    && IsBackup(h.state, 0, first) && KickOffWith(h, first).Some?
    && IsBackup(KickOffWith(h, first).value.state, h.offloadedGroupCount + 1, next)
    && Some(h') == CommitForwardWith(h, first, next)
  }

  lemma KickOffIsDetermined(h: Handler, first: map<nat, seq<Scalar>>)
    requires KeysAgree(h.state, 0) && IsBackup(h.state, 0, first)
    ensures KickOffWith(h, first) == KickOff(h)
  {
    AnyBackup(h.state, 0, first);
  }

  lemma AdvanceIsDetermined(h: Handler, next: map<nat, seq<Scalar>>)
    requires KeysAgree(h.state, h.offloadedGroupCount + 1) && IsBackup(h.state, h.offloadedGroupCount + 1, next)
    ensures AdvanceWith(h, next) == Advance(h)
  {
    AnyBackup(h.state, h.offloadedGroupCount + 1, next);
  }

  lemma KickOffKeepsAgreement(h: Handler, first: map<nat, seq<Scalar>>, g: nat)
    requires KickOffWith(h, first).Some? && KeysAgree(h.state, g)
    ensures KeysAgree(KickOffWith(h, first).value.state, g)
    ensures KickOffWith(h, first).value.offloadedGroupCount == h.offloadedGroupCount
  {
    MovingKeepsAgreement(h.state, 0, g);
  }

  /** Whether the first group can start moving, and what is then where, does not depend on the copies. */
  lemma KickOffSucceeds(h: Handler, first: map<nat, seq<Scalar>>)
    ensures KickOffWith(h, first).Some? <==> KickOff(h).Some?
    ensures KickOff(h).Some? ==>
              KickOffWith(h, first).value == KickOff(h).value.(mapping := KickOffWith(h, first).value.mapping)
  {
  }

  lemma AdvanceSucceeds(h: Handler, g: Handler)
    requires g == h.(mapping := g.mapping)
    ensures Advance(h).Some? <==> Advance(g).Some?
  {
  }

  lemma Synchronized(h: Handler, started: Handler, h': Handler, first: map<nat, seq<Scalar>>,
                     next: map<nat, seq<Scalar>>)
    requires IsBackup(h.state, 0, first) && Some(started) == KickOffWith(h, first)
    requires IsBackup(started.state, started.offloadedGroupCount + 1, next) && Some(h') == AdvanceWith(started, next)
    ensures Synchronizes(h, h', first, next)
  {
    assert started.offloadedGroupCount == h.offloadedGroupCount;
  }

  lemma KeepsCurrentGroup(h: Handler, h': Handler, first: map<nat, seq<Scalar>>, next: map<nat, seq<Scalar>>)
    requires Synchronizes(h, h', first, next)
    ensures h'.currentGroup == h.currentGroup
  {
  }

  /** Where tensors that share a key agree, in the group that moves first and in the next one, the order of the
      dictionary does not matter. */
  lemma CommitIsDetermined(h: Handler, h': Handler, first: map<nat, seq<Scalar>>, next: map<nat, seq<Scalar>>)
    requires CommitsForward(h, h', first, next)
    requires KeysAgree(h.state, 0) && KeysAgree(h.state, h.offloadedGroupCount + 1)
    ensures Some(h') == CommitForward(h)
  {
    KickOffIsDetermined(h, first);
    KickOffKeepsAgreement(h, first, h.offloadedGroupCount + 1);
    AdvanceIsDetermined(KickOffWith(h, first).value, next);
  }

  // ----- the class -----

  class AsyncOffloadHandler {
    var numOffloadGroup: nat
    var currentGroup: nat
    var tensorCountCurrentGroup: nat
    var tensorTagToState: map<Tag, Saved>
    var tensorTagToBuf: map<Tag, Option<Tensor>>
    var offloadedGroupCount: nat
    var layerWindowMap: map<nat, int>
    var groupOffloadMapping: map<nat, map<nat, seq<Scalar>>>

    ghost function Snapshot(): Handler
      reads this
    {
      Handler(numOffloadGroup, layerWindowMap, currentGroup, tensorCountCurrentGroup, tensorTagToState, tensorTagToBuf,
              offloadedGroupCount, groupOffloadMapping)
    }

    constructor (numOffloadGroup: nat, numModelGroup: nat)
      requires 1 <= numOffloadGroup
      ensures Snapshot() == Initial(numOffloadGroup, numModelGroup)
    {
      this.numOffloadGroup := numOffloadGroup;
      currentGroup, tensorCountCurrentGroup := 0, 0;
      tensorTagToState, tensorTagToBuf := map[], map[];
      offloadedGroupCount, groupOffloadMapping := 0, map[];
      layerWindowMap := map[];
      new;
      layerWindowMap := BuildWindowMap(numOffloadGroup, numModelGroup);
    }

    method TensorPush(tensor: Tensor) returns (tag: Tag)
      requires Push(Snapshot(), tensor).Some?
      modifies this
      ensures Some((Snapshot(), tag)) == Push(old(Snapshot()), tensor)
    {
      tag := Tag(currentGroup, tensorCountCurrentGroup);
      tensorCountCurrentGroup := tensorCountCurrentGroup + 1;
      tensorTagToState := tensorTagToState[tag := OnDevice(tensor)];
      if currentGroup < numOffloadGroup {
        tensorTagToBuf := tensorTagToBuf[tag := Some(tensor)];
      }
    }

    method TensorPop(tag: Tag) returns (tensor: Tensor)
      requires Pop(Snapshot(), tag).Some?
      modifies this
      ensures Some((Snapshot(), tensor)) == Pop(old(Snapshot()), tag)
    {
      tensor := tensorTagToState[tag].tensor;
      tensorTagToState := tensorTagToState - {tag};
      tensorTagToBuf := tensorTagToBuf - {tag};
    }

    /** The copies are those of some order of the dictionary. */
    method BulkOffloadGroup(groupToOffload: nat) returns (ghost backup: map<nat, seq<Scalar>>)
      requires GroupOnDevice(tensorTagToState, groupToOffload)
      modifies this`tensorTagToState, this`groupOffloadMapping
      ensures IsBackup(old(tensorTagToState), groupToOffload, backup)
      ensures Some(Snapshot()) == BulkOffloadWith(old(Snapshot()), groupToOffload, backup)
      ensures KeysAgree(old(tensorTagToState), groupToOffload) ==>
                Some(Snapshot()) == BulkOffload(old(Snapshot()), groupToOffload)
    {
      ghost var before := tensorTagToState;
      backup := MoveGroup(groupToOffload);
      if KeysAgree(before, groupToOffload) {
        AnyBackup(before, groupToOffload, backup);
      }
    }

    /** The same, field by field. */
    method MoveGroup(groupToOffload: nat) returns (ghost backup: map<nat, seq<Scalar>>)
      requires GroupOnDevice(tensorTagToState, groupToOffload)
      modifies this`tensorTagToState, this`groupOffloadMapping
      ensures IsBackup(old(tensorTagToState), groupToOffload, backup)
      ensures tensorTagToState == Moved(old(tensorTagToState), groupToOffload)
      ensures groupOffloadMapping == old(groupOffloadMapping)[groupToOffload := backup]
    {
      var offloadMapping;
      tensorTagToState, offloadMapping := CollectGroup(tensorTagToState, groupToOffload);
      groupOffloadMapping := groupOffloadMapping[groupToOffload := offloadMapping];
      backup := offloadMapping;
    }

    method BulkReloadGroup(groupToReload: nat)
      requires BulkReload(Snapshot(), groupToReload).Some?
      modifies this`tensorTagToState, this`groupOffloadMapping
      ensures Some(Snapshot()) == BulkReload(old(Snapshot()), groupToReload)
    {
      ghost var before := tensorTagToState;
      var offloadMapping := groupOffloadMapping[groupToReload];
      groupOffloadMapping := groupOffloadMapping - {groupToReload};
      var todo := tensorTagToState.Keys;
      while todo != {}
        invariant groupOffloadMapping == old(groupOffloadMapping) - {groupToReload}
        invariant todo <= before.Keys == tensorTagToState.Keys
        invariant forall tag :: tag in todo ==> tensorTagToState[tag] == before[tag]
        invariant forall tag :: tag in before && tag !in todo ==>
                    tensorTagToState[tag] == Recovered(before, groupToReload, offloadMapping)[tag]
        decreases |todo|
      {
        var tag :| tag in todo;
        todo := todo - {tag};
        if tag.group == groupToReload && tensorTagToState[tag].OnCpu? {
          var key, shape := tensorTagToState[tag].key, tensorTagToState[tag].shape;
          tensorTagToState := tensorTagToState[tag := OnDevice(Tensor(key, shape, offloadMapping[key]))];
        }
      }
      assert tensorTagToState == Recovered(before, groupToReload, offloadMapping);
    }

    /** Drop the device references of a group whose transfer is finished. */
    method FreeGroup(group: nat)
      modifies this`tensorTagToBuf
      ensures tensorTagToBuf == Freed(old(tensorTagToBuf), group)
    {
      ghost var before := tensorTagToBuf;
      var todo := tensorTagToBuf.Keys;
      while todo != {}
        invariant todo <= before.Keys == tensorTagToBuf.Keys
        invariant forall tag :: tag in todo ==> tensorTagToBuf[tag] == before[tag]
        invariant forall tag :: tag in before && tag !in todo ==> tensorTagToBuf[tag] == Freed(before, group)[tag]
        decreases |todo|
      {
        var tag :| tag in todo;
        todo := todo - {tag};
        if tag.group == group {
          tensorTagToBuf := tensorTagToBuf[tag := None];
        }
      }
    }

    /** Free the group whose window closes, and start the transfer of the next one. */
    method CloseWindow() returns (ghost backup: map<nat, seq<Scalar>>)
      requires offloadedGroupCount + 1 < numOffloadGroup ==> GroupOnDevice(tensorTagToState, offloadedGroupCount + 1)
      modifies this`tensorTagToBuf, this`tensorTagToState, this`groupOffloadMapping
      ensures IsBackup(old(tensorTagToState), offloadedGroupCount + 1, backup)
      ensures Some(Snapshot()) == WindowClosed(old(Snapshot()), backup)
    {
      FreeGroup(offloadedGroupCount);
      if offloadedGroupCount < numOffloadGroup - 1 {
        backup := MoveGroup(offloadedGroupCount + 1);
      } else {
        BackupIsBackup(tensorTagToState, offloadedGroupCount + 1);
        backup := Backup(tensorTagToState, offloadedGroupCount + 1);
      }
    }

    method AdvanceWindow() returns (ghost backup: map<nat, seq<Scalar>>)
      requires Advance(Snapshot()).Some?
      modifies this
      ensures IsBackup(old(tensorTagToState), old(offloadedGroupCount) + 1, backup)
      ensures Some(Snapshot()) == AdvanceWith(old(Snapshot()), backup)
    {
      ghost var before := Snapshot();
      AdvanceNeeds(before);
      if layerWindowMap[offloadedGroupCount] == currentGroup {
        backup := CloseWindow();
        ghost var moved := Snapshot();
        offloadedGroupCount := offloadedGroupCount + 1;
        AdvancedBy(before, moved, backup);
      } else {
        BackupIsBackup(tensorTagToState, offloadedGroupCount + 1);
        backup := Backup(tensorTagToState, offloadedGroupCount + 1);
      }
    }

    method KickStart() returns (ghost first: map<nat, seq<Scalar>>)
      requires KickOff(Snapshot()).Some?
      modifies this`tensorTagToState, this`groupOffloadMapping
      ensures IsBackup(old(tensorTagToState), 0, first)
      ensures Some(Snapshot()) == KickOffWith(old(Snapshot()), first)
    {
      BackupIsBackup(tensorTagToState, 0);
      first := Backup(tensorTagToState, 0);
      if currentGroup == 0 {
        first := MoveGroup(0);
      }
    }

    method SynchronizeOnGroupCommitForward()
      returns (ghost first: map<nat, seq<Scalar>>, ghost next: map<nat, seq<Scalar>>)
      requires SynchronizeForward(Snapshot()).Some?
      modifies this
      ensures Synchronizes(old(Snapshot()), Snapshot(), first, next)
    {
      ghost var before := Snapshot();
      first := KickStart();
      ghost var started := Snapshot();
      KickOffSucceeds(before, first);
      AdvanceSucceeds(KickOff(before).value, started);
      next := AdvanceWindow();
      Synchronized(before, started, Snapshot(), first, next);
    }

    /** The copies are those of some order of the dictionary. */
    method OnGroupCommitForward() returns (ghost first: map<nat, seq<Scalar>>, ghost next: map<nat, seq<Scalar>>)
      requires CommitForward(Snapshot()).Some?
      modifies this
      ensures CommitsForward(old(Snapshot()), Snapshot(), first, next)
    {
      first, next := SynchronizeOnGroupCommitForward();
      ghost var synchronized := Snapshot();
      assert synchronized.currentGroup == old(currentGroup) by {
        KeepsCurrentGroup(old(Snapshot()), synchronized, first, next);
      }
      currentGroup := currentGroup + 1;
      tensorCountCurrentGroup := 0;
      assert Snapshot() == synchronized.(currentGroup := old(currentGroup) + 1, tensorCount := 0);
    }

    method OnGroupCommitBackward()
      requires CommitBackward(Snapshot()).Some?
      modifies this
      ensures Some(Snapshot()) == CommitBackward(old(Snapshot()))
    {
      currentGroup := currentGroup - 1;
      if layerWindowMap[offloadedGroupCount - 1] == currentGroup {
        BulkReloadGroup(offloadedGroupCount - 1);
        offloadedGroupCount := offloadedGroupCount - (if offloadedGroupCount > 1 then 1 else 0);
      }
      if currentGroup == 0 {
        offloadedGroupCount := 0;
      }
    }
  }
}
