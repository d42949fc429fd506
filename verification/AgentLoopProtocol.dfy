/** The trainer, the agent loop workers, the polling thread and the sampler, running side by side on one partition. */
module AgentLoopProtocol {
  import opened Wrappers
  import opened ReplayBuffer

  datatype Outcome = Pending | Done | Failed

  /** A dispatched prompt: its training step, how many sessions it runs, and for every session that is over
      the number of outputs it has put. */
  datatype Prompt = Prompt(step: nat, sessions: nat, outputs: map<nat, nat>, outcome: Outcome)

  /** queue: the tags in TransferQueue; snapshot: what the polling thread has read and not merged yet;
      buffer: the replay buffer; cleared and removed: what the trainer has taken out of the queue and the buffer. */
  datatype System = System(prompts: map<string, Prompt>, queue: Partition, snapshot: Option<Partition>,
                           buffer: Partition, cleared: set<Key>, removed: set<Key>)

  const INITIAL := System(map[], map[], None, map[], {}, {})

  datatype Event =
    | Dispatch(step: nat, sessions: map<string, nat>)
    | PutOutputs(uid: string, session: nat, count: nat)
    | Finish(uid: string)
    | Fail(uid: string)
    | Poll
    | Merge
    | Clear(keys: set<Key>)
    | Remove(keys: set<Key>)

  predicate Enabled(s: System, e: Event) {
    match e
    case Dispatch(_, sessions) => forall uid :: uid in sessions ==> uid !in s.prompts
    case PutOutputs(uid, session, _) =>
      uid in s.prompts && session < s.prompts[uid].sessions && session !in s.prompts[uid].outputs
    case Finish(uid) =>
      && uid in s.prompts && s.prompts[uid].outcome == Pending
      && forall session: nat :: session < s.prompts[uid].sessions ==> session in s.prompts[uid].outputs
    case Fail(uid) => uid in s.prompts && s.prompts[uid].outcome == Pending
    case Poll => s.snapshot.None?
    case Merge => s.snapshot.Some?
    case Clear(keys) => forall key :: key in keys ==> key.OutputKey? && key in s.buffer
    case Remove(keys) => keys <= s.cleared
  }

  function PromptKeys(uids: set<string>): set<Key> {
    set uid | uid in uids :: PromptKey(uid)
  }

  function RunningItems(step: nat, sessions: map<string, nat>): Partition {
    map key | key in PromptKeys(sessions.Keys) :: Tags(Some(step), Some(Running))
  }

  function NewPrompts(step: nat, sessions: map<string, nat>): map<string, Prompt> {
    map uid | uid in sessions :: Prompt(step, sessions[uid], map[], Pending)
  }

  function OutputKeys(uid: string, session: nat, count: nat): set<Key> {
    set i: nat | i < count :: OutputKey(uid, session, i)
  }

  /** The batch one session puts, all at once. */
  function OutputItems(uid: string, session: nat, count: nat, step: nat): Partition {
    map key | key in OutputKeys(uid, session, count) :: Tags(Some(step), Some(Success))
  }

  function Apply(s: System, e: Event): System
    requires Enabled(s, e)
  {
    match e
    case Dispatch(step, sessions) =>
      s.(prompts := s.prompts + NewPrompts(step, sessions), buffer := Merged(s.buffer, RunningItems(step, sessions)))
    case PutOutputs(uid, session, count) =>
      var p := s.prompts[uid];
      s.(prompts := s.prompts[uid := p.(outputs := p.outputs[session := count])],
         queue := s.queue + OutputItems(uid, session, count, p.step))
    case Finish(uid) =>
      s.(prompts := s.prompts[uid := s.prompts[uid].(outcome := Done)],
         queue := s.queue[PromptKey(uid) := Tags(None, Some(Finished))])
    case Fail(uid) =>
      s.(prompts := s.prompts[uid := s.prompts[uid].(outcome := Failed)],
         queue := s.queue[PromptKey(uid) := Tags(None, Some(Failure))])
    case Poll => s.(snapshot := Some(s.queue))
    case Merge => s.(snapshot := None, buffer := Merged(s.buffer, s.snapshot.value))
    case Clear(keys) => s.(queue := s.queue - keys, cleared := s.cleared + keys)
    case Remove(keys) => s.(buffer := s.buffer - keys, removed := s.removed + keys)
  }

  ghost predicate CanRun(s: System, events: seq<Event>)
    decreases |events|
  {
    events == [] || (Enabled(s, events[0]) && CanRun(Apply(s, events[0]), events[1..]))
  }

  ghost function Run(s: System, events: seq<Event>): System
    requires CanRun(s, events)
    decreases |events|
  {
    if events == [] then s else Run(Apply(s, events[0]), events[1..])
  }

  // ----- what holds throughout every run -----

  /** The key of an output that some session has put. */
  predicate IsOutput(prompts: map<string, Prompt>, key: Key) {
    && key.OutputKey? && key.uid in prompts && key.session in prompts[key.uid].outputs
    && key.index < prompts[key.uid].outputs[key.session]
  }

  function OutcomeStatus(outcome: Outcome): Status {
    match outcome
    case Pending => Running
    case Done => Finished
    case Failed => Failure
  }

  predicate OutputTagged(prompts: map<string, Prompt>, m: Partition, key: Key)
    requires key in m
  {
    IsOutput(prompts, key) && m[key] == Tags(Some(prompts[key.uid].step), Some(Success))
  }

  /** A tag read from the queue: the outcome of a prompt, or an output's. */
  predicate PutTagged(prompts: map<string, Prompt>, m: Partition, key: Key)
    requires key in m
  {
    match key
    case PromptKey(uid) =>
      && uid in prompts && prompts[uid].outcome != Pending
      && m[key] == Tags(None, Some(OutcomeStatus(prompts[uid].outcome)))
    case OutputKey(_, _, _) => OutputTagged(prompts, m, key)
  }

  /** An entry of the buffer: a prompt is running there, or has the outcome it really has. */
  predicate Known(prompts: map<string, Prompt>, m: Partition, key: Key)
    requires key in m
  {
    match key
    case PromptKey(uid) =>
      && uid in prompts && m[key].globalSteps == Some(prompts[uid].step)
      && (m[key].status == Some(Running) || m[key].status == Some(OutcomeStatus(prompts[uid].outcome)))
    case OutputKey(_, _, _) => OutputTagged(prompts, m, key)
  }

  /** If m has seen a prompt finish, it has every output of that prompt that has not been cleared. */
  predicate SeenWith(s: System, m: Partition, key: Key) {
    (IsOutput(s.prompts, key) && key !in s.cleared && PromptKey(key.uid) in m
     && m[PromptKey(key.uid)].status == Some(Finished)) ==> key in m
  }

  ghost predicate QueueOk(s: System) {
    && (forall key {:trigger PutTagged(s.prompts, s.queue, key)} :: key in s.queue ==>
          PutTagged(s.prompts, s.queue, key))
    && (forall key :: key in s.queue ==> key !in s.cleared)
    && (forall key :: IsOutput(s.prompts, key) && key !in s.cleared ==> key in s.queue)
    && (forall uid :: uid in s.prompts && s.prompts[uid].outcome != Pending ==> PromptKey(uid) in s.queue)
  }

  ghost predicate SnapshotOk(s: System, m: Partition) {
    && (forall key {:trigger PutTagged(s.prompts, m, key)} :: key in m ==> PutTagged(s.prompts, m, key))
    && (forall key {:trigger SeenWith(s, m, key)} :: SeenWith(s, m, key))
  }

  ghost predicate BufferOk(s: System) {
    && (forall key {:trigger Known(s.prompts, s.buffer, key)} :: key in s.buffer ==> Known(s.prompts, s.buffer, key))
    && (forall uid :: uid in s.prompts ==> PromptKey(uid) in s.buffer)
    && (forall key {:trigger SeenWith(s, s.buffer, key)} :: SeenWith(s, s.buffer, key))
  }

  predicate PromptOk(p: Prompt) {
    && (forall session :: session in p.outputs ==> session < p.sessions)
    && (p.outcome == Done ==> forall session: nat :: session < p.sessions ==> session in p.outputs)
  }

  ghost predicate PromptsOk(s: System) {
    && (forall uid :: uid in s.prompts ==> PromptOk(s.prompts[uid]))
    && (forall key :: key in s.cleared ==> IsOutput(s.prompts, key))
    && s.removed <= s.cleared
  }

  ghost predicate Inv(s: System) {
    && PromptsOk(s) && QueueOk(s) && BufferOk(s)
    && (s.snapshot.Some? ==> SnapshotOk(s, s.snapshot.value))
  }

  lemma {:induction false} ReachableInv(s: System, events: seq<Event>)
    requires Inv(s) && CanRun(s, events)
    ensures Inv(Run(s, events))
    decreases |events|
  {
    if events != [] {
      StepKeepsInv(s, events[0]);
      ReachableInv(Apply(s, events[0]), events[1..]);
    }
  }

  lemma StepKeepsInv(s: System, e: Event)
    requires Inv(s) && Enabled(s, e)
    ensures Inv(Apply(s, e))
  {
    match e
    case Dispatch(_, _) => DispatchKeepsInv(s, e);
    case PutOutputs(_, _, _) => PutKeepsInv(s, e);
    case Finish(_) => OutcomeKeepsInv(s, e);
    case Fail(_) => OutcomeKeepsInv(s, e);
    case Poll => PollKeepsInv(s);
    case Merge => MergeKeepsInv(s);
    case Clear(_) => ClearKeepsInv(s, e);
    case Remove(_) => RemoveKeepsInv(s, e);
  }

  /** A reader's entries stay right while prompts are added, put outputs and come to an end. */
  ghost predicate Grows(s: System, t: System) {
    && s.cleared <= t.cleared
    && (forall key :: IsOutput(s.prompts, key) ==>
          IsOutput(t.prompts, key) && t.prompts[key.uid].step == s.prompts[key.uid].step)
    && (forall uid :: uid in s.prompts ==> uid in t.prompts && t.prompts[uid].step == s.prompts[uid].step)
    && (forall uid :: uid in s.prompts && s.prompts[uid].outcome != Pending ==>
          t.prompts[uid].outcome == s.prompts[uid].outcome)
    && (forall key :: (IsOutput(t.prompts, key) && key.uid in s.prompts && s.prompts[key.uid].outcome == Done)
          ==> IsOutput(s.prompts, key))
  }

  lemma PutTaggedGrows(s: System, t: System, m: Partition)
    requires Grows(s, t) && SnapshotOk(s, m)
    ensures SnapshotOk(t, m)
  {
    forall key | key in m
      ensures PutTagged(t.prompts, m, key)
    {
      assert PutTagged(s.prompts, m, key);
    }
    forall key
      ensures SeenWith(t, m, key)
    {
      assert SeenWith(s, m, key);
      if key.OutputKey? && PromptKey(key.uid) in m {
        assert PutTagged(s.prompts, m, PromptKey(key.uid));
      }
    }
  }

  lemma BufferGrows(s: System, t: System)
    requires Grows(s, t) && BufferOk(s) && t.buffer == s.buffer && t.prompts.Keys == s.prompts.Keys
    ensures BufferOk(t)
  {
    forall key | key in t.buffer
      ensures Known(t.prompts, t.buffer, key)
    {
      assert Known(s.prompts, s.buffer, key);
    }
    forall key
      ensures SeenWith(t, t.buffer, key)
    {
      assert SeenWith(s, s.buffer, key);
      if key.OutputKey? && PromptKey(key.uid) in s.buffer {
        assert Known(s.prompts, s.buffer, PromptKey(key.uid));
      }
    }
  }

  lemma DispatchGrows(s: System, e: Event)
    requires Inv(s) && e.Dispatch? && Enabled(s, e)
    ensures Grows(s, Apply(s, e))
  {
  }

  lemma PutGrows(s: System, e: Event)
    requires Inv(s) && e.PutOutputs? && Enabled(s, e)
    ensures Grows(s, Apply(s, e))
  {
    assert PromptOk(s.prompts[e.uid]);
  }

  lemma OutcomeGrows(s: System, e: Event)
    requires Inv(s) && (e.Finish? || e.Fail?) && Enabled(s, e)
    ensures Grows(s, Apply(s, e))
  {
  }

  lemma DispatchBuffer(s: System, e: Event)
    requires Inv(s) && e.Dispatch? && Enabled(s, e)
    ensures BufferOk(Apply(s, e))
  {
    var t := Apply(s, e);
    forall key | key in t.buffer
      ensures Known(t.prompts, t.buffer, key)
    {
      if key in s.buffer {
        assert Known(s.prompts, s.buffer, key);
      }
    }
    forall key
      ensures SeenWith(t, t.buffer, key)
    {
      assert SeenWith(s, s.buffer, key);
      if key.OutputKey? && PromptKey(key.uid) in s.buffer {
        assert Known(s.prompts, s.buffer, PromptKey(key.uid));
      }
    }
  }

  lemma DispatchQueue(s: System, e: Event)
    requires Inv(s) && e.Dispatch? && Enabled(s, e)
    ensures QueueOk(Apply(s, e))
  {
    var t := Apply(s, e);
    forall key | key in t.queue
      ensures PutTagged(t.prompts, t.queue, key)
    {
      assert PutTagged(s.prompts, s.queue, key);
    }
  }

  lemma DispatchPrompts(s: System, e: Event)
    requires PromptsOk(s) && e.Dispatch? && Enabled(s, e)
    ensures PromptsOk(Apply(s, e))
  {
  }

  lemma OutcomePrompts(s: System, e: Event)
    requires PromptsOk(s) && (e.Finish? || e.Fail?) && Enabled(s, e)
    ensures PromptsOk(Apply(s, e))
  {
  }

  lemma DispatchKeepsInv(s: System, e: Event)
    requires Inv(s) && e.Dispatch? && Enabled(s, e)
    ensures Inv(Apply(s, e))
  {
    DispatchGrows(s, e);
    DispatchPrompts(s, e);
    DispatchBuffer(s, e);
    DispatchQueue(s, e);
    if s.snapshot.Some? {
      PutTaggedGrows(s, Apply(s, e), s.snapshot.value);
    }
  }

  lemma PutQueue(s: System, e: Event)
    requires Inv(s) && e.PutOutputs? && Enabled(s, e)
    ensures QueueOk(Apply(s, e))
  {
    var t := Apply(s, e);
    forall key | key in t.queue
      ensures PutTagged(t.prompts, t.queue, key) && key !in t.cleared
    {
      assert key in s.queue ==> PutTagged(s.prompts, s.queue, key);
    }
    forall key | IsOutput(t.prompts, key) && key !in t.cleared
      ensures key in t.queue
    {
      assert IsOutput(s.prompts, key) || key in OutputKeys(e.uid, e.session, e.count);
    }
  }

  lemma PutKeepsInv(s: System, e: Event)
    requires Inv(s) && e.PutOutputs? && Enabled(s, e)
    ensures Inv(Apply(s, e))
  {
    PutGrows(s, e);
    PutQueue(s, e);
    if s.snapshot.Some? {
      PutTaggedGrows(s, Apply(s, e), s.snapshot.value);
    }
    BufferGrows(s, Apply(s, e));
  }

  lemma OutcomeQueue(s: System, e: Event)
    requires Inv(s) && (e.Finish? || e.Fail?) && Enabled(s, e)
    ensures QueueOk(Apply(s, e))
  {
    var t := Apply(s, e);
    forall key | key in t.queue
      ensures PutTagged(t.prompts, t.queue, key)
    {
      assert key in s.queue ==> PutTagged(s.prompts, s.queue, key);
    }
    forall key | IsOutput(t.prompts, key) && key !in t.cleared
      ensures key in t.queue
    {
      assert IsOutput(s.prompts, key);
    }
  }

  lemma OutcomeKeepsInv(s: System, e: Event)
    requires Inv(s) && (e.Finish? || e.Fail?) && Enabled(s, e)
    ensures Inv(Apply(s, e))
  {
    OutcomeGrows(s, e);
    OutcomePrompts(s, e);
    OutcomeQueue(s, e);
    if s.snapshot.Some? {
      PutTaggedGrows(s, Apply(s, e), s.snapshot.value);
    }
    BufferGrows(s, Apply(s, e));
  }

  lemma PollKeepsInv(s: System)
    requires Inv(s) && Enabled(s, Poll)
    ensures Inv(Apply(s, Poll))
  {
    forall key
      ensures SeenWith(s, s.queue, key)
    {
    }
    assert SnapshotOk(s, s.queue);
    PutTaggedGrows(s, Apply(s, Poll), s.queue);
    BufferGrows(s, Apply(s, Poll));
  }

  lemma MergeKeepsInv(s: System)
    requires Inv(s) && Enabled(s, Merge)
    ensures Inv(Apply(s, Merge))
  {
    var t, m := Apply(s, Merge), s.snapshot.value;
    forall key | key in t.buffer
      ensures Known(t.prompts, t.buffer, key)
    {
      assert key in s.buffer ==> Known(s.prompts, s.buffer, key);
      assert key in m ==> PutTagged(s.prompts, m, key);
    }
    forall key
      ensures SeenWith(t, t.buffer, key)
    {
      assert SeenWith(s, s.buffer, key) && SeenWith(s, m, key);
    }
  }

  lemma ClearKeepsInv(s: System, e: Event)
    requires Inv(s) && e.Clear? && Enabled(s, e)
    ensures Inv(Apply(s, e))
  {
    var t := Apply(s, e);
    assert forall key :: key in e.keys ==> Known(s.prompts, s.buffer, key);
    assert Grows(s, t);
    if s.snapshot.Some? {
      PutTaggedGrows(s, t, s.snapshot.value);
    }
    BufferGrows(s, t);
    forall key | key in t.queue
      ensures PutTagged(t.prompts, t.queue, key)
    {
      assert PutTagged(s.prompts, s.queue, key);
    }
  }

  lemma RemoveKeepsInv(s: System, e: Event)
    requires Inv(s) && e.Remove? && Enabled(s, e)
    ensures Inv(Apply(s, e))
  {
    var t := Apply(s, e);
    assert Grows(s, t);
    if s.snapshot.Some? {
      PutTaggedGrows(s, t, s.snapshot.value);
    }
    forall key | key in t.buffer
      ensures Known(t.prompts, t.buffer, key)
    {
      assert Known(s.prompts, s.buffer, key);
    }
    forall key
      ensures SeenWith(t, t.buffer, key)
    {
      assert SeenWith(s, s.buffer, key);
    }
  }
}
