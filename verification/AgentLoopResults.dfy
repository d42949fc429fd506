/** What the sampler can rely on. */
module AgentLoopResults {
  import opened Wrappers
  import opened ReplayBuffer
  import opened AgentLoopProtocol

  ghost predicate IsRun(events: seq<Event>) {
    CanRun(INITIAL, events)
  }

  ghost function After(events: seq<Event>): System
    requires IsRun(events)
  {
    Run(INITIAL, events)
  }

  lemma InvAfter(events: seq<Event>)
    requires IsRun(events)
    ensures Inv(After(events))
  {
    ReachableInv(INITIAL, events);
  }

  /** What a batch of a step has to be: nothing of the step is still running, every output of every finished prompt
      that has not been cleared is in it, and there is nothing in it but outputs of the step, once each. */
  ghost predicate CompleteBatch(s: System, step: nat, batch: Batch) {
    && (forall uid :: uid in s.prompts && s.prompts[uid].step == step ==> s.prompts[uid].outcome != Pending)
    && (forall key ::
          (&& IsOutput(s.prompts, key) && s.prompts[key.uid].step == step && s.prompts[key.uid].outcome == Done
           && key !in s.cleared) ==> key in batch.keys)
    && (forall i :: 0 <= i < |batch.keys| ==>
          IsOutput(s.prompts, batch.keys[i]) && s.prompts[batch.keys[i].uid].step == step)
    && (forall i, j :: 0 <= i < j < |batch.keys| ==> batch.keys[i] != batch.keys[j])
    && batch.tags == seq(|batch.keys|, i => Tags(Some(step), Some(Success)))
  }

  /** Whenever the sampler stops waiting for a step, in any run, its batch is complete. */
  lemma SamplesAreComplete(events: seq<Event>, step: nat, batch: Batch)
    requires IsRun(events)
    requires !SomeRunning(After(events).buffer, step) && IsBatchOf(After(events).buffer, step, batch)
    ensures CompleteBatch(After(events), step, batch)
  {
    var s := After(events);
    InvAfter(events);
    forall uid | uid in s.prompts && s.prompts[uid].step == step
      ensures s.prompts[uid].outcome != Pending
      ensures s.prompts[uid].outcome == Done ==> s.buffer[PromptKey(uid)].status == Some(Finished)
    {
      var key := PromptKey(uid);
      assert Known(s.prompts, s.buffer, key);
      assert !Matches(s.buffer, step, key, Running);
    }
    forall key | IsOutput(s.prompts, key) && s.prompts[key.uid].step == step && s.prompts[key.uid].outcome == Done
      && key !in s.cleared
      ensures key in batch.keys
    {
      assert SeenWith(s, s.buffer, key);
      assert Known(s.prompts, s.buffer, key);
      assert Matches(s.buffer, step, key, Success);
    }
    forall i | 0 <= i < |batch.keys|
      ensures IsOutput(s.prompts, batch.keys[i]) && s.prompts[batch.keys[i].uid].step == step
    {
      assert Known(s.prompts, s.buffer, batch.keys[i]);
    }
  }

  /** The sampler's lookups never fail: a "finished" tag carries no step, but its prompt is already in the buffer. */
  lemma LookupsSucceed(events: seq<Event>)
    requires IsRun(events)
    ensures WellTagged(After(events).buffer)
  {
    var s := After(events);
    InvAfter(events);
    forall key | key in s.buffer
      ensures s.buffer[key].globalSteps.Some? && s.buffer[key].status.Some?
    {
      assert Known(s.prompts, s.buffer, key);
    }
  }

  /** A poll and its merge show the buffer the outcome of every prompt. */
  lemma PollShowsOutcomes(s: System, step: nat)
    requires Inv(s) && s.snapshot.None?
    ensures !SomeRunning(Apply(Apply(s, Poll), Merge).buffer, step) <==> AllOver(s, step)
  {
    var t := Apply(Apply(s, Poll), Merge);
    forall key | key in t.buffer && Matches(t.buffer, step, key, Running)
      ensures key.PromptKey? && key.uid in s.prompts
      ensures s.prompts[key.uid].step == step && s.prompts[key.uid].outcome == Pending
    {
      assert key in s.buffer ==> Known(s.prompts, s.buffer, key);
      assert key in s.queue ==> PutTagged(s.prompts, s.queue, key);
    }
    forall uid | uid in s.prompts && s.prompts[uid].step == step && s.prompts[uid].outcome == Pending
      ensures Matches(t.buffer, step, PromptKey(uid), Running)
    {
      assert Known(s.prompts, s.buffer, PromptKey(uid));
      assert PromptKey(uid) in s.queue ==> PutTagged(s.prompts, s.queue, PromptKey(uid));
    }
  }

  ghost predicate AllOver(s: System, step: nat) {
    forall uid :: uid in s.prompts && s.prompts[uid].step == step ==> s.prompts[uid].outcome != Pending
  }

  /** The sampler stops waiting one poll after the last prompt of the step has come to an end, and not before. */
  lemma OnePollIsEnough(events: seq<Event>, step: nat)
    requires IsRun(events) && After(events).snapshot.None?
    ensures var s := After(events);
            !SomeRunning(Apply(Apply(s, Poll), Merge).buffer, step)
            <==> forall uid :: uid in s.prompts && s.prompts[uid].step == step ==> s.prompts[uid].outcome != Pending
  {
    InvAfter(events);
    PollShowsOutcomes(After(events), step);
  }

  // ----- freshness after remove -----

  /** What the sampler returns for a step once it has stopped waiting. */
  ghost predicate IsSample(s: System, step: nat, batch: Batch) {
    !SomeRunning(s.buffer, step) && IsBatchOf(s.buffer, step, batch)
  }

  /** Remove while a snapshot waits: after the merge the removed key is in the batch of its step if and only if the
      snapshot still has it. */
  lemma RemovedKeyIsSampledIff(events: seq<Event>, keys: set<Key>, key: Key, step: nat, batch: Batch)
    requires IsRun(events) && After(events).snapshot.Some? && Enabled(After(events), Remove(keys)) && key in keys
    requires key.uid in After(events).prompts ==> step == After(events).prompts[key.uid].step
    requires IsBatchOf(Apply(Apply(After(events), Remove(keys)), Merge).buffer, step, batch)
    ensures key in batch.keys <==> key in After(events).snapshot.value
  {
    var s := After(events);
    InvAfter(events);
    var t := Apply(s, Remove(keys));
    StepKeepsInv(s, Remove(keys));
    StepKeepsInv(t, Merge);
    assert IsOutput(s.prompts, key);
    var u := Apply(t, Merge);
    if key in u.buffer {
      assert Known(u.prompts, u.buffer, key);
      assert Matches(u.buffer, step, key, Success);
    }
  }

  /** No snapshot that still has the keys is waiting to be merged. */
  predicate Calm(s: System, e: Event) {
    e.Remove? && s.snapshot.Some? ==> s.snapshot.value.Keys !! e.keys
  }

  ghost predicate CalmRun(s: System, events: seq<Event>)
    requires CanRun(s, events)
    decreases |events|
  {
    events == [] || (Calm(s, events[0]) && CalmRun(Apply(s, events[0]), events[1..]))
  }

  /** What was removed is neither in the buffer nor on its way back into it. */
  ghost predicate Away(s: System) {
    s.removed !! s.buffer.Keys && (s.snapshot.Some? ==> s.removed !! s.snapshot.value.Keys)
  }

  lemma CalmStep(s: System, e: Event)
    requires Inv(s) && Enabled(s, e) && Calm(s, e) && Away(s)
    ensures Away(Apply(s, e))
  {
    forall key | key in s.removed
      ensures key.OutputKey? && key !in s.queue
    {
      assert IsOutput(s.prompts, key);
    }
  }

  lemma {:induction false} CalmRunsStayAway(s: System, events: seq<Event>)
    requires Inv(s) && CanRun(s, events) && CalmRun(s, events) && Away(s)
    ensures Away(Run(s, events))
    decreases |events|
  {
    if events != [] {
      StepKeepsInv(s, events[0]);
      CalmStep(s, events[0]);
      CalmRunsStayAway(Apply(s, events[0]), events[1..]);
    }
  }

  /** As long as that is kept to, a sample never has a key that was removed before. */
  lemma SamplesAreFreshInCalmRuns(events: seq<Event>, step: nat, batch: Batch)
    requires IsRun(events) && CalmRun(INITIAL, events) && IsBatchOf(After(events).buffer, step, batch)
    ensures forall key :: key in batch.keys ==> key !in After(events).removed
  {
    CalmRunsStayAway(INITIAL, events);
  }

  // ----- and nothing less is enough -----

  lemma RunCons(s: System, e: Event, rest: seq<Event>)
    requires Enabled(s, e) && CanRun(Apply(s, e), rest)
    ensures CanRun(s, [e] + rest) && Run(s, [e] + rest) == Run(Apply(s, e), rest)
    ensures CalmRun(s, [e] + rest) <==> Calm(s, e) && CalmRun(Apply(s, e), rest)
  {
    assert ([e] + rest)[1..] == rest;
  }

  lemma {:induction false} RunConcat(s: System, first: seq<Event>, second: seq<Event>)
    requires CanRun(s, first) && CanRun(Run(s, first), second)
    ensures CanRun(s, first + second) && Run(s, first + second) == Run(Run(s, first), second)
    ensures CalmRun(s, first + second) <==> CalmRun(s, first) && CalmRun(Run(s, first), second)
    decreases |first|
  {
    if first == [] {
      assert first + second == second;
    } else {
      RunConcat(Apply(s, first[0]), first[1..], second);
      assert (first + second)[1..] == first[1..] + second;
    }
  }

  /** t is what s becomes when some of its prompts fail, and nothing else happens. */
  ghost predicate OnlyFailures(s: System, t: System, uids: set<string>) {
    && t.buffer == s.buffer && t.snapshot == s.snapshot && t.removed == s.removed && t.prompts.Keys == s.prompts.Keys
    && forall uid :: uid in s.prompts ==>
         && t.prompts[uid].step == s.prompts[uid].step
         && t.prompts[uid].outcome == if uid in uids then Failed else s.prompts[uid].outcome
  }

  /** Pending prompts may all fail, one after the other. */
  lemma {:induction false} FailAll(s: System, uids: set<string>) returns (events: seq<Event>)
    requires forall uid :: uid in uids ==> uid in s.prompts && s.prompts[uid].outcome == Pending
    ensures CanRun(s, events) && CalmRun(s, events) && OnlyFailures(s, Run(s, events), uids)
    decreases uids
  {
    if uids == {} {
      events := [];
    } else {
      var uid :| uid in uids;
      var t := Apply(s, Fail(uid));
      var rest := FailAll(t, uids - {uid});
      RunCons(s, Fail(uid), rest);
      events := [Fail(uid)] + rest;
    }
  }

  lemma {:induction false} Enumerate(keys: set<Key>) returns (list: seq<Key>)
    ensures forall i, j :: 0 <= i < j < |list| ==> list[i] != list[j]
    ensures forall key :: key in list <==> key in keys
    decreases keys
  {
    if keys == {} {
      list := [];
    } else {
      var key :| key in keys;
      var rest := Enumerate(keys - {key});
      list := [key] + rest;
    }
  }

  lemma BatchExists(partition: Partition, step: nat) returns (batch: Batch)
    ensures IsBatchOf(partition, step, batch)
  {
    var keys := Enumerate(set key | key in partition && Matches(partition, step, key, Success));
    forall i | 0 <= i < |keys|
      ensures Matches(partition, step, keys[i], Success)
    {
      assert keys[i] in keys;
    }
    batch := Batch(keys, seq(|keys|, i requires 0 <= i < |keys| => partition[keys[i]]));
  }

  /** The key was removed and is in a sample that the sampler can take after some more events, all of them calm. */
  ghost predicate CanReturn(s: System, key: Key) {
    exists events, step, batch :: ReturnsIn(s, key, events, step, batch)
  }

  ghost predicate ReturnsIn(s: System, key: Key, events: seq<Event>, step: nat, batch: Batch) {
    && CanRun(s, events) && CalmRun(s, events)
    && IsSample(Run(s, events), step, batch) && key in batch.keys && key in Run(s, events).removed
  }

  lemma ReturnsNext(s: System, key: Key, e: Event)
    requires Enabled(s, e) && Calm(s, e) && CanReturn(Apply(s, e), key)
    ensures CanReturn(s, key)
  {
    var events, step, batch :| ReturnsIn(Apply(s, e), key, events, step, batch);
    RunCons(s, e, events);
    assert ReturnsIn(s, key, [e] + events, step, batch);
  }

  lemma ReturnsLater(s: System, key: Key, first: seq<Event>)
    requires CanRun(s, first) && CalmRun(s, first) && CanReturn(Run(s, first), key)
    ensures CanReturn(s, key)
  {
    var events, step, batch :| ReturnsIn(Run(s, first), key, events, step, batch);
    RunConcat(s, first, events);
    assert ReturnsIn(s, key, first + events, step, batch);
  }

  /** A poll and its merge are all that is missing once the prompts of the step have come to an end. */
  lemma ReturnsAfterPoll(s: System, key: Key)
    requires Inv(s) && s.snapshot.None? && key in s.removed && key in s.buffer
    requires IsOutput(s.prompts, key) && AllOver(s, s.prompts[key.uid].step)
    ensures CanReturn(s, key)
  {
    var step, polled := s.prompts[key.uid].step, Apply(s, Poll);
    var t := Apply(polled, Merge);
    PollShowsOutcomes(s, step);
    StepKeepsInv(s, Poll);
    StepKeepsInv(polled, Merge);
    assert Known(t.prompts, t.buffer, key);
    assert Matches(t.buffer, step, key, Success);
    var batch := BatchExists(t.buffer, step);
    assert ReturnsIn(t, key, [], step, batch);
    ReturnsNext(polled, key, Merge);
    ReturnsNext(s, key, Poll);
  }

  lemma ReturnsWithoutSnapshot(s: System, key: Key)
    requires Inv(s) && s.snapshot.None? && key in s.removed && key in s.buffer
    ensures CanReturn(s, key)
  {
    assert IsOutput(s.prompts, key);
    var step := s.prompts[key.uid].step;
    var pending := set uid | uid in s.prompts && s.prompts[uid].step == step && s.prompts[uid].outcome == Pending;
    var events := FailAll(s, pending);
    var t := Run(s, events);
    ReachableInv(s, events);
    assert IsOutput(t.prompts, key);
    ReturnsAfterPoll(t, key);
    ReturnsLater(s, key, events);
  }

  /** A removed key that is in the buffer, or in a snapshot on the way there, can be sampled again. */
  lemma RemovedKeyCanReturn(s: System, key: Key)
    requires Inv(s) && key in s.removed && (key in s.buffer || (s.snapshot.Some? && key in s.snapshot.value))
    ensures CanReturn(s, key)
  {
    if s.snapshot.None? {
      ReturnsWithoutSnapshot(s, key);
    } else {
      var t := Apply(s, Merge);
      StepKeepsInv(s, Merge);
      ReturnsWithoutSnapshot(t, key);
      ReturnsNext(s, key, Merge);
    }
  }

  /** No sample from here on has a key that was removed before, whatever happens, as long as removals are calm. */
  ghost predicate StaysFresh(s: System) {
    forall key :: !CanReturn(s, key)
  }

  lemma StaysFreshIffAway(s: System)
    requires Inv(s)
    ensures StaysFresh(s) <==> Away(s)
  {
    if Away(s) {
      forall key, events, step, batch
        ensures !ReturnsIn(s, key, events, step, batch)
      {
        if CanRun(s, events) && CalmRun(s, events) {
          CalmRunsStayAway(s, events);
        }
      }
    } else {
      var key :| key in s.removed && (key in s.buffer || (s.snapshot.Some? && key in s.snapshot.value));
      RemovedKeyCanReturn(s, key);
    }
  }

  lemma {:induction false} PrefixRuns(s: System, events: seq<Event>, k: nat)
    requires k <= |events| && CanRun(s, events)
    ensures CanRun(s, events[..k])
    ensures CalmRun(s, events) ==> CalmRun(s, events[..k])
    decreases k
  {
    if k > 0 {
      assert events[..k][1..] == events[1..][..k - 1];
      PrefixRuns(Apply(s, events[0]), events[1..], k - 1);
    }
  }

  /** Where a run is not calm, a removed key is left behind in the snapshot. */
  lemma {:induction false} LeftBehind(s: System, events: seq<Event>) returns (k: nat)
    requires CanRun(s, events) && !CalmRun(s, events)
    ensures k <= |events| && CanRun(s, events[..k]) && !Away(Run(s, events[..k]))
    decreases |events|
  {
    if !Calm(s, events[0]) {
      k := 1;
      assert events[..1][1..] == [];
    } else {
      var n := LeftBehind(Apply(s, events[0]), events[1..]);
      k := n + 1;
      assert events[..k][1..] == events[1..][..n];
    }
  }

  ghost predicate FreshAfter(events: seq<Event>, k: nat)
    requires k <= |events|
  {
    IsRun(events[..k]) && StaysFresh(After(events[..k]))
  }

  /** Samples stay fresh throughout a run if and only if no key is removed while a snapshot that has it waits. */
  lemma FreshIffCalm(events: seq<Event>)
    requires IsRun(events)
    ensures CalmRun(INITIAL, events) <==> forall k :: 0 <= k <= |events| ==> FreshAfter(events, k)
  {
    if CalmRun(INITIAL, events) {
      forall k | 0 <= k <= |events|
        ensures FreshAfter(events, k)
      {
        PrefixRuns(INITIAL, events, k);
        CalmRunsStayAway(INITIAL, events[..k]);
        InvAfter(events[..k]);
        StaysFreshIffAway(After(events[..k]));
      }
    } else {
      var k := LeftBehind(INITIAL, events);
      InvAfter(events[..k]);
      StaysFreshIffAway(After(events[..k]));
      assert !FreshAfter(events, k);
    }
  }

  /** Poll, then clear and remove an output before the merge. */
  function StaleEvents(key: Key): seq<Event> {
    [Poll, Clear({key}), Remove({key})]
  }

  /** And such a removal is within reach from every state without a waiting snapshot: any output that the buffer and
      the queue have can be sampled after it has been cleared and removed. */
  lemma RemovedOutputsCanBeSampledAgain(events: seq<Event>, key: Key)
    requires IsRun(events) && After(events).snapshot.None?
    requires key.OutputKey? && key in After(events).buffer && key !in After(events).cleared
    ensures IsRun(events + StaleEvents(key)) && key in After(events + StaleEvents(key)).removed
    ensures CanReturn(After(events + StaleEvents(key)), key)
  {
    var s := After(events);
    InvAfter(events);
    assert Known(s.prompts, s.buffer, key);
    var polled := Apply(s, Poll);
    var cleared := Apply(polled, Clear({key}));
    var removed := Apply(cleared, Remove({key}));
    RunCons(cleared, Remove({key}), []);
    RunCons(polled, Clear({key}), [Remove({key})] + []);
    RunCons(s, Poll, [Clear({key})] + ([Remove({key})] + []));
    assert StaleEvents(key) == [Poll] + ([Clear({key})] + ([Remove({key})] + []));
    RunConcat(INITIAL, events, StaleEvents(key));
    InvAfter(events + StaleEvents(key));
    RemovedKeyCanReturn(removed, key);
  }

  /** There is such an output after the first poll already. */
  function FirstOutput(uid: string, step: nat): seq<Event> {
    [Dispatch(step, map[uid := 1]), PutOutputs(uid, 0, 1), Poll, Merge]
  }

  lemma FirstOutputIsSeen(uid: string, step: nat)
    ensures IsRun(FirstOutput(uid, step))
    ensures var s := After(FirstOutput(uid, step));
            s.snapshot.None? && OutputKey(uid, 0, 0) in s.buffer && OutputKey(uid, 0, 0) !in s.cleared
  {
    var events := FirstOutput(uid, step);
    var s1 := Apply(INITIAL, events[0]);
    var s2 := Apply(s1, events[1]);
    var s3 := Apply(s2, Poll);
    var s4 := Apply(s3, Merge);
    assert OutputKey(uid, 0, 0) in OutputKeys(uid, 0, 1);
    RunCons(s3, Merge, []);
    RunCons(s2, Poll, [Merge] + []);
    RunCons(s1, events[1], [Poll] + ([Merge] + []));
    RunCons(INITIAL, events[0], [events[1]] + ([Poll] + ([Merge] + [])));
    assert events == [events[0]] + ([events[1]] + ([Poll] + ([Merge] + [])));
    assert s4.snapshot.None?;
  }
}
