/** ReplayBuffer of main_ppo_sync.py: the trainer's view of what the agent loop workers have put in TransferQueue. */
module ReplayBuffer {
  import opened Wrappers

  /** A prompt has its uid as key, an output {uid}_{session}_{index}. */
  datatype Key = PromptKey(uid: string) | OutputKey(uid: string, session: nat, index: nat)

  datatype Status = Running | Success | Finished | Failure

  /** A tag dictionary; None for a name that is not in it. */
  datatype Tags = Tags(globalSteps: Option<nat>, status: Option<Status>)

  const NO_TAGS := Tags(None, None)

  type Partition = map<Key, Tags>

  /** dict.update */
  function Updated(tags: Tags, news: Tags): Tags {
    Tags(if news.globalSteps.Some? then news.globalSteps else tags.globalSteps,
         if news.status.Some? then news.status else tags.status)
  }

  function Merged(partition: Partition, items: Partition): Partition {
    map key | key in partition.Keys + items.Keys ::
      if key !in items then partition[key]
      else Updated(if key in partition then partition[key] else NO_TAGS, items[key])
  }

  /** The tags of a key after an update: a name that the news have is theirs, any other is as before. */
  predicate IsUpdated(before: Partition, items: Partition, key: Key, tags: Tags) {
    && tags.status == (if key in items && items[key].status.Some? then items[key].status
                       else if key in before then before[key].status else None)
    && tags.globalSteps == (if key in items && items[key].globalSteps.Some? then items[key].globalSteps
                            else if key in before then before[key].globalSteps else None)
  }

  lemma MergedHas(before: Partition, items: Partition)
    ensures forall key :: key in Merged(before, items) <==> key in before || key in items
    ensures forall key :: key in Merged(before, items) ==> IsUpdated(before, items, key, Merged(before, items)[key])
  {
  }

  lemma MergeOneMore(before: Partition, items: Partition, todo: set<Key>, key: Key)
    requires key in todo && todo <= items.Keys
    ensures var partition := Merged(before, items - todo);
            Merged(before, items - (todo - {key}))
            == partition[key := Updated(if key in partition then partition[key] else NO_TAGS, items[key])]
  {
    var partition := Merged(before, items - todo);
    assert key in partition <==> key in before;
    assert (items - (todo - {key}))[key] == items[key];
  }

  lemma MergeStartsAndEnds(before: Partition, items: Partition)
    ensures Merged(before, items - items.Keys) == before && items - {} == items
  {
  }

  lemma OneEntry(partition: Partition, key: Key, tags: Tags)
    ensures var created := if key in partition then partition else partition[key := NO_TAGS];
            created[key := Updated(created[key], tags)]
            == partition[key := Updated(if key in partition then partition[key] else NO_TAGS, tags)]
  {
  }

  function KeySet(keys: seq<Key>): set<Key> {
    set key | key in keys
  }

  /** Both names the sampler looks up are there. */
  predicate WellTagged(partition: Partition) {
    forall key :: key in partition ==> partition[key].globalSteps.Some? && partition[key].status.Some?
  }

  predicate Matches(partition: Partition, step: nat, key: Key, status: Status) {
    key in partition && partition[key] == Tags(Some(step), Some(status))
  }

  predicate SomeRunning(partition: Partition, step: nat) {
    exists key :: key in partition && Matches(partition, step, key, Running)
  }

  datatype Batch = Batch(keys: seq<Key>, tags: seq<Tags>)

  /** The step's successful outputs, each once, with their tags. */
  ghost predicate IsBatchOf(partition: Partition, step: nat, batch: Batch) {
    && |batch.keys| == |batch.tags|
    && (forall i, j :: 0 <= i < j < |batch.keys| ==> batch.keys[i] != batch.keys[j])
    && (forall i :: 0 <= i < |batch.keys| ==> Matches(partition, step, batch.keys[i], Success))
    && (forall i :: 0 <= i < |batch.keys| ==> batch.tags[i] == partition[batch.keys[i]])
    && (forall key :: Matches(partition, step, key, Success) ==> key in batch.keys)
  }

  /** The inner dictionaries, updated one after the other. */
  method UpdateAll(before: Partition, items: Partition) returns (partition: Partition)
    ensures partition == Merged(before, items)
  {
    partition := before;
    var todo := items.Keys;
    MergeStartsAndEnds(before, items);
    while todo != {}
      invariant todo <= items.Keys && partition == Merged(before, items - todo)
      decreases |todo|
    {
      var key :| key in todo;
      MergeOneMore(before, items, todo, key);
      todo := todo - {key};
      OneEntry(partition, key, items[key]);
      if key !in partition {
        partition := partition[key := NO_TAGS];
      }
      partition := partition[key := Updated(partition[key], items[key])];
    }
  }

  class ReplayBuffer {
    var partitions: map<string, Partition>

    /** The dictionary of dictionaries answers with an empty one for a new name. */
    function Contents(id: string): Partition
      reads this
    {
      if id in partitions then partitions[id] else map[]
    }

    constructor ()
      ensures partitions == map[]
    {
      partitions := map[];
    }

    method Add(id: string, items: Partition)
      modifies this
      ensures partitions == old(partitions)[id := Merged(old(Contents(id)), items)]
      ensures forall key :: key in Contents(id) <==> key in old(Contents(id)) || key in items
      ensures forall key :: key in Contents(id) ==> IsUpdated(old(Contents(id)), items, key, Contents(id)[key])
      ensures forall other :: other != id ==> Contents(other) == old(Contents(other))
    {
      MergedHas(Contents(id), items);
      var partition := UpdateAll(Contents(id), items);
      partitions := partitions[id := partition];
    }

    method Remove(id: string, keys: seq<Key>)
      modifies this
      ensures partitions == old(partitions)[id := old(Contents(id)) - KeySet(keys)]
      ensures forall key :: key in Contents(id) <==> key in old(Contents(id)) && key !in keys
      ensures forall key :: key in Contents(id) ==> Contents(id)[key] == old(Contents(id))[key]
      ensures forall other :: other != id ==> Contents(other) == old(Contents(other))
    {
      var partition := Contents(id);
      for i := 0 to |keys|
        invariant partition == old(Contents(id)) - KeySet(keys[..i])
        invariant partitions == old(partitions)
      {
        assert KeySet(keys[..i + 1]) == KeySet(keys[..i]) + {keys[i]};
        if keys[i] in partition {
          partition := partition - {keys[i]};
        }
      }
      assert keys[..|keys|] == keys;
      partitions := partitions[id := partition];
    }

    /** One round of the sampler's loop, with the lock held; None means wait and look again. */
    method TrySample(id: string, step: nat) returns (batch: Option<Batch>)
      requires WellTagged(Contents(id))
      ensures batch.None? <==> SomeRunning(Contents(id), step)
      ensures batch.Some? ==> IsBatchOf(Contents(id), step, batch.value)
    {
      var partition := Contents(id);
      var keys: seq<Key>, tags: seq<Tags> := [], [];
      var todo := partition.Keys;
      while todo != {}
        invariant todo <= partition.Keys && |keys| == |tags|
        invariant forall key :: key in partition && key !in todo ==> !Matches(partition, step, key, Running)
        invariant forall key :: Matches(partition, step, key, Success) && key !in todo ==> key in keys
        invariant forall i, j :: 0 <= i < j < |keys| ==> keys[i] != keys[j]
        invariant forall i :: 0 <= i < |keys| ==> keys[i] !in todo && Matches(partition, step, keys[i], Success)
        invariant forall i :: 0 <= i < |keys| ==> tags[i] == partition[keys[i]]
        decreases |todo|
      {
        var key :| key in todo;
        todo := todo - {key};
        var tag := partition[key];
        if tag.globalSteps.value == step {
          if tag.status.value == Running {
            assert Matches(partition, step, key, Running);
            return None;
          } else if tag.status.value == Success {
            keys, tags := keys + [key], tags + [tag];
          }
        }
      }
      batch := Some(Batch(keys, tags));
    }
  }
}
