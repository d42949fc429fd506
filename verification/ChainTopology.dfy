/** NIXLCheckpointEngine.build_topology: which agents the engine connects to each rank. */
module ChainTopology {
  import opened Wrappers

  /** xs[start : stop] for possibly negative start and stop. */
  function PySlice<T>(xs: seq<T>, start: int, stop: int): seq<T> {
    var lo, hi := PyIndex(|xs|, start), PyIndex(|xs|, stop);
    if lo <= hi then xs[lo..hi] else []
  }

  function PyIndex(n: nat, i: int): (at: nat)
    ensures at <= n
  {
    var j := if i < 0 then i + n else i;
    if j < 0 then 0 else if j > n then n else j
  }

  /** metadata lists the trainer workers first, then the rollout workers. */
  function TrainerNext<M>(metadata: seq<M>, rollout: nat): Option<M>
    requires 1 <= rollout < |metadata|
  {
    Some(metadata[|metadata| - rollout])
  }

  function RolloutPrev<M>(metadata: seq<M>, rollout: int): seq<Option<M>>
    requires metadata != []
  {
    Wrap([metadata[0]] + PySlice(metadata, -rollout, -1))
  }

  function RolloutNext<M>(metadata: seq<M>, rollout: int): seq<Option<M>> {
    Wrap(PySlice(metadata, -rollout + 1, |metadata|)) + [None]
  }

  function Wrap<M>(xs: seq<M>): seq<Option<M>> {
    seq(|xs|, i requires 0 <= i < |xs| => Some(xs[i]))
  }

  /** What init_process_group asserts of rollout worker k, whose rank is k + 1 of rollout + 1. */
  ghost predicate Accepted<M>(metadata: seq<M>, rollout: nat, k: nat)
    requires metadata != []
  {
    && k < |RolloutPrev(metadata, rollout)| && k < |RolloutNext(metadata, rollout)|
    && RolloutPrev(metadata, rollout)[k].Some?
    && (RolloutNext(metadata, rollout)[k].Some? <==> k + 1 < rollout)
  }

  /** Trainer rank 0, then the rollout workers in order: each is connected to its two neighbours only. */
  ghost predicate IsChain<M>(metadata: seq<M>, trainers: nat, rollout: nat)
    requires 1 <= trainers && |metadata| == trainers + rollout
  {
    var prev, next := RolloutPrev(metadata, rollout), RolloutNext(metadata, rollout);
    && |prev| == rollout == |next|
    && forall k :: 0 <= k < rollout ==>
         && prev[k] == Some(metadata[if k == 0 then 0 else trainers + k - 1])
         && next[k] == if k + 1 < rollout then Some(metadata[trainers + k + 1]) else None
  }

  lemma SlicesOfMany<M>(metadata: seq<M>, trainers: nat, rollout: int)
    requires 1 <= trainers && 2 <= rollout && |metadata| == trainers + rollout
    ensures PySlice(metadata, -rollout, -1) == metadata[trainers..|metadata| - 1]
    ensures PySlice(metadata, -rollout + 1, |metadata|) == metadata[trainers + 1..]
  {
  }

  /** The two lists, entry by entry. */
  lemma ManyWorkers<M>(metadata: seq<M>, trainers: nat, rollout: nat)
    requires 1 <= trainers && 2 <= rollout && |metadata| == trainers + rollout
    ensures IsChain(metadata, trainers, rollout)
  {
    SlicesOfMany(metadata, trainers, rollout);
    var prev, next := RolloutPrev(metadata, rollout), RolloutNext(metadata, rollout);
    assert |prev| == rollout && |next| == rollout;
    forall k | 0 <= k < rollout
      ensures prev[k] == Some(metadata[if k == 0 then 0 else trainers + k - 1])
    {
      assert k > 0 ==> metadata[trainers..|metadata| - 1][k - 1] == metadata[trainers + k - 1];
    }
    forall k | 0 <= k < rollout
      ensures next[k] == if k + 1 < rollout then Some(metadata[trainers + k + 1]) else None
    {
      assert k + 1 < rollout ==> metadata[trainers + 1..][k] == metadata[trainers + k + 1];
    }
  }

  lemma ChainIsAccepted<M>(metadata: seq<M>, trainers: nat, rollout: nat, k: nat)
    requires 1 <= trainers && |metadata| == trainers + rollout && IsChain(metadata, trainers, rollout) && k < rollout
    ensures Accepted(metadata, rollout, k)
  {
    assert RolloutNext(metadata, rollout)[k] == if k + 1 < rollout then Some(metadata[trainers + k + 1]) else None;
  }

  /** [-1 + 1:] selects the whole list. */
  lemma OneWorker<M>(metadata: seq<M>, trainers: nat)
    requires 1 <= trainers && |metadata| == trainers + 1
    ensures !IsChain(metadata, trainers, 1) && !Accepted(metadata, 1, 0)
  {
    assert PySlice(metadata, 0, |metadata|) == metadata;
    assert RolloutNext(metadata, 1)[0] == Some(metadata[0]);
  }

  /** With two or more rollout workers the lists describe the chain the protocol needs; with a single one they do
      not: the only worker is told to pass the weights on to the trainer, and its process group assertion fails. */
  lemma TopologyIsChainIff<M>(metadata: seq<M>, trainers: nat, rollout: nat)
    requires 1 <= trainers && 1 <= rollout && |metadata| == trainers + rollout
    ensures IsChain(metadata, trainers, rollout) <==> rollout >= 2
    ensures (forall k :: 0 <= k < rollout ==> Accepted(metadata, rollout, k)) <==> rollout >= 2
    ensures TrainerNext(metadata, rollout) == Some(metadata[trainers])
  {
    if rollout >= 2 {
      ManyWorkers(metadata, trainers, rollout);
      forall k | 0 <= k < rollout
        ensures Accepted(metadata, rollout, k)
      {
        ChainIsAccepted(metadata, trainers, rollout, k);
      }
    } else {
      OneWorker(metadata, trainers);
    }
  }
}
