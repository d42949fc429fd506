/** parallel_load_safetensors and create_and_sync_state of fsdp_utils.py: every rank loads some of the checkpoint's
    files and broadcasts what is in them. */
module ShardLoading {
  import opened Arithmetic
  import opened Wrappers

  type Param = string

  /** A file of the checkpoint: the parameters the index lists under it, and what is in it. */
  datatype File<T> = File(names: set<Param>, contents: map<Param, T>)

  /** The index lists a parameter under one file. */
  ghost predicate Indexed<T>(files: seq<File<T>>) {
    forall f, g :: 0 <= f < g < |files| ==> files[f].names !! files[g].names
  }

  /** What a rank keeps for a parameter: its value, or the rank that has it. */
  datatype Entry<T> = Loaded(value: T) | HeldBy(rank: nat)

  type States<T> = map<Param, Entry<T>>

  /** Files per rank. */
  function ChunkSize(total: nat, world: nat): (size: nat)
    requires world > 0
  {
    CeilDiv(total, world)
  }

  /** The rank that loads file f. */
  predicate Loads(total: nat, world: nat, rank: nat, f: nat)
    requires world > 0
  {
    var size := ChunkSize(total, world);
    rank < world && rank * size <= f < rank * size + size && f < total
  }

  function Owner(total: nat, world: nat, f: nat): (owner: nat)
    requires world > 0 && f < total
    ensures owner < world
  {
    OwnerLoads(total, world, f);
    f / ChunkSize(total, world)
  }

  lemma OwnerLoads(total: nat, world: nat, f: nat)
    requires world > 0 && f < total
    ensures ChunkSize(total, world) > 0 && Loads(total, world, f / ChunkSize(total, world), f)
  {
    var size := ChunkSize(total, world);
    CeilDivBounds(total, world);
    assert total + world - 1 == size * world + (total + world - 1) % world;
    var owner := f / size;
    assert f == owner * size + f % size;
    if owner >= world {
      MulMono(world, owner, size);
    }
  }

  /** Every file is loaded by exactly one rank. */
  lemma OneLoader(total: nat, world: nat, f: nat, rank: nat)
    requires world > 0 && f < total
    ensures Loads(total, world, rank, f) <==> rank == Owner(total, world, f)
  {
    OwnerLoads(total, world, f);
    var size := ChunkSize(total, world);
    if Loads(total, world, rank, f) {
      DivUnique(rank, size, f - rank * size);
    }
  }

  /** File f belongs to rank f / ceil(total / world). */
  lemma FileOfRank(total: nat, world: nat, rank: nat, f: nat)
    requires world > 0 && f < total && rank < world
    ensures (total + world - 1) / world > 0
    ensures Loads(total, world, rank, f) <==> f / ((total + world - 1) / world) == rank
    ensures Loads(total, world, rank, f) <==>
            rank * ((total + world - 1) / world) <= f < (rank + 1) * ((total + world - 1) / world)
  {
    OwnerLoads(total, world, f);
    OneLoader(total, world, f, rank);
    MulStep(rank, ChunkSize(total, world));
  }

  /** So no rank loads more files than that. */
  lemma FilesPerRank(total: nat, world: nat, rank: nat, loaded: set<nat>)
    requires world > 0 && rank < world && forall f :: f in loaded ==> f < total && Loads(total, world, rank, f)
    ensures |loaded| <= (total + world - 1) / world
  {
    var size := (total + world - 1) / world;
    forall f | f in loaded
      ensures rank * size <= f < rank * size + size
    {
      FileOfRank(total, world, rank, f);
      MulStep(rank, size);
    }
    FewInRange(loaded, rank * size, size);
  }

  lemma {:induction false} FewInRange(s: set<nat>, lo: nat, size: nat)
    requires forall x :: x in s ==> lo <= x < lo + size
    ensures |s| <= size
    decreases size
  {
    if size == 0 {
      assert s == {};
    } else {
      FewInRange(s - {lo + size - 1}, lo, size - 1);
    }
  }

  // ----- loading -----

  function OwnerOf<T>(files: seq<File<T>>, world: nat, f: nat): (owner: nat)
    requires world > 0 && f < |files|
    ensures owner < world
  {
    Owner(|files|, world, f)
  }

  /** The entries a rank makes for a file of this owner. */
  function EntriesOf<T>(file: File<T>, rank: nat, owner: nat): States<T> {
    if owner == rank then map p | p in file.contents :: Loaded(file.contents[p])
    else map p | p in file.names :: HeldBy(owner)
  }

  /** A rank's shard_states after the first n files. */
  function StatesAfter<T>(files: seq<File<T>>, world: nat, rank: nat, n: nat): States<T>
    requires world > 0 && n <= |files|
  {
    if n == 0 then map[]
    else StatesAfter(files, world, rank, n - 1) + EntriesOf(files[n - 1], rank, OwnerOf(files, world, n - 1))
  }

  /** With `size` files for every rank, file f gives this one an entry for p. */
  predicate GivesEntry<T>(files: seq<File<T>>, size: nat, rank: nat, f: nat, p: Param)
    requires size > 0
  {
    f < |files| && if f / size == rank then p in files[f].contents else p in files[f].names
  }

  /** The entry for p is the one of the last file that gives one: its value if the file is the rank's own, and the
      number of the file's rank otherwise. */
  ghost predicate EntryIsRight<T>(files: seq<File<T>>, world: nat, rank: nat, p: Param, states: States<T>)
    requires world > 0
  {
    var size := (|files| + world - 1) / world;
    if size == 0 then p !in states
    else
      && (p in states ==> exists f: nat :: GivesEntry(files, size, rank, f, p))
      && forall f: nat {:trigger GivesEntry(files, size, rank, f, p)} ::
           GivesEntry(files, size, rank, f, p) && (forall g: nat :: g > f ==> !GivesEntry(files, size, rank, g, p)) ==>
             p in states && states[p] == if f / size == rank then Loaded(files[f].contents[p]) else HeldBy(f / size)
  }

  lemma LastEntryIsRight<T>(files: seq<File<T>>, world: nat, rank: nat, p: Param)
    requires world > 0
    ensures EntryIsRight(files, world, rank, p, StatesAfter(files, world, rank, |files|))
  {
    var size := (|files| + world - 1) / world;
    if |files| > 0 {
      OwnerLoads(|files|, world, 0);
    }
    LastFileWins(files, world, rank, |files|, p);
    var last := LastSeen(files, world, rank, |files|, p);
    if size > 0 {
      forall f: nat
        ensures Sees(files, world, rank, f, p) <==> GivesEntry(files, size, rank, f, p)
      {
      }
      forall f: nat | && GivesEntry(files, size, rank, f, p)
                      && forall g: nat :: g > f ==> !GivesEntry(files, size, rank, g, p)
        ensures last == Some(f)
      {
        assert Sees(files, world, rank, f, p);
        assert GivesEntry(files, size, rank, last.value, p);
      }
      if last.Some? {
        assert GivesEntry(files, size, rank, last.value, p);
      }
    }
  }

  /** The loop over all ranks' files on one rank. */
  method ParallelLoad<T>(files: seq<File<T>>, world: nat, rank: nat) returns (states: States<T>)
    requires world > 0
    ensures states == StatesAfter(files, world, rank, |files|)
    ensures forall p {:trigger EntryIsRight(files, world, rank, p, states)} ::
              EntryIsRight(files, world, rank, p, states)
  {
    states := map[];
    var size := ChunkSize(|files|, world);
    var next := 0;
    for r := 0 to world
      invariant next <= |files| && next == (if r * size <= |files| then r * size else |files|)
      invariant states == StatesAfter(files, world, rank, next)
    {
      MulStep(r, size);
      var end := if r * size + size <= |files| then r * size + size else |files|;
      while next < end
        invariant next <= end && (next < end ==> r * size <= next)
        invariant states == StatesAfter(files, world, rank, next)
      {
        OneLoader(|files|, world, next, r);
        states := states + EntriesOf(files[next], rank, r);
        next := next + 1;
      }
    }
    CoversAll(|files|, world);
    forall p
      ensures EntryIsRight(files, world, rank, p, states)
    {
      LastEntryIsRight(files, world, rank, p);
    }
  }

  lemma CoversAll(total: nat, world: nat)
    requires world > 0
    ensures world * ChunkSize(total, world) >= total
  {
    var size := ChunkSize(total, world);
    assert total + world - 1 == size * world + (total + world - 1) % world;
  }

  /** File f gives the rank an entry for p: its own files do by what is in them, the others by what the index says. */
  predicate Sees<T>(files: seq<File<T>>, world: nat, rank: nat, f: nat, p: Param)
    requires world > 0
  {
    f < |files| && if OwnerOf(files, world, f) == rank then p in files[f].contents else p in files[f].names
  }

  /** The last of the first n files that do, if there is one. */
  function LastSeen<T>(files: seq<File<T>>, world: nat, rank: nat, n: nat, p: Param): (f: Option<nat>)
    requires world > 0 && n <= |files|
    ensures f.Some? ==> f.value < n && Sees(files, world, rank, f.value, p)
    ensures forall h: nat :: h < n && Sees(files, world, rank, h, p) ==> f.Some? && h <= f.value
  {
    if n == 0 then None
    else if Sees(files, world, rank, n - 1, p) then Some(n - 1)
    else LastSeen(files, world, rank, n - 1, p)
  }

  function EntryFrom<T>(files: seq<File<T>>, world: nat, rank: nat, f: nat, p: Param): Entry<T>
    requires world > 0 && Sees(files, world, rank, f, p)
  {
    var owner := OwnerOf(files, world, f);
    if owner == rank then Loaded(files[f].contents[p]) else HeldBy(owner)
  }

  /** An entry is the one of the last file that gives one. */
  lemma {:induction false} LastFileWins<T>(files: seq<File<T>>, world: nat, rank: nat, n: nat, p: Param)
    requires world > 0 && n <= |files|
    ensures var states, f := StatesAfter(files, world, rank, n), LastSeen(files, world, rank, n, p);
            && (p in states <==> f.Some?)
            && (f.Some? ==> states[p] == EntryFrom(files, world, rank, f.value, p))
  {
    if n > 0 {
      LastFileWins(files, world, rank, n - 1, p);
    }
  }

  // ----- synchronizing -----

  /** What all ranks have loaded. */
  function AllStates<T>(files: seq<File<T>>, world: nat): (states: seq<States<T>>)
    requires world > 0
    ensures |states| == world
  {
    seq(world, r requires 0 <= r < world => StatesAfter(files, world, r, |files|))
  }

  /** The source a rank gives to the broadcast of a parameter. */
  function Source<T>(states: States<T>, rank: nat, p: Param): nat
    requires p in states
  {
    match states[p]
    case Loaded(_) => rank
    case HeldBy(owner) => owner
  }

  /** Every rank knows the parameter, all name the same source, and that one has it. */
  predicate CanSync<T>(states: seq<States<T>>, p: Param)
    requires |states| > 0
  {
    && (forall r :: 0 <= r < |states| ==> p in states[r])
    && var source := Source(states[0], 0, p);
       && (forall r :: 0 <= r < |states| ==> Source(states[r], r, p) == source)
       && source < |states| && states[source][p].Loaded?
  }

  /** What the source has. */
  function Synced<T>(states: seq<States<T>>, p: Param): T
    requires |states| > 0 && CanSync(states, p)
  {
    states[Source(states[0], 0, p)][p].value
  }

  function Without<T>(states: seq<States<T>>, p: Param): seq<States<T>> {
    seq(|states|, r requires 0 <= r < |states| => states[r] - {p})
  }

  /** create_and_sync_state on all ranks at once: every rank copies its own value in, if it has one, takes part in the
      broadcast and forgets the entry; None where a rank fails its assertion or the sources differ. */
  method SyncState<T>(states: seq<States<T>>, p: Param) returns (result: Option<(seq<States<T>>, T)>)
    requires |states| > 0
    ensures result.Some? <==> CanSync(states, p)
    ensures result.Some? ==> result.value == (Without(states, p), Synced(states, p))
  {
    if p !in states[0] {
      return None;
    }
    var source := Source(states[0], 0, p);
    var rest: seq<States<T>> := [];
    for r := 0 to |states|
      invariant |rest| == r && forall q :: 0 <= q < r ==> rest[q] == states[q] - {p}
      invariant forall q :: 0 <= q < r ==> p in states[q] && Source(states[q], q, p) == source
    {
      if p !in states[r] || Source(states[r], r, p) != source {
        return None;
      }
      rest := rest + [states[r] - {p}];
    }
    if source >= |states| || !states[source][p].Loaded? {
      return None;
    }
    assert rest == Without(states, p);
    result := Some((rest, states[source][p].value));
  }

  // ----- when the sources agree -----

  /** Some file of that rank has the parameter. */
  ghost predicate HasIt<T>(files: seq<File<T>>, world: nat, rank: nat, p: Param)
    requires world > 0
  {
    exists f: nat :: f < |files| && OwnerOf(files, world, f) == rank && p in files[f].contents
  }

  /** A later file of another rank has the parameter as well. */
  ghost predicate AlsoLater<T>(files: seq<File<T>>, world: nat, f: nat, p: Param)
    requires world > 0 && f < |files|
  {
    exists g: nat :: f < g < |files| && OwnerOf(files, world, g) != OwnerOf(files, world, f) && p in files[g].contents
  }

  lemma ListedOnce<T>(files: seq<File<T>>, f: nat, g: nat, p: Param)
    requires Indexed(files) && f < |files| && g < |files| && p in files[f].names && p in files[g].names
    ensures f == g
  {
  }

  /** The rank whose file the index names: it has the value of the last of its files that have one, or no entry. */
  lemma OwnersEntry<T>(files: seq<File<T>>, world: nat, f: nat, p: Param)
    requires world > 0 && Indexed(files) && f < |files| && p in files[f].names
    ensures var owner := OwnerOf(files, world, f);
            var states, last := StatesAfter(files, world, owner, |files|), LastSeen(files, world, owner, |files|, p);
            && (p in states <==> HasIt(files, world, owner, p)) && (p in states <==> last.Some?)
            && (p in states ==> p in files[last.value].contents && states[p] == Loaded(files[last.value].contents[p]))
  {
    var owner := OwnerOf(files, world, f);
    LastFileWins(files, world, owner, |files|, p);
    var last := LastSeen(files, world, owner, |files|, p);
    if last.Some? && OwnerOf(files, world, last.value) != owner {
      ListedOnce(files, f, last.value, p);
    }
    if g: nat :| g < |files| && OwnerOf(files, world, g) == owner && p in files[g].contents {
      assert Sees(files, world, owner, g, p);
    }
  }

  /** Any other rank: it names that rank, unless a later file of its own has the parameter. */
  lemma OthersEntry<T>(files: seq<File<T>>, world: nat, f: nat, rank: nat, p: Param)
    requires world > 0 && Indexed(files) && f < |files| && p in files[f].names && rank != OwnerOf(files, world, f)
    ensures var states := StatesAfter(files, world, rank, |files|);
            && p in states
            && if exists g: nat :: f < g < |files| && OwnerOf(files, world, g) == rank && p in files[g].contents
               then states[p].Loaded? else states[p] == HeldBy(OwnerOf(files, world, f))
  {
    LastFileWins(files, world, rank, |files|, p);
    assert Sees(files, world, rank, f, p);
    var last := LastSeen(files, world, rank, |files|, p).value;
    if OwnerOf(files, world, last) != rank {
      ListedOnce(files, f, last, p);
    }
    if g: nat :| f < g < |files| && OwnerOf(files, world, g) == rank && p in files[g].contents {
      assert Sees(files, world, rank, g, p);
    }
  }

  /** A parameter of the index is synchronized if and only if its rank has it in one of its files and no later file of
      another rank has it too; then all ranks get the value of the last of that rank's files that have it. */
  lemma SourcesAgreeIff<T>(files: seq<File<T>>, world: nat, f: nat, p: Param)
    requires world > 0 && Indexed(files) && f < |files| && p in files[f].names
    ensures var owner := OwnerOf(files, world, f);
            CanSync(AllStates(files, world), p) <==> HasIt(files, world, owner, p) && !AlsoLater(files, world, f, p)
    ensures var last := LastSeen(files, world, OwnerOf(files, world, f), |files|, p);
            CanSync(AllStates(files, world), p) ==>
              && last.Some? && p in files[last.value].contents
              && Synced(AllStates(files, world), p) == files[last.value].contents[p]
  {
    var owner, states := OwnerOf(files, world, f), AllStates(files, world);
    OwnersEntry(files, world, f, p);
    if AlsoLater(files, world, f, p) {
      var g: nat :| f < g < |files| && OwnerOf(files, world, g) != owner && p in files[g].contents;
      var rank := OwnerOf(files, world, g);
      OthersEntry(files, world, f, rank, p);
      assert p in states[owner] ==> Source(states[owner], owner, p) != Source(states[rank], rank, p);
    } else if HasIt(files, world, owner, p) {
      forall r: nat | r < world
        ensures p in states[r] && Source(states[r], r, p) == owner
      {
        if r != owner {
          OthersEntry(files, world, f, r, p);
        }
      }
    } else {
      assert p !in states[owner];
    }
  }

  /** A parameter that the index does not list is known to the ranks that load it only, each as its own. */
  lemma UnlistedIff<T>(files: seq<File<T>>, world: nat, p: Param)
    requires world > 0 && forall f: nat :: f < |files| ==> p !in files[f].names
    ensures CanSync(AllStates(files, world), p) <==> world == 1 && HasIt(files, world, 0, p)
  {
    var states: seq<States<T>> := AllStates(files, world);
    forall r: nat | r < world
      ensures p in states[r] <==> HasIt(files, world, r, p)
      ensures p in states[r] ==> states[r][p].Loaded?
    {
      LastFileWins(files, world, r, |files|, p);
      if g: nat :| g < |files| && OwnerOf(files, world, g) == r && p in files[g].contents {
        assert Sees(files, world, r, g, p);
      }
    }
    if world > 1 && p in states[0] && p in states[1] {
      assert Source(states[0], 0, p) != Source(states[1], 1, p);
    }
  }

  /** Every file has what the index lists under it, and nothing else. */
  ghost predicate Consistent<T>(files: seq<File<T>>) {
    Indexed(files) && forall f :: 0 <= f < |files| ==> files[f].contents.Keys == files[f].names
  }

  /** Then every parameter is synchronized to its value. */
  lemma ConsistentFilesAgree<T>(files: seq<File<T>>, world: nat, f: nat, p: Param)
    requires world > 0 && Consistent(files) && f < |files| && p in files[f].contents
    ensures CanSync(AllStates(files, world), p) && Synced(AllStates(files, world), p) == files[f].contents[p]
  {
    SourcesAgreeIff(files, world, f, p);
    var owner := OwnerOf(files, world, f);
    assert HasIt(files, world, owner, p);
    forall g: nat | g < |files| && p in files[g].contents
      ensures g == f
    {
      ListedOnce(files, f, g, p);
    }
  }

  /** What is left of the states once the parameters in `done` have been synchronized. */
  predicate Remaining<T(==)>(start: seq<States<T>>, states: seq<States<T>>, done: set<Param>) {
    |states| == |start| && forall r :: 0 <= r < |start| ==> states[r] == start[r] - done
  }

  /** The others do not matter to a parameter. */
  lemma StillTheSame<T>(start: seq<States<T>>, states: seq<States<T>>, done: set<Param>, p: Param)
    requires |start| > 0 && Remaining(start, states, done) && p !in done
    ensures CanSync(states, p) <==> CanSync(start, p)
    ensures CanSync(start, p) ==> Synced(states, p) == Synced(start, p)
    ensures Remaining(start, Without(states, p), done + {p})
  {
    forall r | 0 <= r < |start|
      ensures p in states[r] <==> p in start[r]
      ensures p in start[r] ==> states[r][p] == start[r][p]
      ensures states[r] - {p} == start[r] - (done + {p})
    {
      assert states[r] == start[r] - done;
    }
  }

  /** The parameters can be synchronized in any order: it fails exactly where one of them cannot be, and every value is
      what its source had from the beginning. */
  method SyncAll<T>(start: seq<States<T>>, params: seq<Param>) returns (values: Option<seq<T>>)
    requires |start| > 0 && forall i, j :: 0 <= i < j < |params| ==> params[i] != params[j]
    ensures values.Some? <==> forall i :: 0 <= i < |params| ==> CanSync(start, params[i])
    ensures values.Some? ==> |values.value| == |params|
    ensures values.Some? ==> forall i :: 0 <= i < |params| ==> values.value[i] == Synced(start, params[i])
  {
    var states, list: seq<T> := start, [];
    ghost var done: set<Param> := {};
    assert forall r :: 0 <= r < |start| ==> start[r] == start[r] - {};
    for i := 0 to |params|
      invariant Remaining(start, states, done) && |list| == i
      invariant forall p :: p in done ==> p in params[..i]
      invariant forall j :: 0 <= j < i ==> CanSync(start, params[j]) && list[j] == Synced(start, params[j])
    {
      StillTheSame(start, states, done, params[i]);
      var result := SyncState(states, params[i]);
      if result.None? {
        return None;
      }
      states, list, done := result.value.0, list + [result.value.1], done + {params[i]};
    }
    values := Some(list);
  }
}
