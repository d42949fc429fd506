/** _add_remax_reward_baselines of main_ppo_sync.py: every sampled output gets the score of its prompt's last greedy
    output as a baseline. Outputs are named by their places in the batch, here and in what is returned. */
module ReMaxBaselines {
  import opened FinalSessions
  import opened OutputKeys
  import opened Wrappers

  const PREFIX: string := "remax_baseline_"

  /** A baseline's row has the uid of the prompt it is for, without the prefix, as its session. */
  datatype Entry = Sampled(uid: string) | Baseline(row: Row)

  /** None where the key does not split into three, or int() fails on a baseline's index. */
  function Read(key: string): Option<Entry> {
    var fields := RSplit(key, 2);
    if |fields| != 3 then None
    else if !(PREFIX <= fields[0]) then Some(Sampled(fields[0]))
    else match ParseInt(fields[2])
         case None => None
         case Some(index) => Some(Baseline(Row(fields[0][|PREFIX|..], index)))
  }

  lemma SampledIsRead(uid: string, session: nat, index: nat)
    requires !("remax_baseline_" <= uid)
    ensures Read(OutputString(uid, session, index)) == Some(Sampled(uid))
  {
    SplitUndoesFormat(uid, session, index);
  }

  lemma BaselineIsRead(uid: string, session: nat, index: nat)
    ensures Read(OutputString("remax_baseline_" + uid, session, index)) == Some(Baseline(Row(uid, index)))
  {
    SplitUndoesFormat(PREFIX + uid, session, index);
    ParseIntUndoesDecimal(index);
  }

  /** Any key with three fields at least: int() is asked of a baseline's index only. */
  lemma {:induction false} ReadIs(uid: string, session: string, index: string)
    requires '_' !in session && '_' !in index
    ensures !("remax_baseline_" <= uid) ==> Read(uid + "_" + session + "_" + index) == Some(Sampled(uid))
    ensures Read("remax_baseline_" + uid + "_" + session + "_" + index) ==
            match ParseInt(index)
            case None => None
            case Some(i) => Some(Baseline(Row(uid, i)))
  {
    SplitThree(uid, session, index);
    SplitThree(PREFIX + uid, session, index);
    assert (PREFIX + uid)[|PREFIX|..] == uid;
  }

  /** A key with fewer fails. */
  lemma {:induction false} ShortKeysFail(first: string, second: string)
    requires '_' !in first && '_' !in second
    ensures Read(first) == None && Read(first + "_" + second) == None
  {
    SplitShort(first, second);
  }

  ghost predicate AllRead(read: string -> Option<Entry>, keys: seq<string>, entries: seq<Entry>) {
    |entries| == |keys| && forall i :: 0 <= i < |keys| ==> read(keys[i]) == Some(entries[i])
  }

  ghost predicate IsReadable(read: string -> Option<Entry>, keys: seq<string>) {
    forall i :: 0 <= i < |keys| ==> read(keys[i]).Some?
  }

  /** The places of the entries with the flag, in their order. */
  ghost predicate IsPlaces(entries: seq<Entry>, baseline: bool, places: seq<nat>) {
    && (forall k, l :: 0 <= k < l < |places| ==> places[k] < places[l])
    && (forall i: nat :: i in places <==> i < |entries| && entries[i].Baseline? == baseline)
  }

  lemma PlacesNext(entries: seq<Entry>, entry: Entry, baseline: bool, places: seq<nat>)
    requires IsPlaces(entries, baseline, places)
    ensures IsPlaces(entries + [entry], baseline,
                     if entry.Baseline? == baseline then places + [|entries|] else places)
  {
    var n := |entries|;
    var longer, after := entries + [entry], if entry.Baseline? == baseline then places + [n] else places;
    forall k | 0 <= k < |places|
      ensures places[k] < n
    {
      assert places[k] in places;
    }
    forall i: nat
      ensures i in after <==> i < n + 1 && longer[i].Baseline? == baseline
    {
      assert i in places <==> i < n && entries[i].Baseline? == baseline;
      if i < n {
        assert longer[i] == entries[i];
      }
    }
  }

  ghost predicate RowsAt(entries: seq<Entry>, baselines: seq<nat>, rows: seq<Row>) {
    && |rows| == |baselines|
    && forall k :: 0 <= k < |rows| ==> baselines[k] < |entries| && entries[baselines[k]] == Baseline(rows[k])
  }

  /** sampled_keys, all_baseline_keys, and final_baseline_key_by_uid with the rows it was made from. */
  datatype Parts = Parts(sampled: seq<nat>, baselines: seq<nat>, rows: seq<Row>, finals: Finals)

  ghost predicate IsParts(entries: seq<Entry>, parts: Parts) {
    && IsPlaces(entries, false, parts.sampled) && IsPlaces(entries, true, parts.baselines)
    && RowsAt(entries, parts.baselines, parts.rows) && Scanned(parts.rows, parts.finals)
  }

  function Next(parts: Parts, entry: Entry, i: nat): Parts {
    match entry
    case Sampled(_) => parts.(sampled := parts.sampled + [i])
    case Baseline(row) =>
      Parts(parts.sampled, parts.baselines + [i], parts.rows + [row], See(parts.finals, row, |parts.rows|))
  }

  lemma RowsNext(entries: seq<Entry>, entry: Entry, parts: Parts)
    requires RowsAt(entries, parts.baselines, parts.rows)
    ensures var next := Next(parts, entry, |entries|); RowsAt(entries + [entry], next.baselines, next.rows)
  {
  }

  lemma PartsNext(entries: seq<Entry>, entry: Entry, parts: Parts)
    requires IsParts(entries, parts)
    ensures IsParts(entries + [entry], Next(parts, entry, |entries|))
  {
    PlacesNext(entries, entry, false, parts.sampled);
    PlacesNext(entries, entry, true, parts.baselines);
    RowsNext(entries, entry, parts);
    if entry.Baseline? {
      ScanStep(parts.rows, parts.finals, entry.row);
    }
  }

  /** The first loop. */
  method Partition(read: string -> Option<Entry>, keys: seq<string>)
    returns (ok: bool, entries: seq<Entry>, parts: Parts)
    ensures ok <==> IsReadable(read, keys)
    ensures ok ==> AllRead(read, keys, entries) && IsParts(entries, parts)
  {
    entries, parts := [], Parts([], [], [], Finals([], map[]));
    for i := 0 to |keys|
      invariant AllRead(read, keys[..i], entries) && IsParts(entries, parts)
    {
      var entry := read(keys[i]);
      if entry.None? {
        ok := false;
        return;
      }
      PartsNext(entries, entry.value, parts);
      assert keys[..i + 1] == keys[..i] + [keys[i]];
      entries, parts := entries + [entry.value], Next(parts, entry.value, i);
    }
    assert keys[..|keys|] == keys;
    ok := true;
  }

  /** Row b is the first of the baselines with the highest index for the prompt. */
  ghost predicate IsBaselineFor(entries: seq<Entry>, uid: string, b: nat) {
    && b < |entries| && entries[b].Baseline? && entries[b].row.session == uid
    && forall c :: 0 <= c < |entries| && entries[c].Baseline? && entries[c].row.session == uid ==>
         entries[c].row.index < entries[b].row.index || (entries[c].row.index == entries[b].row.index && b <= c)
  }

  lemma BaselineIsUnique(entries: seq<Entry>, uid: string, b: nat, c: nat)
    requires IsBaselineFor(entries, uid, b) && IsBaselineFor(entries, uid, c)
    ensures b == c
  {
  }

  predicate HasBaseline(entries: seq<Entry>, uid: string) {
    exists c :: 0 <= c < |entries| && entries[c].Baseline? && entries[c].row.session == uid
  }

  lemma FinalIsBaseline(entries: seq<Entry>, parts: Parts, uid: string)
    requires IsParts(entries, parts)
    ensures HasBaseline(entries, uid) <==> uid in parts.finals.best
    ensures uid in parts.finals.best ==>
              && parts.finals.best[uid].1 < |parts.baselines|
              && IsBaselineFor(entries, uid, parts.baselines[parts.finals.best[uid].1])
  {
    var baselines, rows, finals := parts.baselines, parts.rows, parts.finals;
    if c :| 0 <= c < |entries| && entries[c].Baseline? && entries[c].row.session == uid {
      assert c in baselines;
      var k :| 0 <= k < |baselines| && baselines[k] == c;
      assert rows[k].session == uid;
    }
    if uid in finals.best {
      assert Best(rows, finals, uid);
      var r := finals.best[uid].1;
      assert entries[baselines[r]] == Baseline(rows[r]);
      forall c | 0 <= c < |entries| && entries[c].Baseline? && entries[c].row.session == uid
        ensures NoLater(entries, c, baselines[r])
      {
        assert c in baselines;
        var k :| 0 <= k < |baselines| && baselines[k] == c;
        assert NotAfter(rows, k, r);
      }
    }
  }

  predicate NoLater(entries: seq<Entry>, c: nat, b: nat)
    requires c < |entries| && b < |entries| && entries[c].Baseline? && entries[b].Baseline?
  {
    entries[c].row.index < entries[b].row.index || (entries[c].row.index == entries[b].row.index && b <= c)
  }

  /** What is stored for the sampled outputs: each one's baseline's score. */
  ghost predicate AreBaselines(entries: seq<Entry>, sampled: seq<nat>, score: nat -> real, values: seq<real>)
  {
    && |values| == |sampled|
    && (forall k :: 0 <= k < |sampled| ==> sampled[k] < |entries| && entries[sampled[k]].Sampled?)
    && forall k, b: nat :: 0 <= k < |sampled| && IsBaselineFor(entries, entries[sampled[k]].uid, b) ==>
         values[k] == score(b)
  }

  /** When the batch gets its baselines: there is a sampled output, and each has a baseline. */
  ghost predicate Complete(entries: seq<Entry>) {
    && (exists i :: 0 <= i < |entries| && entries[i].Sampled?)
    && forall i :: 0 <= i < |entries| && entries[i].Sampled? ==> HasBaseline(entries, entries[i].uid)
  }

  /** baseline_by_uid looked up for every sampled output; None where one is missing. */
  method LookUpBaselines(entries: seq<Entry>, parts: Parts, score: nat -> real) returns (values: Option<seq<real>>)
    requires IsParts(entries, parts)
    ensures forall k :: 0 <= k < |parts.sampled| ==>
              parts.sampled[k] < |entries| && entries[parts.sampled[k]].Sampled?
    ensures values.Some? <==>
            forall k :: 0 <= k < |parts.sampled| ==> HasBaseline(entries, entries[parts.sampled[k]].uid)
    ensures values.Some? ==> AreBaselines(entries, parts.sampled, score, values.value)
  {
    var sampled, finals := parts.sampled, parts.finals;
    assert forall k :: 0 <= k < |sampled| ==> sampled[k] in sampled;
    var found: seq<real> := [];
    for k := 0 to |sampled|
      invariant |found| == k
      invariant forall j :: 0 <= j < k ==> HasBaseline(entries, entries[sampled[j]].uid)
      invariant forall j, b: nat :: 0 <= j < k && IsBaselineFor(entries, entries[sampled[j]].uid, b) ==>
                  found[j] == score(b)
    {
      var uid := entries[sampled[k]].uid;
      FinalIsBaseline(entries, parts, uid);
      if uid !in finals.best {
        return None;
      }
      var last := parts.baselines[finals.best[uid].1];
      forall b: nat | IsBaselineFor(entries, uid, b)
        ensures b == last
      {
        BaselineIsUnique(entries, uid, b, last);
      }
      found := found + [score(last)];
    }
    values := Some(found);
  }

  datatype Batch = Batch(sampled: seq<nat>, values: seq<real>, cleared: seq<nat>)

  /** The batch that goes on, the baselines of its outputs, and what is cleared: all the greedy outputs. `score` sums up
      what is stored for an output. Fails where a key cannot be read, where there is no baseline, and where a sampled
      output has none or there is nothing to stack. */
  method AddBaselines(keys: seq<string>, score: nat -> real) returns (entries: seq<Entry>, batch: Option<Batch>)
    ensures IsReadable(Read, keys) ==> AllRead(Read, keys, entries)
    ensures batch.Some? <==> IsReadable(Read, keys) && Complete(entries)
    ensures batch.Some? ==>
              && IsPlaces(entries, false, batch.value.sampled) && IsPlaces(entries, true, batch.value.cleared)
              && AreBaselines(entries, batch.value.sampled, score, batch.value.values)
  {
    entries, batch := AddWith(Read, keys, score);
  }

  method AddWith(read: string -> Option<Entry>, keys: seq<string>, score: nat -> real)
    returns (entries: seq<Entry>, batch: Option<Batch>)
    ensures IsReadable(read, keys) ==> AllRead(read, keys, entries)
    ensures batch.Some? <==> IsReadable(read, keys) && Complete(entries)
    ensures batch.Some? ==>
              && IsPlaces(entries, false, batch.value.sampled) && IsPlaces(entries, true, batch.value.cleared)
              && AreBaselines(entries, batch.value.sampled, score, batch.value.values)
  {
    var ok, parts;
    ok, entries, parts := Partition(read, keys);
    if !ok {
      return entries, None;
    }
    if |parts.baselines| == 0 || |parts.sampled| == 0 {
      NothingToDo(entries, parts.sampled, parts.baselines);
      return entries, None;
    }
    CompleteIff(entries, parts.sampled);
    var values := LookUpBaselines(entries, parts, score);
    if values.None? {
      return entries, None;
    }
    batch := Some(Batch(parts.sampled, values.value, parts.baselines));
  }

  lemma CompleteIff(entries: seq<Entry>, sampled: seq<nat>)
    requires IsPlaces(entries, false, sampled) && |sampled| > 0
    ensures forall k :: 0 <= k < |sampled| ==> sampled[k] < |entries| && entries[sampled[k]].Sampled?
    ensures Complete(entries) <==> forall k :: 0 <= k < |sampled| ==> HasBaseline(entries, entries[sampled[k]].uid)
  {
    assert forall k :: 0 <= k < |sampled| ==> sampled[k] in sampled;
    assert entries[sampled[0]].Sampled?;
    if forall k :: 0 <= k < |sampled| ==> HasBaseline(entries, entries[sampled[k]].uid) {
      forall i: nat | i < |entries| && entries[i].Sampled?
        ensures HasBaseline(entries, entries[i].uid)
      {
        assert i in sampled;
        var k :| 0 <= k < |sampled| && sampled[k] == i;
      }
    }
  }

  lemma NothingToDo(entries: seq<Entry>, sampled: seq<nat>, baselines: seq<nat>)
    requires IsPlaces(entries, false, sampled) && IsPlaces(entries, true, baselines)
    requires |baselines| == 0 || |sampled| == 0
    ensures !Complete(entries)
  {
    if |sampled| == 0 {
      assert forall i: nat :: i < |entries| ==> i !in sampled;
    } else {
      var i := sampled[0];
      assert i in sampled;
      assert forall c: nat :: c < |entries| ==> c !in baselines;
      assert !HasBaseline(entries, entries[i].uid);
    }
  }
}
